/**
 The two daily jobs and their switch: the stock check (`verificarEstoqueJob`,
 08:00) that runs the replenishment engine and tells the administrators, and
 the deadline check (`verificarPrazosJob`, 09:00) that warns the buyers of
 overdue orders. Each job body is a function of the store; the notification
 inserts run outside any transaction, one statement each, so a refused insert
 keeps the ones before it.
 */
module Scheduler {
  import opened Wrappers
  import opened Text
  import opened Model
  import opened OrderWriter
  import opened Planner
  import opened Orders

  const StockCron: string := "0 8 * * *"
  const DeadlineCron: string := "0 9 * * *"

  const StockInfoTitle: string := "Pedidos Automáticos Gerados"
  const StockErrorTitle: string := "Erro na Verificação de Estoque"
  const StockErrorMessage: string := "Ocorreu um erro ao verificar automaticamente o estoque. Verifique os logs do sistema."
  const OverdueTitle: string := "Pedidos com Prazo Vencido"

  /** The info message, carrying the number of orders created. */
  function StockInfoMessage(count: nat): string {
    Decimal(count) + " pedidos foram gerados automaticamente devido a baixo estoque."
  }

  /** The warning message, carrying the number of overdue orders. */
  function OverdueMessage(count: nat): string {
    "Existem " + Decimal(count) + " pedidos com prazo de entrega vencido."
  }

  /** One notification per recipient, in recipient order. */
  function Notices(recipients: seq<Id>, title: string, message: string, severity: Severity): seq<Notification> {
    seq(|recipients|, i requires 0 <= i < |recipients| => Notification(Some(recipients[i]), title, message, severity))
  }

  /** The inserts of a `for ... await` loop that stick when insert number `refused` is refused. */
  function Written<T>(xs: seq<T>, refused: Option<nat>): (r: seq<T>)
    ensures refused.None? || refused.value >= |xs| ==> r == xs
    ensures refused.Some? && refused.value < |xs| ==> |r| == refused.value
    ensures |r| <= |xs| && r == xs[..|r|]
  {
    if refused.Some? && refused.value < |xs| then xs[..refused.value] else xs
  }

  /** Whether notification insert number `refused` lies within the first `n` inserts. */
  predicate RefusedWithin(refused: Option<nat>, n: nat) {
    refused.Some? && refused.value < n
  }

  /**
   The notifications the stock job writes, given the outcome of the
   replenishment run (the number of orders created, or its error) and the
   administrators. A count of 0 writes nothing; a positive count writes one
   info per administrator; a failed run writes one error per administrator.
   When an info insert is refused, the catch block writes the errors after
   the infos already written; a refused error insert is swallowed.
   */
  function StockJobNotices(outcome: Result<nat, ApiError>, admins: seq<Id>, refused: Option<nat>): (r: seq<Notification>)
    ensures forall i :: 0 <= i < |r| ==> r[i].userId.Some? && r[i].userId.value in admins
    ensures outcome == Success(0) ==> r == []
    ensures outcome.Success? && outcome.value > 0 && !RefusedWithin(refused, |admins|) ==>
              r == Notices(admins, StockInfoTitle, StockInfoMessage(outcome.value), Info)
    ensures outcome.Success? && outcome.value > 0 && RefusedWithin(refused, |admins|) ==>
              && |r| == refused.value + |admins|
              && (forall i :: 0 <= i < refused.value ==> r[i] == Notification(Some(admins[i]), StockInfoTitle, StockInfoMessage(outcome.value), Info))
              && (forall i :: refused.value <= i < |r| ==> r[i] == Notification(Some(admins[i - refused.value]), StockErrorTitle, StockErrorMessage, Error))
    ensures outcome.Failure? ==>
              && |r| == (if RefusedWithin(refused, |admins|) then refused.value else |admins|)
              && forall i :: 0 <= i < |r| ==> r[i] == Notification(Some(admins[i]), StockErrorTitle, StockErrorMessage, Error)
  {
    var errors := Notices(admins, StockErrorTitle, StockErrorMessage, Error);
    match outcome
    case Failure(_) => Written(errors, refused)
    case Success(count) =>
      if count == 0 then []
      else
        var infos := Notices(admins, StockInfoTitle, StockInfoMessage(count), Info);
        if RefusedWithin(refused, |infos|) then Written(infos, refused) + errors
        else infos
  }

  /**
   `verificarEstoqueJob`: run the replenishment engine and add the stock job's
   notifications. The job always ends with a store: no failure leaves it.
   `orderIds`, `refused` and `year` feed the engine; `noteRefused` is the
   notification insert the database refuses, if any. `outcome` is what the
   engine reported: the number of orders it created, or its error.
   */
  method StockJob(s: Store, orderIds: nat -> Id, refused: nat -> Option<nat>, noteRefused: Option<nat>,
                  year: nat, now: Day)
    returns (outcome: Result<nat, ApiError>, t: Store)
    ensures OnlyOrderTablesChanged(s, t)
    ensures |s.orders| <= |t.orders| && t.orders[..|s.orders|] == s.orders
    ensures UniqueNumbers(s.orders) ==> UniqueNumbers(t.orders)
    ensures Grows(s.items, t.items) && Grows(s.notifications, t.notifications)
    ensures outcome.Success? ==> outcome.value == |t.orders| - |s.orders|
    ensures outcome.Failure? ==> outcome.error == DatabaseError
    ensures var notes := StockJobNotices(outcome, UsersWithRole(s.users, AdminRole), noteRefused);
            |notes| <= |t.notifications| && t.notifications[|t.notifications| - |notes|..] == notes
    ensures !Truthy(FirstBuyer(s)) ==> outcome == Success(0) && t == s
    ensures Truthy(FirstBuyer(s)) && outcome.Success? ==> outcome.value == |GroupBySupplier(LowStock(s))|
    ensures outcome.Failure? ==>
              var groups := GroupBySupplier(LowStock(s));
              && |t.orders| < |s.orders| + |groups|
              && Refuses(groups[|t.orders| - |s.orders|], refused(|t.orders| - |s.orders|))
    ensures forall i :: |s.orders| <= i < |t.orders| ==>
              OrderOfGroup(t.orders[i], GroupBySupplier(LowStock(s))[i - |s.orders|], FirstBuyer(s).value,
                           orderIds(i - |s.orders|), s, now)
    ensures t.items == s.items + RunRows(s, GroupBySupplier(LowStock(s)), orderIds, |t.orders| - |s.orders|)
    ensures SequencedFrom(t.orders, |s.orders|, year)
    ensures t.notifications == s.notifications + RunNotices(FirstBuyer(s), t.orders[|s.orders|..]) +
                               StockJobNotices(outcome, UsersWithRole(s.users, AdminRole), noteRefused)
  {
    var groups, r := GenerateOrders(s, orderIds, refused, year, now);
    var u := r.store;
    outcome := if r.result.Success? then Success(|r.result.value|) else Failure(r.result.error);
    assert u.users == s.users;
    var notes := StockJobNotices(outcome, UsersWithRole(s.users, AdminRole), noteRefused);
    t := WithNotices(u, notes);
    assert t.orders == u.orders && t.items == u.items;
    if !Truthy(FirstBuyer(s)) {
      assert notes == [] && u == s;
      assert t == s;
    }
    assert t.notifications[|t.notifications| - |notes|..] == notes;
    GrowsTransitive(s.notifications, u.notifications, t.notifications);
  }

  /** The store with `notes` inserted after its notifications. */
  function WithNotices(s: Store, notes: seq<Notification>): Store {
    s.(notifications := s.notifications + notes)
  }

  /**
   The notifications the deadline job writes: when the job's query finds
   overdue orders, one warning per buyer carrying their number; none
   otherwise.
   */
  function DeadlineNotices(s: Store, today: Day, refused: Option<nat>): (r: seq<Notification>)
    ensures |JobOverdue(s, today)| == 0 ==> r == []
    ensures |JobOverdue(s, today)| > 0 ==>
              r == Written(Notices(UsersWithRole(s.users, BuyerRole), OverdueTitle, OverdueMessage(|JobOverdue(s, today)|), Warning), refused)
    ensures forall i :: 0 <= i < |r| ==>
              r[i].severity == Warning && r[i].userId.Some? && r[i].userId.value in UsersWithRole(s.users, BuyerRole)
  {
    var count := |JobOverdue(s, today)|;
    if count == 0 then []
    else Written(Notices(UsersWithRole(s.users, BuyerRole), OverdueTitle, OverdueMessage(count), Warning), refused)
  }

  /**
   `verificarPrazosJob`: the deadline notices are appended and nothing else
   changes; orders in particular are never touched, and a refused insert is
   only logged.
   */
  function DeadlineJob(s: Store, today: Day, refused: Option<nat>): (t: Store)
    ensures t.orders == s.orders && t.items == s.items
    ensures t.suppliers == s.suppliers && t.materials == s.materials && t.products == s.products
    ensures t.bom == s.bom && t.users == s.users
    ensures t.notifications == s.notifications + DeadlineNotices(s, today, refused)
  {
    s.(notifications := s.notifications + DeadlineNotices(s, today, refused))
  }

  /**
   When every order's user exists, the deadline job's warning carries the
   length of the overdue route's list, and fires exactly when that list is
   not empty.
   */
  lemma DeadlineJobMatchesRoute(s: Store, today: Day)
    requires forall i :: 0 <= i < |s.orders| ==> UserExists(s, s.orders[i].userId)
    ensures DeadlineNotices(s, today, None) ==
              if |OverdueList(s, today)| == 0 then []
              else Notices(UsersWithRole(s.users, BuyerRole), OverdueTitle, OverdueMessage(|OverdueList(s, today)|), Warning)
  {
    JobAndRouteAgree(s, today);
  }

  /** The two cron jobs' running flags. */
  datatype Schedule = Schedule(stockRunning: bool, deadlineRunning: bool)

  /** `iniciarAgendamentos`: both jobs run, whatever ran before. */
  function Start(sc: Schedule): (r: Schedule)
    ensures r.stockRunning && r.deadlineRunning
  {
    Schedule(true, true)
  }

  /** `pararAgendamentos`: neither job runs, whatever ran before. */
  function Stop(sc: Schedule): (r: Schedule)
    ensures !r.stockRunning && !r.deadlineRunning
  {
    Schedule(false, false)
  }

  /** Start and stop always leave the two jobs in step, and the last call wins. */
  lemma SwitchKeepsJobsInStep(sc: Schedule)
    ensures Start(sc).stockRunning == Start(sc).deadlineRunning
    ensures Stop(sc).stockRunning == Stop(sc).deadlineRunning
    ensures Start(Stop(sc)) == Start(sc) && Stop(Start(sc)) == Stop(sc)
  {
  }
}
