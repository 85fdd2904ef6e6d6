/**
 The order routes besides creation: `PUT /pedidos/:id/status` and the two
 filtered lists `GET /pedidos/filtro/atrasados` and `GET /pedidos/filtro/pendentes`.
 */
module Orders {
  import opened Wrappers
  import opened Lists
  import opened Model

  /** The text the `status` column stores for each status. */
  function StatusName(st: Status): string {
    match st
    case Pending => "pendente"
    case Approved => "aprovado"
    case Shipped => "enviado"
    case Received => "recebido"
    case Cancelled => "cancelado"
  }

  /** The list of accepted status texts the route checks the body against. */
  const ValidStatusNames: seq<string> := ["pendente", "aprovado", "enviado", "recebido", "cancelado"]

  /** `validStatus.includes(status)`, and the status it names. */
  function ParseStatus(text: string): (r: Option<Status>)
    ensures r.Some? <==> text in ValidStatusNames
    ensures r.Some? ==> StatusName(r.value) == text
  {
    if text == "pendente" then Some(Pending)
    else if text == "aprovado" then Some(Approved)
    else if text == "enviado" then Some(Shipped)
    else if text == "recebido" then Some(Received)
    else if text == "cancelado" then Some(Cancelled)
    else None
  }

  /** Every status survives the trip to its column text and back. */
  lemma StatusRoundTrip(st: Status)
    ensures ParseStatus(StatusName(st)) == Some(st)
    ensures StatusName(st) in ValidStatusNames
  {
  }

  /** `UPDATE pedidos SET status = ? WHERE id = ?`. */
  function SetStatus(orders: seq<Order>, id: Id, st: Status): seq<Order> {
    seq(|orders|, i requires 0 <= i < |orders| => if orders[i].id == id then orders[i].(status := st) else orders[i])
  }

  /**
   `PUT /pedidos/:id/status`: a text outside the five statuses is refused
   before any write; otherwise every order with that id takes the new status,
   whatever its current one, and the joined row is read back, not found when
   the order (or its supplier or user) is missing.
   */
  function UpdateStatus(s: Store, id: Id, status: string): (r: Reply<Order>)
    ensures ParseStatus(status).None? ==> r == Reply(s, Failure(InvalidStatus))
    ensures ParseStatus(status).Some? ==>
              && r.store.suppliers == s.suppliers && r.store.users == s.users && r.store.materials == s.materials
              && r.store.products == s.products && r.store.bom == s.bom && r.store.items == s.items
              && r.store.notifications == s.notifications
              && |r.store.orders| == |s.orders|
              && (forall i :: 0 <= i < |s.orders| && s.orders[i].id == id ==> r.store.orders[i].status == ParseStatus(status).value)
              && (forall i :: 0 <= i < |s.orders| && s.orders[i].id != id ==> r.store.orders[i] == s.orders[i])
              && (forall i :: 0 <= i < |s.orders| ==> r.store.orders[i] == s.orders[i].(status := r.store.orders[i].status))
    ensures r.result.Success? <==>
              ParseStatus(status).Some? && exists i :: 0 <= i < |s.orders| && s.orders[i].id == id && Listed(s, s.orders[i])
    ensures r.result.Success? ==> r.result.value.id == id && r.result.value.status == ParseStatus(status).value
    ensures r.result.Failure? ==> r.result.error in {InvalidStatus, NotFound}
    ensures ParseStatus(status).Some? && r.result.Failure? ==> r.result.error == NotFound
    ensures (forall i :: 0 <= i < |s.orders| ==> s.orders[i].id != id) ==> r.store == s
  {
    match ParseStatus(status)
    case None => Reply(s, Failure(InvalidStatus))
    case Some(st) =>
      var t := s.(orders := SetStatus(s.orders, id, st));
      assert forall i :: 0 <= i < |s.orders| ==> (Listed(t, t.orders[i]) <==> Listed(s, s.orders[i]));
      assert (forall i :: 0 <= i < |s.orders| ==> s.orders[i].id != id) ==> t.orders == s.orders;
      match FindListed(t, t.orders, id)
      case None => Reply(t, Failure(NotFound))
      case Some(o) => Reply(t, Success(o))
  }

  /** Any of the five statuses may follow any other: there is no transition graph. */
  lemma AnyStatusFollowsAny(s: Store, i: nat, st: Status)
    requires i < |s.orders| && Listed(s, s.orders[i])
    ensures var r := UpdateStatus(s, s.orders[i].id, StatusName(st));
            r.result.Success? && r.result.value.status == st && r.store.orders[i].status == st
  {
  }

  /** The statuses that still await delivery. */
  predicate Open(st: Status) {
    st == Pending || st == Approved || st == Shipped
  }

  /** `status IN ('pendente', 'aprovado', 'enviado') AND data_previsao < CURDATE()`; a NULL date never compares. */
  predicate IsOverdue(o: Order, today: Day) {
    Open(o.status) && o.expected.Some? && o.expected.value < today
  }

  /** The sort key of `ORDER BY p.data_previsao ASC`. */
  function ExpectedKey(o: Order): real {
    if o.expected.Some? then o.expected.value as real else 0.0
  }

  /** The rows of the overdue route's `WHERE` clause and joins, in table order. */
  function OverdueRows(s: Store, today: Day): (r: seq<Order>)
    ensures forall i :: 0 <= i < |r| ==> r[i] in s.orders && IsOverdue(r[i], today) && Listed(s, r[i])
    ensures forall i :: 0 <= i < |s.orders| && IsOverdue(s.orders[i], today) && Listed(s, s.orders[i]) ==> s.orders[i] in r
  {
    Filter(s.orders, (o: Order) => IsOverdue(o, today) && Listed(s, o))
  }

  /**
   `GET /pedidos/filtro/atrasados`: exactly the overdue orders that survive
   the joins with supplier and user, earliest expected delivery first.
   */
  function OverdueList(s: Store, today: Day): (r: seq<Order>)
    ensures multiset(r) == multiset(OverdueRows(s, today))
    ensures forall i :: 0 <= i < |r| ==> r[i] in s.orders && IsOverdue(r[i], today) && Listed(s, r[i])
    ensures forall i :: 0 <= i < |s.orders| && IsOverdue(s.orders[i], today) && Listed(s, s.orders[i]) ==> s.orders[i] in r
    ensures forall i, j :: 0 <= i < j < |r| ==> r[i].expected.value <= r[j].expected.value
  {
    var hits := OverdueRows(s, today);
    var r := SortBy(hits, ExpectedKey);
    SameMembers(r, hits);
    AscendingByExpected(r, today);
    r
  }

  lemma AscendingByExpected(r: seq<Order>, today: Day)
    requires SortedBy(r, ExpectedKey)
    requires forall i :: 0 <= i < |r| ==> IsOverdue(r[i], today)
    ensures forall i, j :: 0 <= i < j < |r| ==> r[i].expected.Some? && r[j].expected.Some? && r[i].expected.value <= r[j].expected.value
  {
    forall i, j | 0 <= i < j < |r|
      ensures r[i].expected.Some? && r[j].expected.Some? && r[i].expected.value <= r[j].expected.value
    {
      assert IsOverdue(r[i], today) && IsOverdue(r[j], today);
      assert ExpectedKey(r[i]) <= ExpectedKey(r[j]);
    }
  }

  /** The rows of the pending route's `WHERE` clause and joins, in table order. */
  function PendingRows(s: Store): (r: seq<Order>)
    ensures forall i :: 0 <= i < |r| ==> r[i] in s.orders && r[i].status == Pending && Listed(s, r[i])
    ensures forall i :: 0 <= i < |s.orders| && s.orders[i].status == Pending && Listed(s, s.orders[i]) ==> s.orders[i] in r
  {
    Filter(s.orders, (o: Order) => o.status == Pending && Listed(s, o))
  }

  /** The sort key of `ORDER BY p.created_at DESC`. */
  function NewestFirstKey(o: Order): real {
    -(o.createdAt as real)
  }

  lemma DescendingByCreation(r: seq<Order>)
    requires SortedBy(r, NewestFirstKey)
    ensures forall i, j :: 0 <= i < j < |r| ==> r[i].createdAt >= r[j].createdAt
  {
    forall i, j | 0 <= i < j < |r|
      ensures r[i].createdAt >= r[j].createdAt
    {
      assert NewestFirstKey(r[i]) <= NewestFirstKey(r[j]);
    }
  }

  /** `GET /pedidos/filtro/pendentes`: exactly the listed pending orders, newest first. */
  function PendingList(s: Store): (r: seq<Order>)
    ensures multiset(r) == multiset(PendingRows(s))
    ensures forall i :: 0 <= i < |r| ==> r[i] in s.orders && r[i].status == Pending && Listed(s, r[i])
    ensures forall i :: 0 <= i < |s.orders| && s.orders[i].status == Pending && Listed(s, s.orders[i]) ==> s.orders[i] in r
    ensures forall i, j :: 0 <= i < j < |r| ==> r[i].createdAt >= r[j].createdAt
  {
    var hits := PendingRows(s);
    var r := SortBy(hits, NewestFirstKey);
    SameMembers(r, hits);
    DescendingByCreation(r);
    r
  }

  /**
   The overdue job's query joins the supplier only: the orders it counts are
   the overdue orders whose supplier exists.
   */
  function JobOverdue(s: Store, today: Day): (r: seq<Order>)
    ensures forall i :: 0 <= i < |r| ==> r[i] in s.orders && IsOverdue(r[i], today) && SupplierExists(s, r[i].supplierId)
    ensures forall i :: 0 <= i < |s.orders| && IsOverdue(s.orders[i], today) && SupplierExists(s, s.orders[i].supplierId) ==>
              s.orders[i] in r
  {
    Filter(s.orders, (o: Order) => IsOverdue(o, today) && SupplierExists(s, o.supplierId))
  }

  /**
   The job and the route agree on which orders are overdue whenever every
   order's user exists: the same orders, the same number of them.
   */
  lemma JobAndRouteAgree(s: Store, today: Day)
    requires forall i :: 0 <= i < |s.orders| ==> UserExists(s, s.orders[i].userId)
    ensures multiset(OverdueList(s, today)) == multiset(JobOverdue(s, today))
    ensures |OverdueList(s, today)| == |JobOverdue(s, today)|
  {
    FilterCongruent(s.orders, (o: Order) => IsOverdue(o, today) && Listed(s, o),
                              (o: Order) => IsOverdue(o, today) && SupplierExists(s, o.supplierId));
    assert OverdueRows(s, today) == JobOverdue(s, today);
    assert |OverdueList(s, today)| == |multiset(OverdueList(s, today))|;
  }
}
