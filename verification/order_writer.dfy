/**
 The order writer: one purchase-order header and its item rows written in a
 single transaction, either from the automatic replenishment run
 (`criarPedidoAutomatico`) or from the manual `POST /pedidos` route.
 */
module OrderWriter {
  import opened Wrappers
  import opened Text
  import opened Sequencer
  import opened Model

  /** One requested line: material, quantity and unit price. */
  datatype LineItem = LineItem(materialId: Id, quantity: real, unitPrice: real)

  function LineTotal(l: LineItem): real {
    l.quantity * l.unitPrice
  }

  /** `itens.reduce((total, item) => total + item.quantidade * item.valor_unitario, 0)`. */
  function OrderTotal(items: seq<LineItem>): real {
    if |items| == 0 then 0.0
    else OrderTotal(items[..|items| - 1]) + LineTotal(items[|items| - 1])
  }

  /** The row inserted into `pedido_itens` for one line. */
  function ItemRow(orderId: Id, l: LineItem): OrderItem {
    OrderItem(orderId, l.materialId, l.quantity, l.unitPrice, LineTotal(l))
  }

  function ItemRows(orderId: Id, items: seq<LineItem>): seq<OrderItem> {
    seq(|items|, i requires 0 <= i < |items| => ItemRow(orderId, items[i]))
  }

  /** The sum of the stored line totals. */
  function SumOfLines(rows: seq<OrderItem>): real {
    if |rows| == 0 then 0.0
    else SumOfLines(rows[..|rows| - 1]) + rows[|rows| - 1].lineTotal
  }

  /** The header total equals the sum of the line totals stored in the item rows. */
  lemma {:induction false} HeaderTotalIsSumOfLines(orderId: Id, items: seq<LineItem>)
    ensures SumOfLines(ItemRows(orderId, items)) == OrderTotal(items)
  {
    if |items| > 0 {
      var n := |items|;
      assert ItemRows(orderId, items)[..n - 1] == ItemRows(orderId, items[..n - 1]);
      HeaderTotalIsSumOfLines(orderId, items[..n - 1]);
    }
  }

  /** One write of a transaction. */
  datatype Write = InsertOrder(order: Order) | InsertItem(item: OrderItem) | InsertNotification(note: Notification)

  function Apply(s: Store, w: Write): Store {
    match w
    case InsertOrder(o) => s.(orders := s.orders + [o])
    case InsertItem(i) => s.(items := s.items + [i])
    case InsertNotification(n) => s.(notifications := s.notifications + [n])
  }

  function ApplyAll(s: Store, ws: seq<Write>): Store
    decreases |ws|
  {
    if |ws| == 0 then s else ApplyAll(Apply(s, ws[0]), ws[1..])
  }

  lemma {:induction false} ApplyAllAppend(s: Store, a: seq<Write>, b: seq<Write>)
    ensures ApplyAll(s, a + b) == ApplyAll(ApplyAll(s, a), b)
    decreases |a|
  {
    if |a| == 0 {
      assert a + b == b;
    } else {
      assert (a + b)[1..] == a[1..] + b;
      ApplyAllAppend(Apply(s, a[0]), a[1..], b);
    }
  }

  function ItemWrites(rows: seq<OrderItem>): (ws: seq<Write>)
    ensures |ws| == |rows|
  {
    seq(|rows|, i requires 0 <= i < |rows| => InsertItem(rows[i]))
  }

  function NoteWrites(notes: seq<Notification>): (ws: seq<Write>)
    ensures |ws| == |notes|
  {
    seq(|notes|, i requires 0 <= i < |notes| => InsertNotification(notes[i]))
  }

  lemma {:induction false} ApplyItemWrites(s: Store, rows: seq<OrderItem>)
    ensures ApplyAll(s, ItemWrites(rows)) == s.(items := s.items + rows)
    decreases |rows|
  {
    if |rows| == 0 {
      assert s.items + rows == s.items;
    } else {
      assert ItemWrites(rows)[1..] == ItemWrites(rows[1..]);
      ApplyItemWrites(Apply(s, InsertItem(rows[0])), rows[1..]);
      assert s.items + [rows[0]] + rows[1..] == s.items + rows;
    }
  }

  lemma {:induction false} ApplyNoteWrites(s: Store, notes: seq<Notification>)
    ensures ApplyAll(s, NoteWrites(notes)) == s.(notifications := s.notifications + notes)
    decreases |notes|
  {
    if |notes| == 0 {
      assert s.notifications + notes == s.notifications;
    } else {
      assert NoteWrites(notes)[1..] == NoteWrites(notes[1..]);
      ApplyNoteWrites(Apply(s, InsertNotification(notes[0])), notes[1..]);
      assert s.notifications + [notes[0]] + notes[1..] == s.notifications + notes;
    }
  }

  /** The writes of order creation: header, then one row per line, then the notifications. */
  function OrderWrites(header: Order, rows: seq<OrderItem>, notes: seq<Notification>): seq<Write> {
    [InsertOrder(header)] + ItemWrites(rows) + NoteWrites(notes)
  }

  /** Committing the order writes adds exactly the header, the rows and the notifications. */
  lemma OrderWritesEffect(s: Store, header: Order, rows: seq<OrderItem>, notes: seq<Notification>)
    ensures ApplyAll(s, OrderWrites(header, rows, notes))
         == s.(orders := s.orders + [header], items := s.items + rows, notifications := s.notifications + notes)
  {
    var s1 := Apply(s, InsertOrder(header));
    assert ApplyAll(s, [InsertOrder(header)]) == s1;
    ApplyAllAppend(s, [InsertOrder(header)] + ItemWrites(rows), NoteWrites(notes));
    ApplyAllAppend(s, [InsertOrder(header)], ItemWrites(rows));
    ApplyItemWrites(s1, rows);
    ApplyNoteWrites(s1.(items := s1.items + rows), notes);
  }

  /**
   The writes from ordinal `k` on, applied to the working copy `work`; when the
   database refuses write number `refused`, the catch block's ROLLBACK
   discards the working copy and the store is `before` again.
   */
  function RunFrom(before: Store, work: Store, ws: seq<Write>, k: nat, refused: Option<nat>): (r: Reply<()>)
    ensures r.result.Failure? <==> refused.Some? && k <= refused.value < k + |ws|
    ensures r.result.Failure? ==> r.store == before && r.result.error == DatabaseError
    ensures r.result.Success? ==> r.store == ApplyAll(work, ws)
    decreases |ws|
  {
    if |ws| == 0 then Reply(work, Success(()))
    else if refused == Some(k) then Reply(before, Failure(DatabaseError))
    else RunFrom(before, Apply(work, ws[0]), ws[1..], k + 1, refused)
  }

  /** BEGIN, the writes, COMMIT: all of them take effect, or none does. */
  function RunTransaction(s: Store, ws: seq<Write>, refused: Option<nat>): (r: Reply<()>)
    ensures r.result.Failure? <==> refused.Some? && refused.value < |ws|
    ensures r.result.Failure? ==> r.store == s && r.result.error == DatabaseError
    ensures r.result.Success? ==> r.store == ApplyAll(s, ws)
  {
    RunFrom(s, s, ws, 0, refused)
  }

  /** What the automatic path returns: `{ pedido_id, numero_pedido }`. */
  datatype Created = Created(orderId: Id, number: string)

  const AutoOrderTitle: string := "Novo Pedido Automático"

  function AutoOrderMessage(number: string): string {
    "Pedido " + number + " criado automaticamente devido a baixo estoque."
  }

  /**
   `DATE_ADD(NOW(), INTERVAL (SELECT prazo_entrega ...) DAY)`: NULL when the
   supplier or its lead time is missing.
   */
  function ExpectedDelivery(s: Store, supplierId: Id, now: Day): Option<Day> {
    match FindSupplier(s.suppliers, supplierId)
    case None => None
    case Some(f) =>
      match f.leadDays
      case None => None
      case Some(d) => Some(now + d)
  }

  /** The tables order creation does not touch are as before. */
  predicate OnlyOrderTablesChanged(s: Store, t: Store) {
    && t.suppliers == s.suppliers && t.materials == s.materials && t.products == s.products
    && t.bom == s.bom && t.users == s.users
  }

  /**
   `criarPedidoAutomatico`: in one transaction, issue the next number of
   `year`, insert the header (status pendente, type automatico, total the sum
   of the lines, delivery expected after the supplier's lead time), one item
   row per line, and a warning to the first buyer. `refused` is the ordinal of
   the write the database refuses, if any; then nothing is written.
   */
  function AutomaticOrder(
    s: Store, supplierId: Id, userId: Id, items: seq<LineItem>,
    orderId: Id, year: nat, now: Day, refused: Option<nat>): (r: Reply<Created>)
    ensures r.result.Failure? <==> refused.Some? && refused.value < |items| + 2
    ensures r.result.Failure? ==> r.store == s && r.result.error == DatabaseError
    ensures r.result.Success? ==>
              && |r.store.orders| == |s.orders| + 1
              && r.store.orders[..|s.orders|] == s.orders
              && var o := r.store.orders[|s.orders|];
              && r.result.value == Created(orderId, o.number)
              && o.id == orderId && o.supplierId == supplierId && o.userId == userId
              && o.number == NextNumber(Numbers(s.orders), year)
              && o.number !in Numbers(s.orders)
              && o.kind == Automatic && o.status == Pending
              && o.createdAt == now && o.expected == ExpectedDelivery(s, supplierId, now)
              && o.total == OrderTotal(items)
              && r.store.items == s.items + ItemRows(orderId, items)
              && o.total == SumOfLines(r.store.items[|s.items|..])
              && r.store.notifications == s.notifications
                   + [Notification(FirstBuyer(s), AutoOrderTitle, AutoOrderMessage(o.number), Warning)]
              && OnlyOrderTablesChanged(s, r.store)
    ensures UniqueNumbers(s.orders) ==> UniqueNumbers(r.store.orders)
  {
    var number := NextNumber(Numbers(s.orders), year);
    var header := Order(orderId, number, supplierId, userId, Automatic, OrderTotal(items),
                        Pending, now, ExpectedDelivery(s, supplierId, now), None);
    var rows := ItemRows(orderId, items);
    var note := Notification(FirstBuyer(s), AutoOrderTitle, AutoOrderMessage(number), Warning);
    var tx := RunTransaction(s, OrderWrites(header, rows, [note]), refused);
    OrderWritesEffect(s, header, rows, [note]);
    HeaderTotalIsSumOfLines(orderId, items);
    AppendFreshKeepsUnique(s.orders, header);
    assert (s.items + rows)[|s.items|..] == rows;
    Reply(tx.store, if tx.result.Success? then Success(Created(orderId, number)) else Failure(tx.result.error))
  }

  /**
   The writer numbers with the corrected sequencer. While every number of the
   year is a well-formed number with a sequence up to 9999, that is the number
   the program's own rule (the lexicographically last number, plus one) issues.
   */
  lemma AutomaticOrderNumber(
    s: Store, supplierId: Id, userId: Id, items: seq<LineItem>,
    orderId: Id, year: nat, now: Day, refused: Option<nat>)
    requires FourDigitYear(Numbers(s.orders), year)
    ensures var r := AutomaticOrder(s, supplierId, userId, items, orderId, year, now, refused);
            r.result.Success? ==> r.result.value.number == NextNumberAsWritten(Numbers(s.orders), year)
  {
    AsWrittenAgreesBelow10000(Numbers(s.orders), year);
  }

  /**
   Past sequence 9999 the writer and the program part: with PED-y-9999 and
   PED-y-10000 stored, the program's rule issues a number already stored,
   while the writer's number is new.
   */
  lemma WriterDivergesAfter9999(
    s: Store, supplierId: Id, userId: Id, items: seq<LineItem>, orderId: Id, year: nat, now: Day)
    requires Numbers(s.orders) == [OrderNumber(year, Int(9999)), OrderNumber(year, Int(10000))]
    ensures NextNumberAsWritten(Numbers(s.orders), year) in Numbers(s.orders)
    ensures var r := AutomaticOrder(s, supplierId, userId, items, orderId, year, now, None);
            r.result.Success? && r.result.value.number !in Numbers(s.orders)
  {
    AsWrittenRepeatsAfter9999(year);
  }

  /** Appending an order with a new number keeps the numbers unique. */
  lemma AppendFreshKeepsUnique(orders: seq<Order>, o: Order)
    requires o.number !in Numbers(orders)
    ensures UniqueNumbers(orders) ==> UniqueNumbers(orders + [o])
  {
    if UniqueNumbers(orders) {
      var all := orders + [o];
      forall i, j | 0 <= i < j < |all|
        ensures all[i].number != all[j].number
      {
        if j == |orders| {
          assert Numbers(orders)[i] == all[i].number;
        }
      }
    }
  }

  /** The body of `POST /pedidos`. */
  datatype OrderRequest = OrderRequest(supplierId: Id, expected: Option<Day>, notes: Option<string>, items: seq<LineItem>)

  /**
   `POST /pedidos`: the same sequencer as the automatic path, a header with
   status pendente and the requested delivery date and notes, one item row
   per requested line, all in one transaction. An empty line list is accepted
   and yields a header with total 0 and no rows. After COMMIT the order is
   read back through the INNER JOINs with its supplier and its user; the
   answer is that row, absent when the join drops it.
   */
  function ManualOrder(s: Store, req: OrderRequest, userId: Id, orderId: Id, year: nat, now: Day,
                       refused: Option<nat>): (r: Reply<Option<Order>>)
    ensures r.result.Failure? <==> refused.Some? && refused.value < |req.items| + 1
    ensures r.result.Failure? ==> r.store == s && r.result.error == DatabaseError
    ensures r.result.Success? ==>
              && |r.store.orders| == |s.orders| + 1
              && r.store.orders[..|s.orders|] == s.orders
              && var o := r.store.orders[|s.orders|];
              && o.id == orderId && o.supplierId == req.supplierId && o.userId == userId
              && o.number == NextNumber(Numbers(s.orders), year)
              && o.number !in Numbers(s.orders)
              && o.status == Pending && o.kind == ColumnDefault
              && o.createdAt == now && o.expected == req.expected && o.notes == req.notes
              && o.total == OrderTotal(req.items)
              && r.store.items == s.items + ItemRows(orderId, req.items)
              && o.total == SumOfLines(r.store.items[|s.items|..])
              && r.store.notifications == s.notifications
              && OnlyOrderTablesChanged(s, r.store)
    ensures r.result.Success? && r.result.value.Some? ==>
              var a := r.result.value.value;
              a in r.store.orders && a.id == orderId && Listed(r.store, a)
    ensures r.result.Success? && (forall i :: 0 <= i < |s.orders| ==> s.orders[i].id != orderId) ==>
              && (r.result.value.Some? <==> SupplierExists(s, req.supplierId) && UserExists(s, userId))
              && (r.result.value.Some? ==> r.result.value.value == r.store.orders[|s.orders|])
    ensures UniqueNumbers(s.orders) ==> UniqueNumbers(r.store.orders)
  {
    var number := NextNumber(Numbers(s.orders), year);
    var header := Order(orderId, number, req.supplierId, userId, ColumnDefault, OrderTotal(req.items),
                        Pending, now, req.expected, req.notes);
    var rows := ItemRows(orderId, req.items);
    var tx := RunTransaction(s, OrderWrites(header, rows, []), refused);
    OrderWritesEffect(s, header, rows, []);
    HeaderTotalIsSumOfLines(orderId, req.items);
    AppendFreshKeepsUnique(s.orders, header);
    assert s.notifications + [] == s.notifications;
    assert (s.items + rows)[|s.items|..] == rows;
    if tx.result.Failure? then Reply(tx.store, Failure(tx.result.error))
    else
      ReadBackFindsHeader(s, tx.store, header);
      Reply(tx.store, Success(FindListed(tx.store, tx.store.orders, orderId)))
  }

  /**
   With a fresh id, the joined read-back after an insert finds the inserted
   header exactly when its supplier and its user exist.
   */
  lemma ReadBackFindsHeader(s: Store, t: Store, header: Order)
    requires t.orders == s.orders + [header] && t.suppliers == s.suppliers && t.users == s.users
    ensures (forall i :: 0 <= i < |s.orders| ==> s.orders[i].id != header.id) ==>
              && (FindListed(t, t.orders, header.id).Some? <==> SupplierExists(s, header.supplierId) && UserExists(s, header.userId))
              && (FindListed(t, t.orders, header.id).Some? ==> FindListed(t, t.orders, header.id).value == header)
  {
    if forall i :: 0 <= i < |s.orders| ==> s.orders[i].id != header.id {
      FindListedAppended(t, s.orders, header);
    }
  }

  /** An empty line list is not rejected: the order has total 0 and no item rows. */
  lemma ManualOrderWithoutItems(s: Store, req: OrderRequest, userId: Id, orderId: Id, year: nat, now: Day)
    requires req.items == []
    ensures var r := ManualOrder(s, req, userId, orderId, year, now, None);
            && r.result.Success? && |r.store.orders| == |s.orders| + 1
            && r.store.orders[|s.orders|].total == 0.0 && r.store.items == s.items
  {
    assert s.items + ItemRows(orderId, []) == s.items;
  }

  /** Both paths number an order identically from the same store and year. */
  lemma BothPathsShareTheSequencer(
    s: Store, supplierId: Id, userId: Id, items: seq<LineItem>, req: OrderRequest,
    autoId: Id, manualId: Id, year: nat, now: Day)
    ensures var a := AutomaticOrder(s, supplierId, userId, items, autoId, year, now, None);
            var m := ManualOrder(s, req, userId, manualId, year, now, None);
            a.result.Success? && m.result.Success? && a.result.value.number == m.store.orders[|s.orders|].number
  {
  }
}
