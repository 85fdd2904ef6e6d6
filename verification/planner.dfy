/**
 The replenishment engine: the low-stock snapshot (`verificarEstoqueBaixo`),
 the quantity planner (`calcularQuantidadePedido`), the grouping of shortages
 by supplier and the run that creates one order per supplier group
 (`verificarEGerarPedidosAutomaticos`).
 */
module Planner {
  import opened Wrappers
  import opened Sequencer
  import opened Model
  import opened OrderWriter
  import Lists

  /**
   A row of the low-stock query. The query selects `f.id AS fornecedor_id`
   from a LEFT JOIN, so a material whose supplier reference matches no
   supplier reads as having no supplier.
   */
  datatype Shortage = Shortage(material: Material, supplierId: Option<Id>, leadDays: Option<int>)

  predicate IsLow(m: Material) {
    m.stock <= m.minStock
  }

  function Joined(suppliers: seq<Supplier>, m: Material): (r: Shortage)
    ensures r.material == m
    ensures r.supplierId.Some? <==> m.supplierId.Some? && FindSupplier(suppliers, m.supplierId.value).Some?
    ensures r.supplierId.Some? ==> r.supplierId == m.supplierId
  {
    match m.supplierId
    case None => Shortage(m, None, None)
    case Some(id) =>
      match FindSupplier(suppliers, id)
      case None => Shortage(m, None, None)
      case Some(f) => Shortage(m, Some(f.id), f.leadDays)
  }

  function LowStockOf(materials: seq<Material>, suppliers: seq<Supplier>): (r: seq<Shortage>)
    ensures |r| <= |materials|
    ensures forall k :: 0 <= k < |r| ==> r[k].material in materials && IsLow(r[k].material)
    ensures forall i :: 0 <= i < |materials| && IsLow(materials[i]) ==>
              exists k :: 0 <= k < |r| && r[k].material == materials[i]
    ensures forall k :: 0 <= k < |r| ==> r[k] == Joined(suppliers, r[k].material)
  {
    if |materials| == 0 then []
    else
      var rest := LowStockOf(materials[1..], suppliers);
      LowStockStep(materials, suppliers, rest);
      if IsLow(materials[0]) then [Joined(suppliers, materials[0])] + rest else rest
  }

  /** Each material joined with its supplier, in order. */
  function JoinAll(suppliers: seq<Supplier>, materials: seq<Material>): seq<Shortage> {
    if |materials| == 0 then []
    else [Joined(suppliers, materials[0])] + JoinAll(suppliers, materials[1..])
  }

  /**
   The snapshot is the materials table filtered by `estoque_atual <= estoque_minimo`,
   in table order, each row joined with its supplier.
   */
  lemma {:induction false} LowStockIsFilter(materials: seq<Material>, suppliers: seq<Supplier>)
    ensures LowStockOf(materials, suppliers) == JoinAll(suppliers, Lists.Filter(materials, IsLow))
  {
    if |materials| > 0 {
      var lowRest := Lists.Filter(materials[1..], IsLow);
      LowStockIsFilter(materials[1..], suppliers);
      var low := Lists.Filter(materials, IsLow);
      if IsLow(materials[0]) {
        assert low == [materials[0]] + lowRest;
        assert low[0] == materials[0] && low[1..] == lowRest;
      } else {
        assert low == lowRest;
      }
    }
  }

  /** The shortages of the tail, with the head's shortage in front when the head is low. */
  lemma LowStockStep(materials: seq<Material>, suppliers: seq<Supplier>, rest: seq<Shortage>)
    requires |materials| > 0 && |rest| <= |materials| - 1
    requires forall k :: 0 <= k < |rest| ==> rest[k].material in materials[1..] && IsLow(rest[k].material)
    requires CoversLow(materials[1..], rest)
    requires forall k :: 0 <= k < |rest| ==> rest[k] == Joined(suppliers, rest[k].material)
    ensures var r := if IsLow(materials[0]) then [Joined(suppliers, materials[0])] + rest else rest;
            && |r| <= |materials|
            && (forall k :: 0 <= k < |r| ==> r[k].material in materials && IsLow(r[k].material))
            && CoversLow(materials, r)
            && (forall k :: 0 <= k < |r| ==> r[k] == Joined(suppliers, r[k].material))
  {
    if IsLow(materials[0]) {
      CoveredAfterCons(materials, rest, Joined(suppliers, materials[0]));
    } else {
      CoveredByTail(materials, rest);
    }
  }

  /** The materials at or below their minimum all appear in `r`. */
  predicate CoversLow(materials: seq<Material>, r: seq<Shortage>) {
    forall i :: 0 <= i < |materials| && IsLow(materials[i]) ==>
      exists k :: 0 <= k < |r| && r[k].material == materials[i]
  }

  lemma CoveredAfterCons(materials: seq<Material>, rest: seq<Shortage>, head: Shortage)
    requires |materials| > 0 && head.material == materials[0]
    requires CoversLow(materials[1..], rest)
    ensures CoversLow(materials, [head] + rest)
  {
    var r := [head] + rest;
    forall i | 0 <= i < |materials| && IsLow(materials[i])
      ensures exists k :: 0 <= k < |r| && r[k].material == materials[i]
    {
      if i == 0 {
        assert r[0].material == materials[0];
      } else {
        assert materials[1..][i - 1] == materials[i];
        var k :| 0 <= k < |rest| && rest[k].material == materials[1..][i - 1];
        assert r[k + 1].material == materials[i];
      }
    }
  }

  lemma CoveredByTail(materials: seq<Material>, rest: seq<Shortage>)
    requires |materials| > 0 && !IsLow(materials[0])
    requires CoversLow(materials[1..], rest)
    ensures CoversLow(materials, rest)
  {
    forall i | 0 <= i < |materials| && IsLow(materials[i])
      ensures exists k :: 0 <= k < |rest| && rest[k].material == materials[i]
    {
      assert materials[1..][i - 1] == materials[i];
    }
  }

  /**
   `verificarEstoqueBaixo`: exactly the materials with stock at or below the
   minimum (non-strict), those without a supplier included.
   */
  function LowStock(s: Store): (r: seq<Shortage>)
    ensures forall k :: 0 <= k < |r| ==> r[k].material in s.materials && r[k].material.stock <= r[k].material.minStock
    ensures forall i :: 0 <= i < |s.materials| && s.materials[i].stock <= s.materials[i].minStock ==>
              exists k :: 0 <= k < |r| && r[k].material == s.materials[i]
  {
    LowStockOf(s.materials, s.suppliers)
  }

  /** `Math.ceil`. */
  function Ceil(x: real): (r: int)
    ensures x <= r as real < x + 1.0
  {
    if x.Floor as real == x then x.Floor else x.Floor + 1
  }

  function Max(a: real, b: real): real {
    if a >= b then a else b
  }

  /** The 10% safety margin on the quantity production needs (1.1, taken exactly). */
  const SafetyMargin: real := 11.0 / 10.0

  /**
   `Math.ceil(Math.max(estoque_maximo - estoque_atual, quantidade_necessaria * 1.1))`:
   the least whole quantity that refills the stock to its maximum and also
   covers the needed quantity plus its margin.
   */
  function PlanQuantity(stock: real, maxStock: real, needed: real): (q: int)
    ensures q as real >= maxStock - stock
    ensures q as real >= needed * SafetyMargin
    ensures (q - 1) as real < maxStock - stock || (q - 1) as real < needed * SafetyMargin
  {
    Ceil(Max(maxStock - stock, needed * SafetyMargin))
  }

  /** The worked cases of the planner, in exact arithmetic. */
  lemma PlannerExamples()
    ensures PlanQuantity(5.0, 50.0, 0.0) == 45
    ensures PlanQuantity(5.0, 50.0, 100.0) == 110
    ensures PlanQuantity(60.0, 50.0, 0.0) == 0
  {
  }

  /** `COALESCE(SUM(pm.quantidade), 0)` over the bill-of-materials rows of a material. */
  function NeededFor(bom: seq<BomRow>, materialId: Id): (r: real)
    ensures (forall i :: 0 <= i < |bom| ==> bom[i].materialId != materialId) ==> r == 0.0
  {
    if |bom| == 0 then 0.0
    else (if bom[0].materialId == materialId then bom[0].quantity else 0.0) + NeededFor(bom[1..], materialId)
  }

  /** A new bill-of-materials row adds its quantity to its own material's need and to no other. */
  lemma {:induction false} NeededForAppend(bom: seq<BomRow>, row: BomRow, materialId: Id)
    ensures NeededFor(bom + [row], materialId)
         == NeededFor(bom, materialId) + (if row.materialId == materialId then row.quantity else 0.0)
  {
    if |bom| == 0 {
      assert bom + [row] == [row];
    } else {
      assert (bom + [row])[1..] == bom[1..] + [row];
      NeededForAppend(bom[1..], row, materialId);
    }
  }

  /**
   `calcularQuantidadePedido`: the planned quantity of a material, computed
   from its current row and its bill-of-materials need; an unknown material
   yields 0.
   */
  function QuantityFor(s: Store, materialId: Id): (q: int)
    ensures FindMaterial(s.materials, materialId).None? ==> q == 0
    ensures FindMaterial(s.materials, materialId).Some? ==>
              var m := FindMaterial(s.materials, materialId).value;
              && q as real >= m.maxStock - m.stock
              && q as real >= NeededFor(s.bom, materialId) * SafetyMargin
              && ((q - 1) as real < m.maxStock - m.stock || (q - 1) as real < NeededFor(s.bom, materialId) * SafetyMargin)
  {
    match FindMaterial(s.materials, materialId)
    case None => 0
    case Some(m) => PlanQuantity(m.stock, m.maxStock, NeededFor(s.bom, materialId))
  }


  /** A JavaScript truthiness test on a nullable text: NULL and "" are falsy. */
  predicate Truthy(o: Option<string>) {
    o.Some? && o.value != ""
  }

  /** The grouping key of a shortage: its supplier, unless that is falsy. */
  function KeyOf(sh: Shortage): Option<Id> {
    if Truthy(sh.supplierId) then sh.supplierId else None
  }

  /** The shortages of one supplier. */
  datatype Group = Group(supplierId: Id, materials: seq<Material>)

  /** The materials of the shortages keyed by `id`, in input order. */
  function MaterialsOf(shortages: seq<Shortage>, id: Id): seq<Material> {
    if |shortages| == 0 then []
    else
      var last := shortages[|shortages| - 1];
      MaterialsOf(shortages[..|shortages| - 1], id) + (if KeyOf(last) == Some(id) then [last.material] else [])
  }

  /**
   `groups` is a grouping of `shortages` by supplier: one group per key,
   holding that key's materials in input order, and a group for every
   shortage that has a key.
   */
  predicate GroupedBySupplier(shortages: seq<Shortage>, groups: seq<Group>) {
    && (forall i, j :: 0 <= i < j < |groups| ==> groups[i].supplierId != groups[j].supplierId)
    && (forall i :: 0 <= i < |groups| ==>
          groups[i].materials == MaterialsOf(shortages, groups[i].supplierId) && groups[i].materials != [])
    && (forall k :: 0 <= k < |shortages| && KeyOf(shortages[k]).Some? ==>
          exists i :: 0 <= i < |groups| && groups[i].supplierId == KeyOf(shortages[k]).value)
  }

  function IndexOfGroup(groups: seq<Group>, id: Id): (r: Option<nat>)
    ensures r.Some? ==> r.value < |groups| && groups[r.value].supplierId == id
    ensures r.None? ==> forall i :: 0 <= i < |groups| ==> groups[i].supplierId != id
  {
    if |groups| == 0 then None
    else if groups[|groups| - 1].supplierId == id then Some(|groups| - 1)
    else IndexOfGroup(groups[..|groups| - 1], id)
  }

  /** The `reduce` callback: skip a shortage without key, else append it to its key's group. */
  function AddToGroups(groups: seq<Group>, sh: Shortage): seq<Group> {
    match KeyOf(sh)
    case None => groups
    case Some(id) =>
      match IndexOfGroup(groups, id)
      case None => groups + [Group(id, [sh.material])]
      case Some(i) => groups[i := Group(id, groups[i].materials + [sh.material])]
  }

  /**
   `materiaisBaixoEstoque.reduce(...)` read back with `Object.entries`: the
   groups in the order their keys first appear.
   */
  function GroupBySupplier(shortages: seq<Shortage>): (groups: seq<Group>)
    ensures GroupedBySupplier(shortages, groups)
  {
    if |shortages| == 0 then []
    else
      var init := shortages[..|shortages| - 1];
      var groups := GroupBySupplier(init);
      AddToGroupsKeepsGrouping(init, groups, shortages[|shortages| - 1]);
      assert init + [shortages[|shortages| - 1]] == shortages;
      AddToGroups(groups, shortages[|shortages| - 1])
  }

  lemma AddToGroupsKeepsGrouping(shortages: seq<Shortage>, groups: seq<Group>, sh: Shortage)
    requires GroupedBySupplier(shortages, groups)
    ensures GroupedBySupplier(shortages + [sh], AddToGroups(groups, sh))
  {
    var all := shortages + [sh];
    assert all[..|all| - 1] == shortages;
    var r := AddToGroups(groups, sh);
    assert forall k :: 0 <= k < |shortages| ==> all[k] == shortages[k];
    match KeyOf(sh)
    case None =>
      forall i | 0 <= i < |groups|
        ensures groups[i].materials == MaterialsOf(all, groups[i].supplierId)
      {
      }
    case Some(id) =>
      match IndexOfGroup(groups, id)
      case None =>
        assert MaterialsOf(shortages, id) == [] by {
          if MaterialsOf(shortages, id) != [] {
            MaterialsOfNonEmpty(shortages, id);
          }
        }
        assert r == groups + [Group(id, [sh.material])];
        forall i | 0 <= i < |r|
          ensures r[i].materials == MaterialsOf(all, r[i].supplierId)
        {
          if i < |groups| {
            assert r[i] == groups[i];
          }
        }
        forall k | 0 <= k < |all| && KeyOf(all[k]).Some?
          ensures exists i :: 0 <= i < |r| && r[i].supplierId == KeyOf(all[k]).value
        {
          if k < |shortages| {
            var i :| 0 <= i < |groups| && groups[i].supplierId == KeyOf(shortages[k]).value;
            assert r[i] == groups[i];
          } else {
            assert r[|groups|].supplierId == id;
          }
        }
      case Some(j) =>
        forall i | 0 <= i < |r|
          ensures r[i].materials == MaterialsOf(all, r[i].supplierId) && r[i].materials != []
        {
        }
        forall k | 0 <= k < |all| && KeyOf(all[k]).Some?
          ensures exists i :: 0 <= i < |r| && r[i].supplierId == KeyOf(all[k]).value
        {
          if k < |shortages| {
            var i :| 0 <= i < |groups| && groups[i].supplierId == KeyOf(shortages[k]).value;
            assert r[i].supplierId == groups[i].supplierId;
          } else {
            assert r[j].supplierId == id;
          }
        }
  }

  /** A key with materials is the key of some shortage. */
  lemma {:induction false} MaterialsOfNonEmpty(shortages: seq<Shortage>, id: Id)
    requires MaterialsOf(shortages, id) != []
    ensures exists k :: 0 <= k < |shortages| && KeyOf(shortages[k]) == Some(id)
  {
    var n := |shortages|;
    if KeyOf(shortages[n - 1]) != Some(id) {
      MaterialsOfNonEmpty(shortages[..n - 1], id);
      var k :| 0 <= k < n - 1 && KeyOf(shortages[..n - 1][k]) == Some(id);
      assert shortages[k] == shortages[..n - 1][k];
    }
  }

  /** The position of the first shortage keyed by `id`, or `|shortages|` when none is. */
  function FirstKeyed(shortages: seq<Shortage>, id: Id): (r: nat)
    ensures r <= |shortages|
    ensures r < |shortages| ==> KeyOf(shortages[r]) == Some(id)
    ensures forall k :: 0 <= k < r ==> KeyOf(shortages[k]) != Some(id)
  {
    if |shortages| == 0 then 0
    else
      var init := shortages[..|shortages| - 1];
      var f := FirstKeyed(init, id);
      if f < |init| then f
      else if KeyOf(shortages[|shortages| - 1]) == Some(id) then |init|
      else |shortages|
  }

  /**
   The groups come in the order their keys first appear among the shortages,
   the insertion order `Object.entries` reads back for non-numeric keys.
   */
  predicate InFirstAppearanceOrder(shortages: seq<Shortage>, groups: seq<Group>) {
    forall i, j :: 0 <= i < j < |groups| ==>
      FirstKeyed(shortages, groups[i].supplierId) < FirstKeyed(shortages, groups[j].supplierId)
  }

  /** A new key opens the last group, behind every key already seen. */
  lemma AddToGroupsKeepsOrder(shortages: seq<Shortage>, groups: seq<Group>, sh: Shortage)
    requires GroupedBySupplier(shortages, groups) && InFirstAppearanceOrder(shortages, groups)
    ensures InFirstAppearanceOrder(shortages + [sh], AddToGroups(groups, sh))
  {
    var all := shortages + [sh];
    assert all[..|all| - 1] == shortages;
    forall i | 0 <= i < |groups|
      ensures FirstKeyed(all, groups[i].supplierId) == FirstKeyed(shortages, groups[i].supplierId) < |shortages|
    {
      MaterialsOfNonEmpty(shortages, groups[i].supplierId);
    }
    var r := AddToGroups(groups, sh);
    match KeyOf(sh)
    case None =>
      assert r == groups;
    case Some(id) =>
      match IndexOfGroup(groups, id)
      case None =>
        if FirstKeyed(shortages, id) < |shortages| {
          assert false;
        }
        assert FirstKeyed(all, id) == |shortages|;
        assert r == groups + [Group(id, [sh.material])];
        forall i, j | 0 <= i < j < |r|
          ensures FirstKeyed(all, r[i].supplierId) < FirstKeyed(all, r[j].supplierId)
        {
          assert r[i] == groups[i];
          if j < |groups| {
            assert r[j] == groups[j];
          }
        }
      case Some(g) =>
        assert |r| == |groups|;
        forall i, j | 0 <= i < j < |r|
          ensures FirstKeyed(all, r[i].supplierId) < FirstKeyed(all, r[j].supplierId)
        {
          assert r[i].supplierId == groups[i].supplierId && r[j].supplierId == groups[j].supplierId;
        }
  }

  /** `GroupBySupplier` keeps the groups in the order their keys first appear. */
  lemma {:induction false} GroupBySupplierOrder(shortages: seq<Shortage>)
    ensures InFirstAppearanceOrder(shortages, GroupBySupplier(shortages))
  {
    if |shortages| > 0 {
      var init, last := shortages[..|shortages| - 1], shortages[|shortages| - 1];
      assert init + [last] == shortages;
      GroupBySupplierOrder(init);
      AddToGroupsKeepsOrder(init, GroupBySupplier(init), last);
      assert GroupBySupplier(shortages) == AddToGroups(GroupBySupplier(init), last);
    }
  }

  /** No group has the falsy key "", so a material without supplier is in no group. */
  lemma NoGroupWithoutSupplier(shortages: seq<Shortage>)
    ensures forall i :: 0 <= i < |GroupBySupplier(shortages)| ==> GroupBySupplier(shortages)[i].supplierId != ""
  {
    var groups := GroupBySupplier(shortages);
    forall i | 0 <= i < |groups|
      ensures groups[i].supplierId != ""
    {
      MaterialsOfNonEmpty(shortages, groups[i].supplierId);
    }
  }

  /** The lines of a group's order: each material at its planned quantity and its cost. */
  function GroupItems(s: Store, g: Group): (items: seq<LineItem>)
    ensures |items| == |g.materials|
    ensures forall i :: 0 <= i < |items| ==>
              && items[i].materialId == g.materials[i].id
              && items[i].quantity == QuantityFor(s, g.materials[i].id) as real
              && items[i].unitPrice == g.materials[i].cost
  {
    seq(|g.materials|, i requires 0 <= i < |g.materials| =>
      LineItem(g.materials[i].id, QuantityFor(s, g.materials[i].id) as real, g.materials[i].cost))
  }

  /** Whether the database refuses one of the writes of a group's order. */
  predicate Refuses(g: Group, refused: Option<nat>) {
    refused.Some? && refused.value < |g.materials| + 2
  }

  /** The order the run commits for group `g`, at position `i` of the run. */
  predicate OrderOfGroup(o: Order, g: Group, buyer: Id, orderId: Id, s: Store, now: Day) {
    && o.id == orderId
    && o.supplierId == g.supplierId
    && o.userId == buyer
    && o.kind == Automatic && o.status == Pending
    && o.total == OrderTotal(GroupItems(s, g))
    && o.createdAt == now && o.expected == ExpectedDelivery(s, g.supplierId, now)
  }

  /**
   One pass of the loop body: the group's lines at their planned quantities,
   then `criarPedidoAutomatico` for the group's supplier and the buyer.
   */
  method PlaceGroupOrder(s: Store, g: Group, buyer: Id, orderId: Id, refused: Option<nat>, year: nat, now: Day)
    returns (r: Reply<Created>)
    ensures r.result.Failure? <==> Refuses(g, refused)
    ensures r.result.Failure? ==> r.store == s && r.result.error == DatabaseError
    ensures r.result.Success? ==>
              && |r.store.orders| == |s.orders| + 1
              && r.store.orders[..|s.orders|] == s.orders
              && OrderOfGroup(r.store.orders[|s.orders|], g, buyer, orderId, s, now)
              && r.result.value == Created(orderId, r.store.orders[|s.orders|].number)
    ensures r.result.Success? ==>
              && r.store.orders[|s.orders|].number == NextNumber(Numbers(s.orders), year)
              && r.store.items == s.items + ItemRows(orderId, GroupItems(s, g))
              && r.store.notifications == s.notifications + [BuyerWarning(FirstBuyer(s), r.result.value.number)]
    ensures OnlyOrderTablesChanged(s, r.store)
    ensures Grows(s.items, r.store.items) && Grows(s.notifications, r.store.notifications)
    ensures UniqueNumbers(s.orders) ==> UniqueNumbers(r.store.orders)
  {
    r := AutomaticOrder(s, g.supplierId, buyer, GroupItems(s, g), orderId, year, now, refused);
    GroupOrderCommitted(s, g, buyer, orderId, refused, year, now);
  }

  /** The header, item rows and buyer warning `criarPedidoAutomatico` commits for a group's lines. */
  lemma GroupOrderCommitted(s: Store, g: Group, buyer: Id, orderId: Id, refused: Option<nat>, year: nat, now: Day)
    ensures var r := AutomaticOrder(s, g.supplierId, buyer, GroupItems(s, g), orderId, year, now, refused);
            r.result.Success? ==>
              && OrderOfGroup(r.store.orders[|s.orders|], g, buyer, orderId, s, now)
              && r.store.orders[|s.orders|].number == NextNumber(Numbers(s.orders), year)
              && r.store.items == s.items + ItemRows(orderId, GroupItems(s, g))
              && r.store.notifications == s.notifications + [BuyerWarning(FirstBuyer(s), r.result.value.number)]
              && Grows(s.items, r.store.items) && Grows(s.notifications, r.store.notifications)
  {
    var r := AutomaticOrder(s, g.supplierId, buyer, GroupItems(s, g), orderId, year, now, refused);
    if r.result.Success? {
      assert r.store.items[..|s.items|] == s.items;
      assert r.store.notifications[..|s.notifications|] == s.notifications;
    }
  }

  /** The warning `criarPedidoAutomatico` sends the buyer about the order numbered `number`. */
  function BuyerWarning(buyer: Option<Id>, number: string): Notification {
    Notification(buyer, AutoOrderTitle, AutoOrderMessage(number), Warning)
  }

  /** The item rows the run writes for its first `n` groups, group after group. */
  function RunRows(s: Store, groups: seq<Group>, orderIds: nat -> Id, n: nat): seq<OrderItem>
    requires n <= |groups|
  {
    if n == 0 then [] else RunRows(s, groups, orderIds, n - 1) + ItemRows(orderIds(n - 1), GroupItems(s, groups[n - 1]))
  }

  /** What the run returns for the orders it committed: each one's id and number, in order. */
  function CreatedList(orders: seq<Order>, orderIds: nat -> Id): seq<Created> {
    seq(|orders|, i requires 0 <= i < |orders| => Created(orderIds(i), orders[i].number))
  }

  /** One more committed order adds its id and number to what the run returns. */
  lemma CreatedAfterStep(before: seq<Order>, cur: seq<Order>, next: seq<Order>, orderIds: nat -> Id)
    requires |before| <= |cur| && |next| == |cur| + 1 && next[..|cur|] == cur
    ensures CreatedList(next[|before|..], orderIds)
         == CreatedList(cur[|before|..], orderIds) + [Created(orderIds(|cur| - |before|), next[|cur|].number)]
  {
    assert next[|before|..] == cur[|before|..] + [next[|cur|]] by {
      assert next == cur + [next[|cur|]];
    }
  }

  /** The buyer warnings of `orders`, one per order, in order. */
  function RunNotices(buyer: Option<Id>, orders: seq<Order>): seq<Notification> {
    seq(|orders|, i requires 0 <= i < |orders| => BuyerWarning(buyer, orders[i].number))
  }

  /** Order `i` carries the sequencer's number over the orders before it. */
  predicate IssuedAt(orders: seq<Order>, i: nat, year: nat)
    requires i < |orders|
  {
    orders[i].number == NextNumber(Numbers(orders[..i]), year)
  }

  /** From position `from` on, each order carries the sequencer's number over the orders before it. */
  predicate SequencedFrom(orders: seq<Order>, from: nat, year: nat) {
    forall i :: from <= i < |orders| ==> IssuedAt(orders, i, year)
  }

  /** One more committed group order keeps the run's rows, warnings, numbering and answer in step. */
  lemma RunAfterStep(s: Store, cur: Store, next: Store, created: seq<Created>, c: Created,
                     groups: seq<Group>, orderIds: nat -> Id, buyer: Option<Id>, year: nat)
    requires |created| < |groups| && |cur.orders| == |s.orders| + |created| && cur.orders[..|s.orders|] == s.orders
    requires cur.items == s.items + RunRows(s, groups, orderIds, |created|)
    requires cur.notifications == s.notifications + RunNotices(buyer, cur.orders[|s.orders|..])
    requires SequencedFrom(cur.orders, |s.orders|, year)
    requires created == CreatedList(cur.orders[|s.orders|..], orderIds)
    requires |next.orders| == |cur.orders| + 1 && next.orders[..|cur.orders|] == cur.orders
    requires next.orders[|cur.orders|].number == NextNumber(Numbers(cur.orders), year)
    requires c == Created(orderIds(|created|), next.orders[|cur.orders|].number)
    requires next.items == cur.items + ItemRows(orderIds(|created|), GroupItems(s, groups[|created|]))
    requires next.notifications == cur.notifications + [BuyerWarning(buyer, c.number)]
    ensures next.items == s.items + RunRows(s, groups, orderIds, |created + [c]|)
    ensures next.notifications == s.notifications + RunNotices(buyer, next.orders[|s.orders|..])
    ensures SequencedFrom(next.orders, |s.orders|, year)
    ensures created + [c] == CreatedList(next.orders[|s.orders|..], orderIds)
  {
    RowsAfterStep(s, cur, next, groups, orderIds, |created|);
    NoticesAfterStep(s, cur, next, buyer);
    SequencedAfterStep(cur.orders, next.orders, |s.orders|, year);
    CreatedAfterStep(s.orders, cur.orders, next.orders, orderIds);
  }

  /** One more committed group order extends the run's item rows. */
  lemma RowsAfterStep(s: Store, cur: Store, next: Store, groups: seq<Group>, orderIds: nat -> Id, k: nat)
    requires k < |groups|
    requires cur.items == s.items + RunRows(s, groups, orderIds, k)
    requires next.items == cur.items + ItemRows(orderIds(k), GroupItems(s, groups[k]))
    ensures next.items == s.items + RunRows(s, groups, orderIds, k + 1)
  {
    var x := ItemRows(orderIds(k), GroupItems(s, groups[k]));
    assert RunRows(s, groups, orderIds, k + 1) == RunRows(s, groups, orderIds, k) + x;
    assert s.items + RunRows(s, groups, orderIds, k) + x == s.items + (RunRows(s, groups, orderIds, k) + x);
  }

  /** One more committed group order adds its buyer warning after the run's earlier ones. */
  lemma NoticesAfterStep(s: Store, cur: Store, next: Store, buyer: Option<Id>)
    requires |s.orders| <= |cur.orders| && |next.orders| == |cur.orders| + 1 && next.orders[..|cur.orders|] == cur.orders
    requires cur.notifications == s.notifications + RunNotices(buyer, cur.orders[|s.orders|..])
    requires next.notifications == cur.notifications + [BuyerWarning(buyer, next.orders[|cur.orders|].number)]
    ensures next.notifications == s.notifications + RunNotices(buyer, next.orders[|s.orders|..])
  {
    var o := next.orders[|cur.orders|];
    var before := cur.orders[|s.orders|..];
    assert next.orders[|s.orders|..] == before + [o] by {
      assert next.orders == cur.orders + [o];
    }
    assert RunNotices(buyer, before + [o]) == RunNotices(buyer, before) + [BuyerWarning(buyer, o.number)];
  }

  /** An order numbered by the sequencer over the orders before it keeps the run sequenced. */
  lemma SequencedAfterStep(cur: seq<Order>, next: seq<Order>, from: nat, year: nat)
    requires from <= |cur| && SequencedFrom(cur, from, year)
    requires |next| == |cur| + 1 && next[..|cur|] == cur
    requires next[|cur|].number == NextNumber(Numbers(cur), year)
    ensures SequencedFrom(next, from, year)
  {
    forall i | from <= i < |next|
      ensures IssuedAt(next, i, year)
    {
      if i < |cur| {
        IssuedInPrefix(cur, next, i, year);
      } else {
        assert next[..i] == cur;
      }
    }
  }

  /** An order keeps its numbering when orders are appended after it. */
  lemma IssuedInPrefix(cur: seq<Order>, next: seq<Order>, i: nat, year: nat)
    requires i < |cur| <= |next| && next[..|cur|] == cur && IssuedAt(cur, i, year)
    ensures IssuedAt(next, i, year)
  {
    var p := next[..|cur|];
    assert next[..i] == p[..i];
    assert next[i] == p[i];
  }

  /**
   The loop of `verificarEGerarPedidosAutomaticos` over the supplier groups:
   when a buyer exists, group `k` becomes an automatic order with id
   `orderIds(k)` and refused write `refused(k)`. The first refused
   transaction ends the loop with an error; the orders committed before it
   stay. The groups are those of a grouping, none of them empty.
   */
  method CreateForGroups(s: Store, groups: seq<Group>, orderIds: nat -> Id, refused: nat -> Option<nat>,
                         year: nat, now: Day)
    returns (r: Reply<seq<Created>>)
    requires forall j :: 0 <= j < |groups| ==> groups[j].materials != []
    ensures OnlyOrderTablesChanged(s, r.store)
    ensures Grows(s.items, r.store.items) && Grows(s.notifications, r.store.notifications)
    ensures |s.orders| <= |r.store.orders| <= |s.orders| + |groups|
    ensures r.store.orders[..|s.orders|] == s.orders
    ensures UniqueNumbers(s.orders) ==> UniqueNumbers(r.store.orders)
    ensures !Truthy(FirstBuyer(s)) ==> r == Reply(s, Success([]))
    ensures forall i :: |s.orders| <= i < |r.store.orders| ==>
              OrderOfGroup(r.store.orders[i], groups[i - |s.orders|], FirstBuyer(s).value, orderIds(i - |s.orders|), s, now)
    ensures forall j :: 0 <= j < |r.store.orders| - |s.orders| ==> !Refuses(groups[j], refused(j))
    ensures r.result.Failure? ==>
              && r.result.error == DatabaseError
              && |r.store.orders| < |s.orders| + |groups|
              && Refuses(groups[|r.store.orders| - |s.orders|], refused(|r.store.orders| - |s.orders|))
    ensures r.result.Success? ==> |r.result.value| == |r.store.orders| - |s.orders|
    ensures r.result.Success? && Truthy(FirstBuyer(s)) ==>
              |r.store.orders| == |s.orders| + |groups| && |r.result.value| == |groups|
    ensures r.result.Success? ==> r.result.value == CreatedList(r.store.orders[|s.orders|..], orderIds)
    ensures r.store.items == s.items + RunRows(s, groups, orderIds, |r.store.orders| - |s.orders|)
    ensures r.store.notifications == s.notifications + RunNotices(FirstBuyer(s), r.store.orders[|s.orders|..])
    ensures SequencedFrom(r.store.orders, |s.orders|, year)
  {
    if !Truthy(FirstBuyer(s)) {
      // No iteration finds a buyer: the tables the buyer query reads are never written here.
      return Reply(s, Success([]));
    }
    var cur := s;
    var created: seq<Created> := [];
    var k := 0;
    while k < |groups|
      invariant 0 <= k <= |groups| && |cur.orders| == |s.orders| + k && |created| == k
      invariant RunSoFar(s, groups, orderIds, refused, year, now, cur, created)
    {
      var items := GroupItems(cur, groups[k]);
      var buyer := FirstBuyer(cur);
      if Truthy(buyer) && |items| > 0 {
        var step := PlaceGroupOrder(cur, groups[k], buyer.value, orderIds(k), refused(k), year, now);
        if step.result.Failure? {
          return Reply(cur, Failure(step.result.error));
        }
        RunSoFarAfterStep(s, groups, orderIds, refused, year, now, cur, step.store, created, step.result.value, k);
        cur := step.store;
        created := created + [step.result.value];
      }
      k := k + 1;
    }
    return Reply(cur, Success(created));
  }

  /**
   The loop's state once the orders after `s.orders` in `cur` are committed:
   order `k` of the run is group `k`'s, no group before it was refused, and
   the item rows, warnings, numbering and answer are the run's so far.
   */
  predicate RunSoFar(s: Store, groups: seq<Group>, orderIds: nat -> Id, refused: nat -> Option<nat>,
                     year: nat, now: Day, cur: Store, created: seq<Created>)
  {
    && Truthy(FirstBuyer(s))
    && OnlyOrderTablesChanged(s, cur)
    && |s.orders| <= |cur.orders| <= |s.orders| + |groups|
    && cur.orders[..|s.orders|] == s.orders
    && (UniqueNumbers(s.orders) ==> UniqueNumbers(cur.orders))
    && (forall i :: |s.orders| <= i < |cur.orders| ==>
          OrderOfGroup(cur.orders[i], groups[i - |s.orders|], FirstBuyer(s).value, orderIds(i - |s.orders|), s, now))
    && (forall j :: 0 <= j < |cur.orders| - |s.orders| ==> !Refuses(groups[j], refused(j)))
    && created == CreatedList(cur.orders[|s.orders|..], orderIds)
    && cur.items == s.items + RunRows(s, groups, orderIds, |created|)
    && cur.notifications == s.notifications + RunNotices(FirstBuyer(s), cur.orders[|s.orders|..])
    && SequencedFrom(cur.orders, |s.orders|, year)
  }

  /** Committing group `k`'s order, as `PlaceGroupOrder` describes it, extends the run by one. */
  lemma RunSoFarAfterStep(s: Store, groups: seq<Group>, orderIds: nat -> Id, refused: nat -> Option<nat>,
                          year: nat, now: Day, cur: Store, next: Store, created: seq<Created>, c: Created, k: nat)
    requires Truthy(FirstBuyer(s)) && RunSoFar(s, groups, orderIds, refused, year, now, cur, created)
    requires k < |groups| && |cur.orders| == |s.orders| + k
    requires OnlyOrderTablesChanged(cur, next) && !Refuses(groups[k], refused(k))
    requires |next.orders| == |cur.orders| + 1 && next.orders[..|cur.orders|] == cur.orders
    requires OrderOfGroup(next.orders[|cur.orders|], groups[k], FirstBuyer(cur).value, orderIds(k), cur, now)
    requires next.orders[|cur.orders|].number == NextNumber(Numbers(cur.orders), year)
    requires c == Created(orderIds(k), next.orders[|cur.orders|].number)
    requires next.items == cur.items + ItemRows(orderIds(k), GroupItems(cur, groups[k]))
    requires next.notifications == cur.notifications + [BuyerWarning(FirstBuyer(cur), c.number)]
    requires UniqueNumbers(cur.orders) ==> UniqueNumbers(next.orders)
    ensures RunSoFar(s, groups, orderIds, refused, year, now, next, created + [c])
  {
    assert FirstBuyer(cur) == FirstBuyer(s);
    assert |created| == k;
    GroupItemsDependsOnMaterialsAndBom(s, cur, groups[k]);
    GroupOrderAtRunStart(s, cur, next.orders[|cur.orders|], groups[k], FirstBuyer(s).value, orderIds(k), now);
    OrdersAfterStep(s, cur.orders, next.orders, groups, k, FirstBuyer(s).value, orderIds, refused, now);
    RunAfterStep(s, cur, next, created, c, groups, orderIds, FirstBuyer(s), year);
  }

  /** One more committed group order extends the run's orders in step with the groups. */
  lemma OrdersAfterStep(s: Store, cur: seq<Order>, next: seq<Order>, groups: seq<Group>, k: nat, buyer: Id,
                        orderIds: nat -> Id, refused: nat -> Option<nat>, now: Day)
    requires k < |groups| && |cur| == |s.orders| + k && cur[..|s.orders|] == s.orders
    requires forall i :: |s.orders| <= i < |cur| ==>
               OrderOfGroup(cur[i], groups[i - |s.orders|], buyer, orderIds(i - |s.orders|), s, now)
    requires forall j :: 0 <= j < |cur| - |s.orders| ==> !Refuses(groups[j], refused(j))
    requires |next| == |cur| + 1 && next[..|cur|] == cur
    requires OrderOfGroup(next[|cur|], groups[k], buyer, orderIds(k), s, now) && !Refuses(groups[k], refused(k))
    ensures next[..|s.orders|] == s.orders
    ensures forall i :: |s.orders| <= i < |next| ==>
              OrderOfGroup(next[i], groups[i - |s.orders|], buyer, orderIds(i - |s.orders|), s, now)
    ensures forall j :: 0 <= j < |next| - |s.orders| ==> !Refuses(groups[j], refused(j))
  {
    assert forall i :: 0 <= i < |cur| ==> next[i] == cur[i];
    assert next[..|cur|][..|s.orders|] == cur[..|s.orders|];
  }

  /**
   `verificarEGerarPedidosAutomaticos`: the low-stock snapshot, grouped by
   supplier, each group turned into an automatic order. With a buyer and no
   refused write, every supplier of a low-stock material gets exactly one
   new order.
   */
  method GenerateOrders(s: Store, orderIds: nat -> Id, refused: nat -> Option<nat>, year: nat, now: Day)
    returns (groups: seq<Group>, r: Reply<seq<Created>>)
    ensures groups == GroupBySupplier(LowStock(s))
    ensures OnlyOrderTablesChanged(s, r.store)
    ensures Grows(s.items, r.store.items) && Grows(s.notifications, r.store.notifications)
    ensures |s.orders| <= |r.store.orders| <= |s.orders| + |groups|
    ensures r.store.orders[..|s.orders|] == s.orders
    ensures UniqueNumbers(s.orders) ==> UniqueNumbers(r.store.orders)
    ensures !Truthy(FirstBuyer(s)) ==> r == Reply(s, Success([]))
    ensures forall i :: |s.orders| <= i < |r.store.orders| ==>
              OrderOfGroup(r.store.orders[i], groups[i - |s.orders|], FirstBuyer(s).value, orderIds(i - |s.orders|), s, now)
    ensures forall j :: 0 <= j < |r.store.orders| - |s.orders| ==> !Refuses(groups[j], refused(j))
    ensures r.result.Failure? ==>
              && r.result.error == DatabaseError
              && |r.store.orders| < |s.orders| + |groups|
              && Refuses(groups[|r.store.orders| - |s.orders|], refused(|r.store.orders| - |s.orders|))
    ensures r.result.Success? ==> |r.result.value| == |r.store.orders| - |s.orders|
    ensures r.result.Success? && Truthy(FirstBuyer(s)) ==> |r.store.orders| == |s.orders| + |groups|
    ensures r.result.Success? ==> r.result.value == CreatedList(r.store.orders[|s.orders|..], orderIds)
    ensures r.store.items == s.items + RunRows(s, groups, orderIds, |r.store.orders| - |s.orders|)
    ensures r.store.notifications == s.notifications + RunNotices(FirstBuyer(s), r.store.orders[|s.orders|..])
    ensures SequencedFrom(r.store.orders, |s.orders|, year)
    ensures r.result.Success? && Truthy(FirstBuyer(s)) ==>
              forall m :: 0 <= m < |s.materials| && IsLow(s.materials[m]) && Truthy(Joined(s.suppliers, s.materials[m]).supplierId) ==>
                exists i :: |s.orders| <= i < |r.store.orders| && r.store.orders[i].supplierId == s.materials[m].supplierId.value
  {
    var shortages := LowStock(s);
    groups := GroupBySupplier(shortages);
    r := CreateForGroups(s, groups, orderIds, refused, year, now);
    if r.result.Success? && Truthy(FirstBuyer(s)) {
      EveryLowSupplierOrdered(s, r.store.orders, groups, orderIds, now);
    }
  }

  /** When every group got its order, so did the supplier of every low-stock material. */
  lemma EveryLowSupplierOrdered(s: Store, orders: seq<Order>, groups: seq<Group>, orderIds: nat -> Id, now: Day)
    requires Truthy(FirstBuyer(s)) && groups == GroupBySupplier(LowStock(s))
    requires |orders| == |s.orders| + |groups|
    requires forall i :: |s.orders| <= i < |orders| ==>
               OrderOfGroup(orders[i], groups[i - |s.orders|], FirstBuyer(s).value, orderIds(i - |s.orders|), s, now)
    ensures forall m :: 0 <= m < |s.materials| && IsLow(s.materials[m]) && Truthy(Joined(s.suppliers, s.materials[m]).supplierId) ==>
              exists i :: |s.orders| <= i < |orders| && orders[i].supplierId == s.materials[m].supplierId.value
  {
    forall m | 0 <= m < |s.materials| && IsLow(s.materials[m]) && Truthy(Joined(s.suppliers, s.materials[m]).supplierId)
      ensures exists i :: |s.orders| <= i < |orders| && orders[i].supplierId == s.materials[m].supplierId.value
    {
      LowMaterialHasAGroup(s, m);
      var g :| 0 <= g < |groups| && groups[g].supplierId == s.materials[m].supplierId.value;
      assert orders[|s.orders| + g].supplierId == groups[g].supplierId;
    }
  }

  /** A low-stock material whose supplier exists falls in the group of that supplier. */
  lemma LowMaterialHasAGroup(s: Store, m: nat)
    requires m < |s.materials| && IsLow(s.materials[m]) && Truthy(Joined(s.suppliers, s.materials[m]).supplierId)
    ensures exists g :: 0 <= g < |GroupBySupplier(LowStock(s))| &&
              GroupBySupplier(LowStock(s))[g].supplierId == s.materials[m].supplierId.value
  {
    var shortages := LowStock(s);
    var k := LowMaterialIsInSnapshot(s, m);
    var j := Joined(s.suppliers, s.materials[m]);
    assert KeyOf(shortages[k]) == j.supplierId == s.materials[m].supplierId;
    KeyedShortageHasGroup(shortages, k);
  }

  lemma LowMaterialIsInSnapshot(s: Store, m: nat) returns (k: nat)
    requires m < |s.materials| && IsLow(s.materials[m])
    ensures k < |LowStock(s)| && LowStock(s)[k] == Joined(s.suppliers, s.materials[m])
  {
    var shortages := LowStockOf(s.materials, s.suppliers);
    k :| 0 <= k < |shortages| && shortages[k].material == s.materials[m];
  }

  lemma KeyedShortageHasGroup(shortages: seq<Shortage>, k: nat)
    requires k < |shortages| && KeyOf(shortages[k]).Some?
    ensures exists g :: 0 <= g < |GroupBySupplier(shortages)| && GroupBySupplier(shortages)[g].supplierId == KeyOf(shortages[k]).value
  {
    var groups := GroupBySupplier(shortages);
    assert GroupedBySupplier(shortages, groups);
  }

  /** The quantities and prices of a group's lines depend on the material and bill-of-materials tables only. */
  /** An order placed midway through the run is the group's order as the run's start store sees it. */
  lemma GroupOrderAtRunStart(s: Store, t: Store, o: Order, g: Group, buyer: Id, orderId: Id, now: Day)
    requires OnlyOrderTablesChanged(s, t)
    requires OrderOfGroup(o, g, buyer, orderId, t, now)
    ensures OrderOfGroup(o, g, buyer, orderId, s, now)
  {
    GroupItemsDependsOnMaterialsAndBom(s, t, g);
  }

  lemma GroupItemsDependsOnMaterialsAndBom(s: Store, t: Store, g: Group)
    requires OnlyOrderTablesChanged(s, t)
    ensures GroupItems(t, g) == GroupItems(s, g)
  {
  }
}
