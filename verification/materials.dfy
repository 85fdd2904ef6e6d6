/**
 The material routes: lookup, creation with its zero defaults, deletion, and
 the low-stock list, together with the order in which the router tries the
 `GET` paths.
 */
module Materials {
  import opened Wrappers
  import opened Lists
  import opened Model
  import opened Planner

  predicate MaterialExists(s: Store, id: Id) {
    exists i :: 0 <= i < |s.materials| && s.materials[i].id == id
  }

  /** `GET /materiais/:id`: the material with that id, or not found. */
  function GetMaterial(s: Store, id: Id): (r: Result<Material, ApiError>)
    ensures r.Success? <==> MaterialExists(s, id)
    ensures r.Success? ==> r.value in s.materials && r.value.id == id
    ensures r.Failure? ==> r.error == NotFound
  {
    match FindMaterial(s.materials, id)
    case None => Failure(NotFound)
    case Some(m) => Success(m)
  }

  /** The body of `POST /materiais`; an absent number arrives as None. */
  datatype MaterialRequest = MaterialRequest(
    name: Option<string>,
    code: Option<string>,
    description: Option<string>,
    unit: Option<string>,
    stock: Option<real>,
    minStock: Option<real>,
    maxStock: Option<real>,
    leadTime: Option<real>,
    cost: Option<real>)

  /** `x || 0`: a missing number, like a zero, becomes zero. */
  function OrZero(x: Option<real>): (r: real)
    ensures x.Some? ==> r == x.value
    ensures x.None? ==> r == 0.0
  {
    if x.Some? && x.value != 0.0 then x.value else 0.0
  }

  /**
   `POST /materiais`: the material is inserted under the fresh `id`, each
   missing number as zero and with no supplier (the insert does not name the
   column), and reading it back gives the inserted row.
   */
  function CreateMaterial(s: Store, req: MaterialRequest, id: Id): (r: Reply<Material>)
    requires !MaterialExists(s, id)
    ensures r.result.Success?
    ensures r.store == s.(materials := s.materials + [r.result.value])
    ensures var m := r.result.value;
            && m.id == id && m.name == req.name && m.code == req.code
            && m.description == req.description && m.unit == req.unit
            && m.supplierId.None?
            && m.stock == OrZero(req.stock) && m.minStock == OrZero(req.minStock)
            && m.maxStock == OrZero(req.maxStock) && m.leadTime == OrZero(req.leadTime)
            && m.cost == OrZero(req.cost)
    ensures GetMaterial(r.store, id) == Success(r.result.value)
  {
    var m := Material(id, req.name, req.code, req.description, req.unit,
                      OrZero(req.stock), OrZero(req.minStock), OrZero(req.maxStock),
                      OrZero(req.leadTime), OrZero(req.cost), None);
    FoundLast(s.materials, m);
    Reply(s.(materials := s.materials + [m]), Success(m))
  }

  /** A lookup of an id only the last row carries finds that row. */
  lemma {:induction false} FoundLast(materials: seq<Material>, m: Material)
    requires forall i :: 0 <= i < |materials| ==> materials[i].id != m.id
    ensures FindMaterial(materials + [m], m.id) == Some(m)
  {
    if |materials| > 0 {
      assert (materials + [m])[1..] == materials[1..] + [m];
      FoundLast(materials[1..], m);
    }
  }

  /**
   A material created through the route has no supplier, so even when low it
   falls outside every supplier group: the planner never orders it.
   */
  lemma CreatedMaterialIsNeverGrouped(s: Store, req: MaterialRequest, id: Id)
    requires !MaterialExists(s, id)
    ensures KeyOf(Joined(s.suppliers, CreateMaterial(s, req, id).result.value)).None?
  {
  }

  /**
   `DELETE /materiais/:id`: every material row with that id goes, not found
   (and no change) when there is none.
   */
  function DeleteMaterial(s: Store, id: Id): (r: Reply<()>)
    ensures r.result.Success? <==> MaterialExists(s, id)
    ensures r.result.Failure? ==> r == Reply(s, Failure(NotFound))
    ensures r.result.Success? ==>
              && r.store == s.(materials := r.store.materials)
              && !MaterialExists(r.store, id)
              && (forall i :: 0 <= i < |s.materials| && s.materials[i].id != id ==> s.materials[i] in r.store.materials)
              && (forall i :: 0 <= i < |r.store.materials| ==> r.store.materials[i] in s.materials)
  {
    if MaterialExists(s, id) then
      Reply(s.(materials := Filter(s.materials, (m: Material) => m.id != id)), Success(()))
    else Reply(s, Failure(NotFound))
  }

  /** The route's filter `estoque_atual < estoque_minimo`: strictly below the minimum. */
  predicate BelowMinimum(m: Material) {
    m.stock < m.minStock
  }

  /** The sort key of `ORDER BY estoque_atual ASC`. */
  function StockKey(m: Material): real {
    m.stock
  }

  /** The rows of the low-stock route's `WHERE` clause, in table order. */
  function BelowMinimumRows(s: Store): (r: seq<Material>)
    ensures forall i :: 0 <= i < |r| ==> r[i] in s.materials && BelowMinimum(r[i])
    ensures forall i :: 0 <= i < |s.materials| && BelowMinimum(s.materials[i]) ==> s.materials[i] in r
  {
    Filter(s.materials, BelowMinimum)
  }

  /**
   `GET /materiais/baixo-estoque`: exactly the materials whose stock is
   strictly below their minimum, lowest stock first.
   */
  function LowStockList(s: Store): (r: seq<Material>)
    ensures multiset(r) == multiset(BelowMinimumRows(s))
    ensures forall i :: 0 <= i < |r| ==> r[i] in s.materials && r[i].stock < r[i].minStock
    ensures forall i :: 0 <= i < |s.materials| && s.materials[i].stock < s.materials[i].minStock ==> s.materials[i] in r
    ensures forall i, j :: 0 <= i < j < |r| ==> r[i].stock <= r[j].stock
  {
    var hits := BelowMinimumRows(s);
    var r := SortBy(hits, StockKey);
    SameMembers(r, hits);
    assert forall i, j :: 0 <= i < j < |r| ==> StockKey(r[i]) <= StockKey(r[j]);
    r
  }

  /**
   Every material the low-stock route lists is in the planner's snapshot,
   which also takes the materials exactly at their minimum.
   */
  lemma LowStockListWithinSnapshot(s: Store, i: nat)
    requires i < |LowStockList(s)|
    ensures exists k :: 0 <= k < |LowStock(s)| && LowStock(s)[k].material == LowStockList(s)[i]
  {
    var m := LowStockList(s)[i];
    var j :| 0 <= j < |s.materials| && s.materials[j] == m;
    InSnapshot(s, j);
  }

  /** A material at or below its minimum is in the planner's snapshot. */
  lemma InSnapshot(s: Store, j: nat)
    requires j < |s.materials| && s.materials[j].stock <= s.materials[j].minStock
    ensures exists k :: 0 <= k < |LowStock(s)| && LowStock(s)[k].material == s.materials[j]
  {
    var ls := LowStock(s);
    assert exists k :: 0 <= k < |ls| && ls[k].material == s.materials[j];
  }

  /** A material exactly at its minimum is replenished by the planner but not listed by the route. */
  lemma AtMinimumOnlyInSnapshot(s: Store, j: nat)
    requires j < |s.materials| && s.materials[j].stock == s.materials[j].minStock
    ensures exists k :: 0 <= k < |LowStock(s)| && LowStock(s)[k].material == s.materials[j]
    ensures s.materials[j] !in LowStockList(s)
  {
    InSnapshot(s, j);
  }

  /** What a `GET /materiais/...` path answers: one material or a list of them. */
  datatype MaterialAnswer = One(material: Material) | Many(materials: seq<Material>)

  const LowStockSegment: string := "baixo-estoque"

  /**
   The router as registered: `/:id` comes before `/baixo-estoque` and matches
   every single segment, so every path is answered as a lookup by id.
   */
  function MaterialRouteAsWritten(s: Store, segment: string): (r: Result<MaterialAnswer, ApiError>)
    ensures r.Success? ==> r.value.One?
  {
    match GetMaterial(s, segment)
    case Failure(e) => Failure(e)
    case Success(m) => Success(One(m))
  }

  /** The low-stock list is unreachable: its path is looked up as a material id and, there being none, answered 404. */
  lemma AsWrittenShadowsLowStock(s: Store)
    requires !MaterialExists(s, LowStockSegment)
    ensures MaterialRouteAsWritten(s, LowStockSegment) == Failure(NotFound)
    ensures forall segment :: !(MaterialRouteAsWritten(s, segment).Success? && MaterialRouteAsWritten(s, segment).value.Many?)
  {
  }

  /** The router with `/baixo-estoque` registered before `/:id`. */
  function MaterialRoute(s: Store, segment: string): Result<MaterialAnswer, ApiError> {
    if segment == LowStockSegment then Success(Many(LowStockList(s)))
    else MaterialRouteAsWritten(s, segment)
  }

  /**
   With the corrected order the low-stock path answers the low-stock list,
   and every material whose id is not that word is still found by id.
   */
  lemma CorrectedRouteServesBoth(s: Store, i: nat)
    requires i < |s.materials| && s.materials[i].id != LowStockSegment
    ensures MaterialRoute(s, LowStockSegment).Success? && MaterialRoute(s, LowStockSegment).value.Many?
    ensures forall k :: 0 <= k < |s.materials| && s.materials[k].stock < s.materials[k].minStock ==>
              s.materials[k] in MaterialRoute(s, LowStockSegment).value.materials
    ensures MaterialRoute(s, s.materials[i].id).Success? && MaterialRoute(s, s.materials[i].id).value.One?
    ensures MaterialRoute(s, s.materials[i].id).value.material.id == s.materials[i].id
  {
  }

  /** Deleting a material just created gives back the store from before. */
  lemma DeleteUndoesCreate(s: Store, req: MaterialRequest, id: Id)
    requires !MaterialExists(s, id)
    ensures DeleteMaterial(CreateMaterial(s, req, id).store, id) == Reply(s, Success(()))
  {
    var t := CreateMaterial(s, req, id).store;
    var m := CreateMaterial(s, req, id).result.value;
    var keep := (x: Material) => x.id != id;
    assert t.materials[|s.materials|] == m;
    FilterAppend(s.materials, m, keep);
    FilterAll(s.materials, keep);
  }
}
