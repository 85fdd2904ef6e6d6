/**
 The product routes that shape the bill of materials the planner reads:
 adding and removing a structure row, creating a product under a unique
 internal code, and deleting a product.
 */
module Products {
  import opened Wrappers
  import opened Lists
  import opened Model
  import opened Planner

  predicate ProductExists(s: Store, id: Id) {
    exists i :: 0 <= i < |s.products| && s.products[i].id == id
  }

  /** The structure already lists `materialId` for `productId`. */
  predicate InStructure(bom: seq<BomRow>, productId: Id, materialId: Id) {
    exists i :: 0 <= i < |bom| && bom[i].productId == productId && bom[i].materialId == materialId
  }

  /** Each material appears at most once in each product's structure. */
  predicate PairsUnique(bom: seq<BomRow>) {
    forall i, j :: 0 <= i < j < |bom| ==> !(bom[i].productId == bom[j].productId && bom[i].materialId == bom[j].materialId)
  }

  predicate BomIdFree(bom: seq<BomRow>, id: Id) {
    forall i :: 0 <= i < |bom| ==> bom[i].id != id
  }

  /** A structure row as the route returns it, joined with its material's name and unit. */
  datatype BomEntry = BomEntry(row: BomRow, materialName: Option<string>, materialUnit: Option<string>)

  /**
   `POST /produtos/:id/materiais`: not found when the product is missing; a
   material already in the structure is refused; otherwise exactly one row
   is appended under the fresh `rowId`. The answer is the row read back
   through the INNER JOIN with its material, absent when the material does
   not exist.
   */
  function AddBomRow(s: Store, productId: Id, materialId: Id, quantity: real, rowId: Id): (r: Reply<Option<BomEntry>>)
    requires BomIdFree(s.bom, rowId)
    ensures !ProductExists(s, productId) ==> r == Reply(s, Failure(NotFound))
    ensures ProductExists(s, productId) && InStructure(s.bom, productId, materialId) ==>
              r == Reply(s, Failure(DuplicateBomMaterial))
    ensures r.result.Success? <==> ProductExists(s, productId) && !InStructure(s.bom, productId, materialId)
    ensures r.result.Success? ==>
              && r.store == s.(bom := s.bom + [BomRow(rowId, productId, materialId, quantity)])
              && (r.result.value.Some? <==> FindMaterial(s.materials, materialId).Some?)
              && (r.result.value.Some? ==> r.result.value.value.row == BomRow(rowId, productId, materialId, quantity))
    ensures PairsUnique(s.bom) ==> PairsUnique(r.store.bom)
  {
    if !ProductExists(s, productId) then Reply(s, Failure(NotFound))
    else if InStructure(s.bom, productId, materialId) then Reply(s, Failure(DuplicateBomMaterial))
    else
      var row := BomRow(rowId, productId, materialId, quantity);
      var joined := match FindMaterial(s.materials, materialId)
                    case None => None
                    case Some(m) => Some(BomEntry(row, m.name, m.unit));
      Reply(s.(bom := s.bom + [row]), Success(joined))
  }

  /**
   A successful addition raises the planner's need for the added material by
   the row's quantity and leaves every other material's need as it was.
   */
  lemma AddBomRowRaisesNeed(s: Store, productId: Id, materialId: Id, quantity: real, rowId: Id, m: Id)
    requires BomIdFree(s.bom, rowId)
    requires AddBomRow(s, productId, materialId, quantity, rowId).result.Success?
    ensures NeededFor(AddBomRow(s, productId, materialId, quantity, rowId).store.bom, m) ==
              NeededFor(s.bom, m) + (if m == materialId then quantity else 0.0)
  {
    NeededForAppend(s.bom, BomRow(rowId, productId, materialId, quantity), m);
  }

  /** The rows `DELETE FROM produto_materiais WHERE id = ? AND produto_id = ?` matches. */
  predicate Matches(row: BomRow, productId: Id, rowId: Id) {
    row.id == rowId && row.productId == productId
  }

  /**
   `DELETE /produtos/:produto_id/materiais/:id`: every row with that id under
   that product goes; not found, and no change, when there is none.
   */
  function RemoveBomRow(s: Store, productId: Id, rowId: Id): (r: Reply<()>)
    ensures r.result.Success? <==> exists i :: 0 <= i < |s.bom| && Matches(s.bom[i], productId, rowId)
    ensures r.result.Failure? ==> r == Reply(s, Failure(NotFound))
    ensures r.result.Success? ==>
              && r.store == s.(bom := r.store.bom)
              && (forall i :: 0 <= i < |r.store.bom| ==> r.store.bom[i] in s.bom && !Matches(r.store.bom[i], productId, rowId))
              && (forall i :: 0 <= i < |s.bom| && !Matches(s.bom[i], productId, rowId) ==> s.bom[i] in r.store.bom)
  {
    if exists i :: 0 <= i < |s.bom| && Matches(s.bom[i], productId, rowId) then
      Reply(s.(bom := Filter(s.bom, (row: BomRow) => !Matches(row, productId, rowId))), Success(()))
    else Reply(s, Failure(NotFound))
  }

  /** Removing the row just added gives back the store from before the addition. */
  lemma RemoveUndoesAdd(s: Store, productId: Id, materialId: Id, quantity: real, rowId: Id)
    requires BomIdFree(s.bom, rowId)
    requires AddBomRow(s, productId, materialId, quantity, rowId).result.Success?
    ensures RemoveBomRow(AddBomRow(s, productId, materialId, quantity, rowId).store, productId, rowId) == Reply(s, Success(()))
  {
    var row := BomRow(rowId, productId, materialId, quantity);
    var t := AddBomRow(s, productId, materialId, quantity, rowId).store;
    var keep := (b: BomRow) => !Matches(b, productId, rowId);
    assert t.bom[|s.bom|] == row;
    FilterAppend(s.bom, row, keep);
    FilterAll(s.bom, keep);
  }

  /** The body of `POST /produtos`. */
  datatype ProductRequest = ProductRequest(
    name: Option<string>,
    code: string,
    description: Option<string>,
    unit: Option<string>,
    price: Option<real>,
    productionTime: Option<real>,
    minLot: Option<real>,
    lotMultiple: Option<real>)

  predicate CodeTaken(products: seq<Product>, code: string) {
    exists i :: 0 <= i < |products| && products[i].code == code
  }

  /** No two products share an internal code. */
  predicate CodesUnique(products: seq<Product>) {
    forall i, j :: 0 <= i < j < |products| ==> products[i].code != products[j].code
  }

  /**
   `POST /produtos`: a code already in use is refused with DUPLICATE_CODE
   and nothing is written; otherwise the product is inserted under the fresh
   `id` and is the answer.
   */
  function CreateProduct(s: Store, req: ProductRequest, id: Id): (r: Reply<Product>)
    requires !ProductExists(s, id)
    ensures r.result.Failure? <==> CodeTaken(s.products, req.code)
    ensures r.result.Failure? ==> r == Reply(s, Failure(DuplicateCode))
    ensures r.result.Success? ==>
              && r.result.value == Product(id, req.name, req.code, req.description, req.unit, req.price,
                                           req.productionTime, req.minLot, req.lotMultiple)
              && r.store == s.(products := s.products + [r.result.value])
    ensures CodesUnique(s.products) ==> CodesUnique(r.store.products)
  {
    if CodeTaken(s.products, req.code) then Reply(s, Failure(DuplicateCode))
    else
      var p := Product(id, req.name, req.code, req.description, req.unit, req.price,
                       req.productionTime, req.minLot, req.lotMultiple);
      Reply(s.(products := s.products + [p]), Success(p))
  }

  /**
   `DELETE /produtos/:id`: every product row with that id goes, not found
   (and no change) when there is none; the structure rows are not touched
   here.
   */
  function DeleteProduct(s: Store, id: Id): (r: Reply<()>)
    ensures r.result.Success? <==> ProductExists(s, id)
    ensures r.result.Failure? ==> r == Reply(s, Failure(NotFound))
    ensures r.result.Success? ==>
              && r.store == s.(products := r.store.products)
              && !ProductExists(r.store, id)
              && (forall i :: 0 <= i < |s.products| && s.products[i].id != id ==> s.products[i] in r.store.products)
              && (forall i :: 0 <= i < |r.store.products| ==> r.store.products[i] in s.products)
    ensures CodesUnique(s.products) ==> CodesUnique(r.store.products)
  {
    if ProductExists(s, id) then
      var t := s.(products := Filter(s.products, (p: Product) => p.id != id));
      FilterKeepsCodesUnique(s.products, id);
      Reply(t, Success(()))
    else Reply(s, Failure(NotFound))
  }

  lemma {:induction false} FilterKeepsCodesUnique(products: seq<Product>, id: Id)
    ensures CodesUnique(products) ==> CodesUnique(Filter(products, (p: Product) => p.id != id))
  {
    if |products| > 0 && CodesUnique(products) {
      FilterKeepsCodesUnique(products[1..], id);
      assert Filter(products, (p: Product) => p.id != id) ==
               (if products[0].id != id then [products[0]] else []) + Filter(products[1..], (p: Product) => p.id != id);
      var rest := Filter(products[1..], (p: Product) => p.id != id);
      forall i | 0 <= i < |rest|
        ensures rest[i].code != products[0].code
      {
        assert rest[i] in products[1..];
      }
    }
  }

  /** Deleting a product just created gives back the store from before. */
  lemma DeleteUndoesCreate(s: Store, req: ProductRequest, id: Id)
    requires !ProductExists(s, id)
    requires CreateProduct(s, req, id).result.Success?
    ensures DeleteProduct(CreateProduct(s, req, id).store, id) == Reply(s, Success(()))
  {
    var t := CreateProduct(s, req, id).store;
    var p := CreateProduct(s, req, id).result.value;
    var keep := (x: Product) => x.id != id;
    assert t.products[|s.products|] == p;
    FilterAppend(s.products, p, keep);
    FilterAll(s.products, keep);
  }
}
