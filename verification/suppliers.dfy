/**
 The supplier routes the rest of the back office leans on: lookup by id,
 creation with its CNPJ uniqueness check, and deletion guarded by the orders
 that still reference the supplier.
 */
module Suppliers {
  import opened Wrappers
  import opened Lists
  import opened Model
  import opened Planner

  /** `GET /fornecedores/:id`: the supplier with that id, or not found. */
  function GetSupplier(s: Store, id: Id): (r: Result<Supplier, ApiError>)
    ensures r.Success? <==> SupplierExists(s, id)
    ensures r.Success? ==> r.value in s.suppliers && r.value.id == id
    ensures r.Failure? ==> r.error == NotFound
  {
    match FindSupplier(s.suppliers, id)
    case None => Failure(NotFound)
    case Some(f) => Success(f)
  }

  /** The body of `POST /fornecedores`. */
  datatype SupplierRequest = SupplierRequest(
    name: Option<string>,
    cnpj: Option<string>,
    email: Option<string>,
    phone: Option<string>,
    address: Option<string>)

  /** No two suppliers share a CNPJ the route would have checked (an empty or missing one is never checked). */
  predicate CnpjsUnique(suppliers: seq<Supplier>) {
    forall i, j :: 0 <= i < j < |suppliers| && Truthy(suppliers[i].cnpj) ==> suppliers[i].cnpj != suppliers[j].cnpj
  }

  /** Some supplier already carries `cnpj`. */
  predicate CnpjTaken(suppliers: seq<Supplier>, cnpj: Option<string>) {
    exists i :: 0 <= i < |suppliers| && suppliers[i].cnpj == cnpj
  }

  /**
   `POST /fornecedores`: when the CNPJ is present and non-empty and already
   taken, nothing is written and the answer is DUPLICATE_CNPJ; otherwise the
   supplier is inserted under the fresh `id` without a lead time, and the
   inserted row is the answer.
   */
  function CreateSupplier(s: Store, req: SupplierRequest, id: Id): (r: Reply<Supplier>)
    requires !SupplierExists(s, id)
    ensures r.result.Failure? <==> Truthy(req.cnpj) && CnpjTaken(s.suppliers, req.cnpj)
    ensures r.result.Failure? ==> r == Reply(s, Failure(DuplicateCnpj))
    ensures r.result.Success? ==>
              && r.result.value == Supplier(id, req.name, req.cnpj, req.email, req.phone, req.address, None)
              && r.store == s.(suppliers := s.suppliers + [r.result.value])
              && GetSupplier(r.store, id) == Success(r.result.value)
    ensures CnpjsUnique(s.suppliers) ==> CnpjsUnique(r.store.suppliers)
  {
    if Truthy(req.cnpj) && CnpjTaken(s.suppliers, req.cnpj) then Reply(s, Failure(DuplicateCnpj))
    else
      var f := Supplier(id, req.name, req.cnpj, req.email, req.phone, req.address, None);
      var t := s.(suppliers := s.suppliers + [f]);
      FoundLast(s.suppliers, f);
      Reply(t, Success(f))
  }

  /** A lookup of an id only the last row carries finds that row. */
  lemma {:induction false} FoundLast(suppliers: seq<Supplier>, f: Supplier)
    requires forall i :: 0 <= i < |suppliers| ==> suppliers[i].id != f.id
    ensures FindSupplier(suppliers + [f], f.id) == Some(f)
  {
    if |suppliers| > 0 {
      assert (suppliers + [f])[1..] == suppliers[1..] + [f];
      FoundLast(suppliers[1..], f);
    }
  }

  /** Some order still names `id` as its supplier. */
  predicate HasOrders(s: Store, id: Id) {
    exists i :: 0 <= i < |s.orders| && s.orders[i].supplierId == id
  }

  /** Every order names a supplier that exists. */
  predicate OrdersReferenceSuppliers(s: Store) {
    forall i :: 0 <= i < |s.orders| ==> SupplierExists(s, s.orders[i].supplierId)
  }

  /**
   `DELETE /fornecedores/:id`: refused with FORNECEDOR_COM_PEDIDOS while any
   order references the supplier; otherwise every row with that id goes and
   nothing else changes, not found (and no change) when there was none.
   */
  function DeleteSupplier(s: Store, id: Id): (r: Reply<()>)
    ensures HasOrders(s, id) ==> r == Reply(s, Failure(SupplierHasOrders))
    ensures !HasOrders(s, id) && !SupplierExists(s, id) ==> r == Reply(s, Failure(NotFound))
    ensures r.result.Success? <==> !HasOrders(s, id) && SupplierExists(s, id)
    ensures r.result.Success? ==>
              && r.store == s.(suppliers := r.store.suppliers)
              && !SupplierExists(r.store, id)
              && (forall i :: 0 <= i < |s.suppliers| && s.suppliers[i].id != id ==> s.suppliers[i] in r.store.suppliers)
              && (forall i :: 0 <= i < |r.store.suppliers| ==> r.store.suppliers[i] in s.suppliers)
    ensures OrdersReferenceSuppliers(s) ==> OrdersReferenceSuppliers(r.store)
  {
    if HasOrders(s, id) then Reply(s, Failure(SupplierHasOrders))
    else if !SupplierExists(s, id) then Reply(s, Failure(NotFound))
    else
      var t := s.(suppliers := Filter(s.suppliers, (f: Supplier) => f.id != id));
      assert OrdersReferenceSuppliers(s) ==> OrdersReferenceSuppliers(t) by {
        if OrdersReferenceSuppliers(s) {
          forall i | 0 <= i < |t.orders|
            ensures SupplierExists(t, t.orders[i].supplierId)
          {
            var k :| 0 <= k < |s.suppliers| && s.suppliers[k].id == s.orders[i].supplierId;
            assert s.suppliers[k] in t.suppliers;
          }
        }
      }
      Reply(t, Success(()))
  }

  /** Deleting a supplier just created, before any order names it, gives back the store from before. */
  lemma DeleteUndoesCreate(s: Store, req: SupplierRequest, id: Id)
    requires !SupplierExists(s, id) && !HasOrders(s, id)
    requires CreateSupplier(s, req, id).result.Success?
    ensures DeleteSupplier(CreateSupplier(s, req, id).store, id) == Reply(s, Success(()))
  {
    var t := CreateSupplier(s, req, id).store;
    var f := CreateSupplier(s, req, id).result.value;
    var keep := (x: Supplier) => x.id != id;
    assert t.suppliers[|s.suppliers|] == f;
    FilterAppend(s.suppliers, f, keep);
    FilterAll(s.suppliers, keep);
  }
}
