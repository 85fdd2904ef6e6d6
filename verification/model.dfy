/**
 The records of the MRP back office and the store that holds them, one
 sequence per table. Money, stock and quantities are exact reals; dates are
 day numbers; identifiers are the uuid texts the routes generate.
 */
module Model {
  import opened Wrappers

  type Id = string

  /** A day number; `NOW()` and `CURDATE()` arrive as parameters of this type. */
  type Day = int

  /** The five values of the order `status` column. */
  datatype Status = Pending | Approved | Shipped | Received | Cancelled

  /**
   The order `tipo` column: the automatic path writes 'automatico'; the manual
   insert does not name the column and leaves its default in place.
   */
  datatype Kind = Automatic | ColumnDefault

  /** The notification `tipo` column. */
  datatype Severity = Info | Warning | Error

  datatype Supplier = Supplier(
    id: Id,
    name: Option<string>,
    cnpj: Option<string>,
    email: Option<string>,
    phone: Option<string>,
    address: Option<string>,
    leadDays: Option<int>)

  datatype Material = Material(
    id: Id,
    name: Option<string>,
    code: Option<string>,
    description: Option<string>,
    unit: Option<string>,
    stock: real,
    minStock: real,
    maxStock: real,
    leadTime: real,
    cost: real,
    supplierId: Option<Id>)

  datatype Product = Product(
    id: Id,
    name: Option<string>,
    code: string,
    description: Option<string>,
    unit: Option<string>,
    price: Option<real>,
    productionTime: Option<real>,
    minLot: Option<real>,
    lotMultiple: Option<real>)

  /** A bill-of-materials row: `quantity` of a material per unit of a product. */
  datatype BomRow = BomRow(id: Id, productId: Id, materialId: Id, quantity: real)

  /** A user and its `tipo` ("admin", "comprador", ...). */
  datatype User = User(id: Id, role: string)

  /** A purchase-order header. */
  datatype Order = Order(
    id: Id,
    number: string,
    supplierId: Id,
    userId: Id,
    kind: Kind,
    total: real,
    status: Status,
    createdAt: Day,
    expected: Option<Day>,
    notes: Option<string>)

  /** A purchase-order line; `lineTotal` is stored redundantly beside quantity and price. */
  datatype OrderItem = OrderItem(orderId: Id, materialId: Id, quantity: real, unitPrice: real, lineTotal: real)

  /** A notification row; `userId` is None when the recipient sub-query finds nobody. */
  datatype Notification = Notification(userId: Option<Id>, title: string, message: string, severity: Severity)

  datatype Store = Store(
    suppliers: seq<Supplier>,
    materials: seq<Material>,
    products: seq<Product>,
    bom: seq<BomRow>,
    users: seq<User>,
    orders: seq<Order>,
    items: seq<OrderItem>,
    notifications: seq<Notification>)

  /** What a route or service reports instead of its normal answer. */
  datatype ApiError =
    | NotFound
    | InvalidStatus
    | DuplicateCnpj
    | SupplierHasOrders
    | DuplicateBomMaterial
    | DuplicateCode
    | DatabaseError

  /** The `code` field some 400 answers carry. */
  function ErrorCode(e: ApiError): Option<string> {
    match e
    case DuplicateCnpj => Some("DUPLICATE_CNPJ")
    case SupplierHasOrders => Some("FORNECEDOR_COM_PEDIDOS")
    case DuplicateCode => Some("DUPLICATE_CODE")
    case _ => None
  }

  /** The HTTP status each error is answered with. */
  function HttpStatus(e: ApiError): nat {
    match e
    case NotFound => 404
    case DatabaseError => 500
    case _ => 400
  }

  /** The store after a request, and what the request answered. */
  datatype Reply<T> = Reply(store: Store, result: Result<T, ApiError>)

  /** `b` is `a` with rows inserted after it. */
  predicate Grows<T(==)>(a: seq<T>, b: seq<T>) {
    |a| <= |b| && b[..|a|] == a
  }

  lemma GrowsTransitive<T>(a: seq<T>, b: seq<T>, c: seq<T>)
    requires Grows(a, b) && Grows(b, c)
    ensures Grows(a, c)
  {
    assert c[..|a|] == c[..|b|][..|a|];
  }

  /** The `numero_pedido` column. */
  function Numbers(orders: seq<Order>): seq<string> {
    seq(|orders|, i requires 0 <= i < |orders| => orders[i].number)
  }

  /** No two orders share a number. */
  predicate UniqueNumbers(orders: seq<Order>) {
    forall i, j :: 0 <= i < j < |orders| ==> orders[i].number != orders[j].number
  }

  /** The ids of the users with `role`, in table order. */
  function UsersWithRole(users: seq<User>, role: string): (r: seq<Id>)
    ensures |r| <= |users|
  {
    if |users| == 0 then []
    else (if users[0].role == role then [users[0].id] else []) + UsersWithRole(users[1..], role)
  }

  const AdminRole: string := "admin"
  const BuyerRole: string := "comprador"

  /** `SELECT id FROM usuarios WHERE tipo = 'comprador' LIMIT 1`. */
  function FirstBuyer(s: Store): Option<Id> {
    var buyers := UsersWithRole(s.users, BuyerRole);
    if |buyers| == 0 then None else Some(buyers[0])
  }

  predicate UserExists(s: Store, id: Id) {
    exists i :: 0 <= i < |s.users| && s.users[i].id == id
  }

  predicate SupplierExists(s: Store, id: Id) {
    exists i :: 0 <= i < |s.suppliers| && s.suppliers[i].id == id
  }

  /** The order row survives the INNER JOINs with its supplier and its user. */
  predicate Listed(s: Store, o: Order) {
    SupplierExists(s, o.supplierId) && UserExists(s, o.userId)
  }

  /** The first row a `SELECT ... FROM pedidos p INNER JOIN ... WHERE p.id = ?` returns. */
  function FindListed(s: Store, orders: seq<Order>, id: Id): (r: Option<Order>)
    ensures r.Some? ==> r.value in orders && r.value.id == id && Listed(s, r.value)
    ensures r.None? ==> forall i :: 0 <= i < |orders| ==> !(orders[i].id == id && Listed(s, orders[i]))
  {
    if |orders| == 0 then None
    else if orders[0].id == id && Listed(s, orders[0]) then Some(orders[0])
    else FindListed(s, orders[1..], id)
  }

  /** A lookup of an id only the appended row carries looks at that row alone. */
  lemma {:induction false} FindListedAppended(s: Store, orders: seq<Order>, o: Order)
    requires forall i :: 0 <= i < |orders| ==> orders[i].id != o.id
    ensures FindListed(s, orders + [o], o.id) == if Listed(s, o) then Some(o) else None
  {
    if |orders| > 0 {
      assert (orders + [o])[1..] == orders[1..] + [o];
      FindListedAppended(s, orders[1..], o);
    }
  }

  /** The supplier a primary-key lookup finds. */
  function FindSupplier(suppliers: seq<Supplier>, id: Id): (r: Option<Supplier>)
    ensures r.Some? ==> r.value in suppliers && r.value.id == id
    ensures r.None? ==> forall i :: 0 <= i < |suppliers| ==> suppliers[i].id != id
  {
    if |suppliers| == 0 then None
    else if suppliers[0].id == id then Some(suppliers[0])
    else FindSupplier(suppliers[1..], id)
  }

  /** The material a primary-key lookup finds. */
  function FindMaterial(materials: seq<Material>, id: Id): (r: Option<Material>)
    ensures r.Some? ==> r.value in materials && r.value.id == id
    ensures r.None? ==> forall i :: 0 <= i < |materials| ==> materials[i].id != id
  {
    if |materials| == 0 then None
    else if materials[0].id == id then Some(materials[0])
    else FindMaterial(materials[1..], id)
  }
}
