/**
  Entities of the inventory backend, the stock-status rule of a product, the
  invariants the relational store keeps (unique fields, one-to-one profiles,
  foreign keys), and the row transformations that the `on_delete` policies of
  the foreign keys perform.
 */
module Models {

  datatype Option<T> = None | Some(value: T) {
    function GetOr(default: T): T {
      match this
      case Some(v) => v
      case None => default
    }
  }

  /** Why an operation did not complete. `UnboundName` is the NameError a
      reference to an undefined module-level name raises. */
  datatype Fault = Unauthorized | NotFound | Conflict | NoStaffProfile | NoManager | UnboundName(name: string)

  datatype Result<T> = Ok(value: T) | Err(fault: Fault)

  /** The three values of `User.role`. */
  datatype Role = AdminRole | ManagerRole | StaffRole

  /** The label `check_stock` derives; it is never stored. */
  datatype StockStatus = Low | Normal | High

  /** A user account. The raw password is never stored: only what the
      password hasher made of it. */
  datatype User = User(
    username: string,
    email: string,
    passwordHash: string,
    role: Role,
    department: Option<string>,
    isActive: bool,
    isSuperuser: bool)

  /** A manager profile; `user` is a one-to-one link to a User row. */
  datatype Manager = Manager(user: nat, email: string, department: string)

  /** A staff profile; `manager` is a nullable link to a Manager row. */
  datatype Staff = Staff(user: nat, manager: Option<nat>, position: string, shift: string)

  /** A product; `manager` is a nullable link to a Manager row. The price
      and the timestamps carry no logic and are not modelled. */
  datatype Product = Product(
    name: string,
    description: string,
    quantity: int,
    lowThreshold: int,
    highThreshold: int,
    category: string,
    sku: string,
    manager: Option<nat>)

  /** One audit record: `product` always refers to a Product row,
      `performedBy` to a Staff row or nothing. `actionType` is whatever
      string the caller sent, as the model field's choices are not checked
      when a row is created. `date` is the clock reading at creation. */
  datatype InventoryLog = InventoryLog(
    product: nat,
    actionType: string,
    quantityChange: int,
    date: int,
    performedBy: Option<nat>,
    notes: string)

  const DefaultQuantity: int := 0
  const DefaultLowThreshold: int := 10
  const DefaultHighThreshold: int := 100

  /** A product created without quantity or thresholds gets the field
      defaults, and so starts out low on stock. */
  function NewProduct(name: string, description: string, category: string, sku: string, manager: Option<nat>): (p: Product)
    ensures p.quantity == 0 && p.lowThreshold == 10 && p.highThreshold == 100
    ensures p.name == name && p.sku == sku && p.manager == manager
    ensures CheckStock(p) == Low
  {
    Product(name, description, DefaultQuantity, DefaultLowThreshold, DefaultHighThreshold, category, sku, manager)
  }

  /** `Product.check_stock`: the low test is made first, so `Low` wins
      whenever the quantity is at or below the low threshold, whatever the
      high threshold is. */
  function CheckStock(p: Product): (s: StockStatus)
    ensures s == Low <==> p.quantity <= p.lowThreshold
    ensures s == High <==> p.lowThreshold < p.quantity && p.highThreshold <= p.quantity
    ensures s == Normal <==> p.lowThreshold < p.quantity < p.highThreshold
  {
    if p.quantity <= p.lowThreshold then Low
    else if p.quantity >= p.highThreshold then High
    else Normal
  }

  // ---------------------------------------------------------------------
  // Store invariants
  // ---------------------------------------------------------------------

  /** `username` is unique among users. */
  ghost predicate UsernamesUnique(users: map<nat, User>) {
    forall a, b :: a in users && b in users && users[a].username == users[b].username ==> a == b
  }

  /** `Manager.email` is unique among managers. */
  ghost predicate ManagerEmailsUnique(managers: map<nat, Manager>) {
    forall a, b :: a in managers && b in managers && managers[a].email == managers[b].email ==> a == b
  }

  /** `Product.sku` is unique among products. */
  ghost predicate SkusUnique(products: map<nat, Product>) {
    forall a, b :: a in products && b in products && products[a].sku == products[b].sku ==> a == b
  }

  /** Both profile kinds are one-to-one with their user and point at an
      existing user. */
  ghost predicate ProfilesLinked(users: map<nat, User>, managers: map<nat, Manager>, staff: map<nat, Staff>) {
    && (forall m :: m in managers ==> managers[m].user in users)
    && (forall s :: s in staff ==> staff[s].user in users)
    && (forall a, b :: a in managers && b in managers && managers[a].user == managers[b].user ==> a == b)
    && (forall a, b :: a in staff && b in staff && staff[a].user == staff[b].user ==> a == b)
  }

  /** Every non-null `manager` of a product or a staff profile exists. */
  ghost predicate ManagerRefsValid(managers: map<nat, Manager>, staff: map<nat, Staff>, products: map<nat, Product>) {
    && (forall p :: p in products && products[p].manager.Some? ==> products[p].manager.value in managers)
    && (forall s :: s in staff && staff[s].manager.Some? ==> staff[s].manager.value in managers)
  }

  /** Every log refers to an existing product, and to an existing staff
      profile when it names a performer. */
  ghost predicate LogRefsValid(staff: map<nat, Staff>, products: map<nat, Product>, logs: seq<InventoryLog>) {
    forall l :: l in logs ==> l.product in products && (l.performedBy.Some? ==> l.performedBy.value in staff)
  }

  ghost predicate Consistent(
    users: map<nat, User>, managers: map<nat, Manager>, staff: map<nat, Staff>,
    products: map<nat, Product>, logs: seq<InventoryLog>)
  {
    && UsernamesUnique(users)
    && ManagerEmailsUnique(managers)
    && SkusUnique(products)
    && ProfilesLinked(users, managers, staff)
    && ManagerRefsValid(managers, staff, products)
    && LogRefsValid(staff, products, logs)
  }

  // ---------------------------------------------------------------------
  // on_delete policies
  // ---------------------------------------------------------------------

  /** SET_NULL on `Product.manager` when the managers in `gone` are deleted:
      no product is removed and only the `manager` field can change. */
  function ProductsDetached(products: map<nat, Product>, gone: set<nat>): (r: map<nat, Product>)
    ensures r.Keys == products.Keys
    ensures forall p :: p in r ==> r[p].manager.Some? ==> r[p].manager.value !in gone
    ensures forall p :: p in r && products[p].manager.Some? && products[p].manager.value in gone ==> r[p].manager.None?
    ensures forall p :: p in r ==> r[p].(manager := products[p].manager) == products[p]
    ensures forall p :: p in r && (products[p].manager.None? || products[p].manager.value !in gone) ==> r[p] == products[p]
  {
    map p | p in products ::
      if products[p].manager.Some? && products[p].manager.value in gone
      then products[p].(manager := None)
      else products[p]
  }

  /** SET_NULL on `Staff.manager` when the managers in `gone` are deleted:
      no staff profile is removed and only the `manager` field can change. */
  function StaffDetached(staff: map<nat, Staff>, gone: set<nat>): (r: map<nat, Staff>)
    ensures r.Keys == staff.Keys
    ensures forall s :: s in r ==> r[s].manager.Some? ==> r[s].manager.value !in gone
    ensures forall s :: s in r && staff[s].manager.Some? && staff[s].manager.value in gone ==> r[s].manager.None?
    ensures forall s :: s in r ==> r[s].(manager := staff[s].manager) == staff[s]
    ensures forall s :: s in r && (staff[s].manager.None? || staff[s].manager.value !in gone) ==> r[s] == staff[s]
  {
    map s | s in staff ::
      if staff[s].manager.Some? && staff[s].manager.value in gone
      then staff[s].(manager := None)
      else staff[s]
  }

  /** SET_NULL on `InventoryLog.performed_by` when the staff profiles in
      `gone` are deleted: every log is kept, in order, and only its
      performer can change. */
  function LogsUnattributed(logs: seq<InventoryLog>, gone: set<nat>): (r: seq<InventoryLog>)
    ensures |r| == |logs|
    ensures forall i :: 0 <= i < |r| ==> r[i].performedBy.Some? ==> r[i].performedBy.value !in gone
    ensures forall i :: 0 <= i < |r| && logs[i].performedBy.Some? && logs[i].performedBy.value in gone ==> r[i].performedBy.None?
    ensures forall i :: 0 <= i < |r| ==> r[i].(performedBy := logs[i].performedBy) == logs[i]
    ensures forall i :: 0 <= i < |r| && (logs[i].performedBy.None? || logs[i].performedBy.value !in gone) ==> r[i] == logs[i]
  {
    seq(|logs|, i requires 0 <= i < |logs| =>
      if logs[i].performedBy.Some? && logs[i].performedBy.value in gone
      then logs[i].(performedBy := None)
      else logs[i])
  }

  /** CASCADE on `InventoryLog.product` when product `pid` is deleted: the
      logs of `pid` are removed, every other log is kept. */
  function LogsWithoutProduct(logs: seq<InventoryLog>, pid: nat): (r: seq<InventoryLog>)
    ensures |r| <= |logs|
    ensures forall l :: l in r <==> l in logs && l.product != pid
  {
    if logs == [] then []
    else if logs[0].product == pid then LogsWithoutProduct(logs[1..], pid)
    else [logs[0]] + LogsWithoutProduct(logs[1..], pid)
  }
}
