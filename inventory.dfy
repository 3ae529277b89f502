/**
  The entity store and the operations that change it: stock updates with
  their audit log, activation toggling, registration with its role profile,
  the role-update command, the inserts that the unique fields guard, and the
  deletes with their cascade and set-null policies. Reads that only derive a
  value live in module Reports; the permission classes in Permissions.
 */
module Inventory {
  import opened Models
  import opened Permissions

  /** Who sent a request: nobody, or an authenticated user. */
  datatype Requester = Anonymous | SignedIn(userId: nat)

  /** What the stock views answer. */
  datatype StockReading = StockReading(quantity: int, status: StockStatus)

  /** How a registration ended. `ProfileRejected` is the case where the user
      row was saved but its manager profile then broke the unique email. */
  datatype Registration = Registered(user: nat) | UsernameTaken | ProfileRejected(user: nat)

  // ---------------------------------------------------------------------
  // Value-level rules used by the store's methods
  // ---------------------------------------------------------------------

  /** An anonymous requester needs no user row; a signed-in one has one. */
  predicate Known(users: map<nat, User>, requester: Requester) {
    requester.SignedIn? ==> requester.userId in users
  }

  /** What a permission class sees of the request's user. */
  function CallerOf(users: map<nat, User>, requester: Requester): (c: Caller)
    requires Known(users, requester)
    ensures c.isAuthenticated <==> requester.SignedIn?
    ensures requester.SignedIn? ==> c.isSuperuser == users[requester.userId].isSuperuser && c.role == users[requester.userId].role
  {
    match requester
    case Anonymous => Caller(false, false, StaffRole)
    case SignedIn(u) => Caller(true, users[u].isSuperuser, users[u].role)
  }

  /** `request.user.staff_profile`: the staff profile linked to user `uid`,
      if there is one. */
  ghost function StaffProfileOf(staff: map<nat, Staff>, uid: nat): (r: Option<nat>)
    ensures r.Some? ==> r.value in staff && staff[r.value].user == uid
    ensures r.None? ==> forall s :: s in staff ==> staff[s].user != uid
  {
    if exists s :: s in staff && staff[s].user == uid
    then var s :| s in staff && staff[s].user == uid; Some(s)
    else None
  }

  /** The manager profiles linked to user `uid`: at most one. */
  function ManagerProfilesOf(managers: map<nat, Manager>, uid: nat): (r: set<nat>)
    ensures forall m :: m in r <==> m in managers && managers[m].user == uid
  {
    set m | m in managers && managers[m].user == uid
  }

  /** The staff profiles linked to user `uid`: at most one. */
  function StaffProfilesOf(staff: map<nat, Staff>, uid: nat): (r: set<nat>)
    ensures forall s :: s in r <==> s in staff && staff[s].user == uid
  {
    set s | s in staff && staff[s].user == uid
  }

  predicate UsernameInUse(users: map<nat, User>, username: string) {
    exists u :: u in users && users[u].username == username
  }

  predicate EmailInUse(managers: map<nat, Manager>, email: string) {
    exists m :: m in managers && managers[m].email == email
  }

  predicate SkuInUse(products: map<nat, Product>, sku: string) {
    exists p :: p in products && products[p].sku == sku
  }

  /** `request.data.get('quantity', 0)` */
  function AmountOrDefault(amount: Option<int>): (n: int)
    ensures amount.Some? ==> n == amount.value
    ensures amount.None? ==> n == 0
  {
    amount.GetOr(0)
  }

  /** `request.data.get('action', 'adjust')` */
  function ActionOrDefault(action: Option<string>): (a: string)
    ensures action.Some? ==> a == action.value
    ensures action.None? ==> a == "adjust"
  {
    action.GetOr("adjust")
  }

  /** The quantity `update_stock` stores: `add` adds the amount, `remove`
      subtracts it but never goes below zero, and every other action leaves
      the quantity alone. */
  function NewQuantity(quantity: int, amount: int, action: string): (q: int)
    ensures action == "add" ==> q == quantity + amount
    ensures action == "remove" ==> q >= 0 && q >= quantity - amount && (q == 0 || q == quantity - amount)
    ensures action == "remove" && amount >= quantity ==> q == 0
    ensures action != "add" && action != "remove" ==> q == quantity
    ensures quantity >= 0 && (amount >= 0 || action != "add") ==> q >= 0
    ensures q >= 0 <==> (action == "add" ==> quantity + amount >= 0) && (action != "add" && action != "remove" ==> quantity >= 0)
  {
    if action == "add" then quantity + amount
    else if action == "remove" then (if 0 > quantity - amount then 0 else quantity - amount)
    else quantity
  }

  /** The product after `update_stock`: only its quantity changes. */
  function StockAfter(p: Product, amount: int, action: string): (r: Product)
    ensures r.quantity == NewQuantity(p.quantity, amount, action)
    ensures r.(quantity := p.quantity) == p
  {
    p.(quantity := NewQuantity(p.quantity, amount, action))
  }

  /** The log `update_stock` writes: it records the requested amount, not
      the change the clamp at zero let through. */
  function StockLog(pid: nat, amount: int, action: string, now: int, performer: nat): (l: InventoryLog)
    ensures l.product == pid && l.actionType == action && l.quantityChange == amount
    ensures l.date == now && l.performedBy == Some(performer) && l.notes == ""
  {
    InventoryLog(pid, action, amount, now, Some(performer), "")
  }

  /** What `stock` and `update_stock` answer about a product. */
  function ReadingOf(p: Product): (r: StockReading)
    ensures r.quantity == p.quantity
    ensures r.status == Low <==> p.quantity <= p.lowThreshold
    ensures r.status == High <==> p.lowThreshold < p.quantity && p.highThreshold <= p.quantity
  {
    StockReading(p.quantity, CheckStock(p))
  }

  /** `toggle_activation` on one user row: only `is_active` changes, and it
      is negated. */
  function Toggled(u: User): (r: User)
    ensures r.isActive == !u.isActive
    ensures r.(isActive := u.isActive) == u
  {
    u.(isActive := !u.isActive)
  }

  lemma ToggledTwice(u: User)
    ensures Toggled(Toggled(u)) == u
  {
  }

  /** The user row `UserCreateSerializer.create` saves: the submitted fields
      without the password, which only reaches the hasher; the role defaults
      to staff, the account is active and no superuser. */
  function NewUser(username: string, email: string, password: string, role: Option<Role>,
                   department: Option<string>, hasher: string -> string): (u: User)
    ensures u.username == username && u.email == email && u.department == department
    ensures u.passwordHash == hasher(password)
    ensures u.role == (if role.Some? then role.value else StaffRole)
    ensures u.isActive && !u.isSuperuser
  {
    User(username, email, hasher(password), role.GetOr(StaffRole), department, true, false)
  }

  /** The users after the role command: every user called `username` gets
      `role`; nothing else changes. */
  function UsersWithRole(users: map<nat, User>, username: string, role: Role): (r: map<nat, User>)
    ensures r.Keys == users.Keys
    ensures forall u :: u in r ==> r[u].(role := users[u].role) == users[u]
    ensures forall u :: u in r && users[u].username == username ==> r[u].role == role
    ensures forall u :: u in r && users[u].username != username ==> r[u] == users[u]
    ensures !UsernameInUse(users, username) ==> r == users
  {
    map u | u in users :: if users[u].username == username then users[u].(role := role) else users[u]
  }

  /** With unique usernames, the role command changes the one row whose
      username matches. */
  lemma WithRoleAt(users: map<nat, User>, u: nat, username: string, role: Role)
    requires UsernamesUnique(users) && u in users && users[u].username == username
    ensures UsersWithRole(users, username, role) == users[u := users[u].(role := role)]
  {
    var r := UsersWithRole(users, username, role);
    forall v | v in r ensures r[v] == users[u := users[u].(role := role)][v] {
      if v != u {
        assert users[v].username != username;
      }
    }
  }

  /** A consistent store links at most one manager profile and at most one
      staff profile to each user. */
  lemma ProfilesAtMostOne(
    users: map<nat, User>, managers: map<nat, Manager>, staff: map<nat, Staff>,
    products: map<nat, Product>, logs: seq<InventoryLog>, uid: nat)
    requires Consistent(users, managers, staff, products, logs)
    ensures |ManagerProfilesOf(managers, uid)| <= 1
    ensures |StaffProfilesOf(staff, uid)| <= 1
  {
    var ms := ManagerProfilesOf(managers, uid);
    if ms != {} {
      var m :| m in ms;
      assert ms == {m};
    }
    var ss := StaffProfilesOf(staff, uid);
    if ss != {} {
      var s :| s in ss;
      assert ss == {s};
    }
  }

  /** Running the role command twice with the same arguments leaves the
      users as running it once does. */
  lemma UsersWithRoleIdempotent(users: map<nat, User>, username: string, role: Role)
    ensures UsersWithRole(UsersWithRole(users, username, role), username, role) == UsersWithRole(users, username, role)
  {
    var once := UsersWithRole(users, username, role);
    var twice := UsersWithRole(once, username, role);
    forall u | u in twice ensures twice[u] == once[u] {
      assert once[u].username == users[u].username;
    }
  }

  // ---------------------------------------------------------------------
  // The store invariant is kept by each operation
  // ---------------------------------------------------------------------

  lemma DeleteManagerKeepsConsistent(
    users: map<nat, User>, managers: map<nat, Manager>, staff: map<nat, Staff>,
    products: map<nat, Product>, logs: seq<InventoryLog>, gone: set<nat>)
    requires Consistent(users, managers, staff, products, logs)
    ensures Consistent(users, managers - gone, StaffDetached(staff, gone), ProductsDetached(products, gone), logs)
  {
    var staff', products' := StaffDetached(staff, gone), ProductsDetached(products, gone);
    assert SkusUnique(products') by {
      forall a, b | a in products' && b in products' && products'[a].sku == products'[b].sku ensures a == b {
        assert products'[a].sku == products[a].sku && products'[b].sku == products[b].sku;
      }
    }
    assert ProfilesLinked(users, managers - gone, staff') by {
      forall a, b | a in staff' && b in staff' && staff'[a].user == staff'[b].user ensures a == b {
        assert staff'[a].user == staff[a].user && staff'[b].user == staff[b].user;
      }
    }
    assert ManagerRefsValid(managers - gone, staff', products');
    assert LogRefsValid(staff', products', logs);
  }

  lemma DeleteStaffKeepsConsistent(
    users: map<nat, User>, managers: map<nat, Manager>, staff: map<nat, Staff>,
    products: map<nat, Product>, logs: seq<InventoryLog>, gone: set<nat>)
    requires Consistent(users, managers, staff, products, logs)
    ensures Consistent(users, managers, staff - gone, products, LogsUnattributed(logs, gone))
  {
    var logs' := LogsUnattributed(logs, gone);
    forall l | l in logs' ensures l.product in products && (l.performedBy.Some? ==> l.performedBy.value in staff - gone) {
      var i :| 0 <= i < |logs'| && logs'[i] == l;
      assert logs[i] in logs;
    }
  }

  lemma DeleteProductKeepsConsistent(
    users: map<nat, User>, managers: map<nat, Manager>, staff: map<nat, Staff>,
    products: map<nat, Product>, logs: seq<InventoryLog>, pid: nat)
    requires Consistent(users, managers, staff, products, logs)
    ensures Consistent(users, managers, staff, products - {pid}, LogsWithoutProduct(logs, pid))
  {
  }

  /** Removing a user row that no profile points at. */
  lemma DeleteUserRowKeepsConsistent(
    users: map<nat, User>, managers: map<nat, Manager>, staff: map<nat, Staff>,
    products: map<nat, Product>, logs: seq<InventoryLog>, uid: nat)
    requires Consistent(users, managers, staff, products, logs)
    requires forall m :: m in managers ==> managers[m].user != uid
    requires forall s :: s in staff ==> staff[s].user != uid
    ensures Consistent(users - {uid}, managers, staff, products, logs)
  {
  }

  /** Deleting a user together with its profiles. */
  lemma DeleteUserKeepsConsistent(
    users: map<nat, User>, managers: map<nat, Manager>, staff: map<nat, Staff>,
    products: map<nat, Product>, logs: seq<InventoryLog>, uid: nat)
    requires Consistent(users, managers, staff, products, logs)
    ensures
      var ms, ss := ManagerProfilesOf(managers, uid), StaffProfilesOf(staff, uid);
      Consistent(users - {uid}, managers - ms, StaffDetached(staff, ms) - ss, ProductsDetached(products, ms),
                 LogsUnattributed(logs, ss))
  {
    var ms, ss := ManagerProfilesOf(managers, uid), StaffProfilesOf(staff, uid);
    var staff1, products1 := StaffDetached(staff, ms), ProductsDetached(products, ms);
    DeleteManagerKeepsConsistent(users, managers, staff, products, logs, ms);
    DeleteStaffKeepsConsistent(users, managers - ms, staff1, products1, logs, ss);
    forall s | s in staff1 - ss ensures (staff1 - ss)[s].user != uid {
      assert staff1[s].user == staff[s].user;
    }
    DeleteUserRowKeepsConsistent(users, managers - ms, staff1 - ss, products1, LogsUnattributed(logs, ss), uid);
  }

  /** Changing fields of a user row other than its username. */
  lemma UpdateUserKeepsConsistent(
    users: map<nat, User>, managers: map<nat, Manager>, staff: map<nat, Staff>,
    products: map<nat, Product>, logs: seq<InventoryLog>, uid: nat, u: User)
    requires Consistent(users, managers, staff, products, logs)
    requires uid in users && u.username == users[uid].username
    ensures Consistent(users[uid := u], managers, staff, products, logs)
  {
    var users' := users[uid := u];
    forall a, b | a in users' && b in users' && users'[a].username == users'[b].username ensures a == b {
      assert users'[a].username == users[a].username && users'[b].username == users[b].username;
    }
  }

  /** Changing fields of a product row other than its sku and manager. */
  lemma UpdateProductKeepsConsistent(
    users: map<nat, User>, managers: map<nat, Manager>, staff: map<nat, Staff>,
    products: map<nat, Product>, logs: seq<InventoryLog>, pid: nat, p: Product)
    requires Consistent(users, managers, staff, products, logs)
    requires pid in products && p.sku == products[pid].sku && p.manager == products[pid].manager
    ensures Consistent(users, managers, staff, products[pid := p], logs)
  {
    var products' := products[pid := p];
    forall a, b | a in products' && b in products' && products'[a].sku == products'[b].sku ensures a == b {
      assert products'[a].sku == products[a].sku && products'[b].sku == products[b].sku;
    }
  }

  lemma AppendLogKeepsConsistent(
    users: map<nat, User>, managers: map<nat, Manager>, staff: map<nat, Staff>,
    products: map<nat, Product>, logs: seq<InventoryLog>, l: InventoryLog)
    requires Consistent(users, managers, staff, products, logs)
    requires l.product in products && (l.performedBy.Some? ==> l.performedBy.value in staff)
    ensures Consistent(users, managers, staff, products, logs + [l])
  {
  }

  lemma AddUserKeepsConsistent(
    users: map<nat, User>, managers: map<nat, Manager>, staff: map<nat, Staff>,
    products: map<nat, Product>, logs: seq<InventoryLog>, uid: nat, u: User)
    requires Consistent(users, managers, staff, products, logs)
    requires uid !in users && !UsernameInUse(users, u.username)
    ensures Consistent(users[uid := u], managers, staff, products, logs)
  {
  }

  lemma AddManagerKeepsConsistent(
    users: map<nat, User>, managers: map<nat, Manager>, staff: map<nat, Staff>,
    products: map<nat, Product>, logs: seq<InventoryLog>, mid: nat, m: Manager)
    requires Consistent(users, managers, staff, products, logs)
    requires mid !in managers && m.user in users
    requires ManagerProfilesOf(managers, m.user) == {} && !EmailInUse(managers, m.email)
    ensures Consistent(users, managers[mid := m], staff, products, logs)
  {
    var managers' := managers[mid := m];
    forall a, b | a in managers' && b in managers' && managers'[a].user == managers'[b].user ensures a == b {
      if a != mid && b != mid {
        assert managers'[a] == managers[a] && managers'[b] == managers[b];
      }
    }
  }

  lemma AddStaffKeepsConsistent(
    users: map<nat, User>, managers: map<nat, Manager>, staff: map<nat, Staff>,
    products: map<nat, Product>, logs: seq<InventoryLog>, sid: nat, s: Staff)
    requires Consistent(users, managers, staff, products, logs)
    requires sid !in staff && s.user in users && StaffProfilesOf(staff, s.user) == {}
    requires s.manager.Some? ==> s.manager.value in managers
    ensures Consistent(users, managers, staff[sid := s], products, logs)
  {
    var staff' := staff[sid := s];
    forall a, b | a in staff' && b in staff' && staff'[a].user == staff'[b].user ensures a == b {
      if a != sid && b != sid {
        assert staff'[a] == staff[a] && staff'[b] == staff[b];
      }
    }
  }

  lemma AddProductKeepsConsistent(
    users: map<nat, User>, managers: map<nat, Manager>, staff: map<nat, Staff>,
    products: map<nat, Product>, logs: seq<InventoryLog>, pid: nat, p: Product)
    requires Consistent(users, managers, staff, products, logs)
    requires pid !in products && !SkuInUse(products, p.sku)
    requires p.manager.Some? ==> p.manager.value in managers
    ensures Consistent(users, managers, staff, products[pid := p], logs)
  {
  }

  /** Every primary key of a table is below the table's next key. */
  ghost predicate KeysBelow<T>(table: map<nat, T>, next: nat) {
    forall k :: k in table ==> k < next
  }

  // ---------------------------------------------------------------------
  // The store
  // ---------------------------------------------------------------------

  class Store {
    var users: map<nat, User>
    var managers: map<nat, Manager>
    var staff: map<nat, Staff>
    var products: map<nat, Product>
    var logs: seq<InventoryLog>
    // The next primary key of each table.
    var nextUser: nat
    var nextManager: nat
    var nextStaff: nat
    var nextProduct: nat

    ghost predicate Valid()
      reads this
    {
      && Consistent(users, managers, staff, products, logs)
      && KeysBelow(users, nextUser)
      && KeysBelow(managers, nextManager)
      && KeysBelow(staff, nextStaff)
      && KeysBelow(products, nextProduct)
    }

    constructor ()
      ensures Valid()
      ensures users == map[] && managers == map[] && staff == map[] && products == map[] && logs == []
      ensures nextUser == 0 && nextManager == 0 && nextStaff == 0 && nextProduct == 0
    {
      users, managers, staff, products, logs := map[], map[], map[], map[], [];
      nextUser, nextManager, nextStaff, nextProduct := 0, 0, 0, 0;
    }

    /** Looks up `request.user.staff_profile`. */
    method FindStaffProfile(uid: nat) returns (r: Option<nat>)
      requires Valid()
      ensures r == StaffProfileOf(staff, uid)
    {
      if exists s :: s in staff && staff[s].user == uid {
        var s :| s in staff && staff[s].user == uid;
        r := Some(s);
      } else {
        r := None;
      }
    }

    /** `ProductViewSet.stock`, behind `IsManagerUser`. */
    function Stock(requester: Requester, pid: nat): (r: Result<StockReading>)
      reads this
      requires Known(users, requester)
      ensures !IsManagerUser(CallerOf(users, requester)) ==> r == Err(Unauthorized)
      ensures IsManagerUser(CallerOf(users, requester)) && pid !in products ==> r == Err(NotFound)
      ensures r.Ok? <==> IsManagerUser(CallerOf(users, requester)) && pid in products
      ensures r.Ok? ==> r.value.quantity == products[pid].quantity && r.value.status == CheckStock(products[pid])
    {
      if !IsManagerUser(CallerOf(users, requester)) then Err(Unauthorized)
      else if pid !in products then Err(NotFound)
      else Ok(ReadingOf(products[pid]))
    }

    /** `ProductViewSet.update_stock`, behind `IsManagerUser`. The product
        is saved before the performer is looked up, so a caller without a
        staff profile gets `NoStaffProfile` with the new quantity already
        stored and no log written. */
    method UpdateStock(requester: Requester, pid: nat, amount: Option<int>, action: Option<string>, now: int)
      returns (r: Result<StockReading>)
      requires Valid() && Known(users, requester)
      modifies this
      ensures Valid()
      ensures users == old(users) && managers == old(managers) && staff == old(staff)
      ensures nextUser == old(nextUser) && nextManager == old(nextManager)
      ensures nextStaff == old(nextStaff) && nextProduct == old(nextProduct)
      ensures !IsManagerUser(CallerOf(users, requester)) ==>
        r == Err(Unauthorized) && products == old(products) && logs == old(logs)
      ensures IsManagerUser(CallerOf(users, requester)) && pid !in old(products) ==>
        r == Err(NotFound) && products == old(products) && logs == old(logs)
      ensures IsManagerUser(CallerOf(users, requester)) && pid in old(products) ==>
        && products == old(products)[pid := StockAfter(old(products)[pid], AmountOrDefault(amount), ActionOrDefault(action))]
        && (StaffProfileOf(staff, requester.userId).None? ==> r == Err(NoStaffProfile) && logs == old(logs))
        && (StaffProfileOf(staff, requester.userId).Some? ==>
              && logs == old(logs) + [StockLog(pid, AmountOrDefault(amount), ActionOrDefault(action), now,
                                               StaffProfileOf(staff, requester.userId).value)]
              && r == Ok(ReadingOf(products[pid])))
      ensures r.Ok? ==> r == Stock(requester, pid)
    {
      if !IsManagerUser(CallerOf(users, requester)) {
        return Err(Unauthorized);
      }
      if pid !in products {
        return Err(NotFound);
      }
      var quantity := AmountOrDefault(amount);
      var actionType := ActionOrDefault(action);
      var product := products[pid];
      if actionType == "add" {
        product := product.(quantity := product.quantity + quantity);
      } else if actionType == "remove" {
        product := product.(quantity := if 0 > product.quantity - quantity then 0 else product.quantity - quantity);
      }
      SaveProduct(pid, product);
      var performer := FindStaffProfile(requester.userId);
      if performer.None? {
        return Err(NoStaffProfile);
      }
      AppendLog(StockLog(pid, quantity, actionType, now, performer.value));
      r := Ok(ReadingOf(product));
    }

    /** `UserViewSet.toggle_activation`, behind `IsAdminUser`. */
    method ToggleActivation(requester: Requester, uid: nat) returns (r: Result<bool>)
      requires Valid() && Known(users, requester)
      modifies this
      ensures Valid()
      ensures managers == old(managers) && staff == old(staff) && products == old(products) && logs == old(logs)
      ensures nextUser == old(nextUser) && nextManager == old(nextManager)
      ensures nextStaff == old(nextStaff) && nextProduct == old(nextProduct)
      ensures !IsAdminUser(CallerOf(old(users), requester)) ==> r == Err(Unauthorized) && users == old(users)
      ensures IsAdminUser(CallerOf(old(users), requester)) && uid !in old(users) ==> r == Err(NotFound) && users == old(users)
      ensures IsAdminUser(CallerOf(old(users), requester)) && uid in old(users) ==>
        users == old(users)[uid := Toggled(old(users)[uid])] && r == Ok(!old(users)[uid].isActive)
    {
      if !IsAdminUser(CallerOf(users, requester)) {
        return Err(Unauthorized);
      }
      if uid !in users {
        return Err(NotFound);
      }
      var user := users[uid];
      user := user.(isActive := !user.isActive);
      UpdateUserKeepsConsistent(users, managers, staff, products, logs, uid, user);
      users := users[uid := user];
      r := Ok(user.isActive);
    }

    /** `UserCreateSerializer.create`, reached without authentication. A
        taken username fails validation before anything is written. The user
        row is saved first; the role then decides the profile row. */
    method Register(username: string, email: string, password: string, role: Option<Role>,
                    department: Option<string>, hasher: string -> string)
      returns (r: Registration)
      requires Valid()
      modifies this
      ensures Valid()
      ensures products == old(products) && logs == old(logs) && nextProduct == old(nextProduct)
      ensures UsernameInUse(old(users), username) ==>
        && r == UsernameTaken
        && users == old(users) && managers == old(managers) && staff == old(staff)
        && nextUser == old(nextUser) && nextManager == old(nextManager) && nextStaff == old(nextStaff)
      ensures !UsernameInUse(old(users), username) ==>
        && r != UsernameTaken && r.user == old(nextUser) && nextUser == old(nextUser) + 1
        && old(nextUser) !in old(users)
        && users == old(users)[old(nextUser) := NewUser(username, email, password, role, department, hasher)]
        && (role == Some(ManagerRole) && EmailInUse(old(managers), email) ==>
              && r == ProfileRejected(old(nextUser)) && managers == old(managers) && staff == old(staff)
              && nextManager == old(nextManager) && nextStaff == old(nextStaff))
        && (role == Some(ManagerRole) && !EmailInUse(old(managers), email) ==>
              && r == Registered(old(nextUser)) && staff == old(staff)
              && nextManager == old(nextManager) + 1 && nextStaff == old(nextStaff)
              && old(nextManager) !in old(managers)
              && managers == old(managers)[old(nextManager) := Manager(old(nextUser), email, department.GetOr(""))])
        && (role == Some(StaffRole) ==>
              && r == Registered(old(nextUser)) && managers == old(managers)
              && nextStaff == old(nextStaff) + 1 && nextManager == old(nextManager)
              && old(nextStaff) !in old(staff)
              && staff == old(staff)[old(nextStaff) := Staff(old(nextUser), None, "Staff Member", "Day")])
        && (role != Some(ManagerRole) && role != Some(StaffRole) ==>
              && r == Registered(old(nextUser)) && managers == old(managers) && staff == old(staff)
              && nextManager == old(nextManager) && nextStaff == old(nextStaff))
    {
      if exists u :: u in users && users[u].username == username {
        return UsernameTaken;
      }
      var uid := InsertUser(NewUser(username, email, password, role, department, hasher));
      if role == Some(ManagerRole) {
        if exists m :: m in managers && managers[m].email == email {
          return ProfileRejected(uid);
        }
        assert ManagerProfilesOf(managers, uid) == {};
        var _ := InsertManager(Manager(uid, email, department.GetOr("")));
      } else if role == Some(StaffRole) {
        assert StaffProfilesOf(staff, uid) == {};
        var _ := InsertStaff(Staff(uid, None, "Staff Member", "Day"));
      }
      r := Registered(uid);
    }

    /** The `update_user_role` command: the user called `username` gets
        `role`, or nothing changes and the user is reported not found. */
    method SetUserRole(username: string, role: Role) returns (found: bool)
      requires Valid()
      modifies this
      ensures Valid()
      ensures found <==> UsernameInUse(old(users), username)
      ensures users == UsersWithRole(old(users), username, role)
      ensures managers == old(managers) && staff == old(staff) && products == old(products) && logs == old(logs)
      ensures nextUser == old(nextUser) && nextManager == old(nextManager)
      ensures nextStaff == old(nextStaff) && nextProduct == old(nextProduct)
    {
      if exists u :: u in users && users[u].username == username {
        var u :| u in users && users[u].username == username;
        var user := users[u];
        UpdateUserKeepsConsistent(users, managers, staff, products, logs, u, user.(role := role));
        users := users[u := user.(role := role)];
        found := true;
        WithRoleAt(old(users), u, username, role);
      } else {
        found := false;
      }
    }

    /** Creating a product: a taken `sku` or an unknown manager is refused
        and nothing is written. */
    method AddProduct(p: Product) returns (r: Result<nat>)
      requires Valid()
      modifies this
      ensures Valid()
      ensures users == old(users) && managers == old(managers) && staff == old(staff) && logs == old(logs)
      ensures SkuInUse(old(products), p.sku) ==> r == Err(Conflict) && products == old(products)
      ensures !SkuInUse(old(products), p.sku) && p.manager.Some? && p.manager.value !in managers ==>
        r == Err(NotFound) && products == old(products)
      ensures r.Ok? <==> !SkuInUse(old(products), p.sku) && (p.manager.None? || p.manager.value in managers)
      ensures r.Ok? ==> r.value == old(nextProduct) && r.value !in old(products) && products == old(products)[r.value := p]
      ensures nextProduct == old(nextProduct) + (if r.Ok? then 1 else 0)
      ensures nextUser == old(nextUser) && nextManager == old(nextManager) && nextStaff == old(nextStaff)
    {
      if exists q :: q in products && products[q].sku == p.sku {
        return Err(Conflict);
      }
      if p.manager.Some? && p.manager.value !in managers {
        return Err(NotFound);
      }
      var pid := nextProduct;
      AddProductKeepsConsistent(users, managers, staff, products, logs, pid, p);
      products := products[pid := p];
      nextProduct := nextProduct + 1;
      r := Ok(pid);
    }

    /** Creating a manager profile for an existing user: a user that already
        has one, or a taken email, is refused and nothing is written. */
    method AddManager(uid: nat, email: string, department: string) returns (r: Result<nat>)
      requires Valid()
      modifies this
      ensures Valid()
      ensures users == old(users) && staff == old(staff) && products == old(products) && logs == old(logs)
      ensures uid !in users ==> r == Err(NotFound) && managers == old(managers)
      ensures uid in users && (ManagerProfilesOf(old(managers), uid) != {} || EmailInUse(old(managers), email)) ==>
        r == Err(Conflict) && managers == old(managers)
      ensures r.Ok? <==> uid in users && ManagerProfilesOf(old(managers), uid) == {} && !EmailInUse(old(managers), email)
      ensures r.Ok? ==> r.value == old(nextManager) && r.value !in old(managers)
                        && managers == old(managers)[r.value := Manager(uid, email, department)]
      ensures nextManager == old(nextManager) + (if r.Ok? then 1 else 0)
      ensures nextUser == old(nextUser) && nextStaff == old(nextStaff) && nextProduct == old(nextProduct)
    {
      if uid !in users {
        return Err(NotFound);
      }
      if exists m :: m in managers && (managers[m].user == uid || managers[m].email == email) {
        return Err(Conflict);
      }
      var mid := InsertManager(Manager(uid, email, department));
      r := Ok(mid);
    }

    /** Deleting a manager profile: its products and staff lose their
        manager and are kept. */
    method DeleteManager(mid: nat) returns (found: bool)
      requires Valid()
      modifies this
      ensures Valid()
      ensures found <==> mid in old(managers)
      ensures managers == old(managers) - {mid}
      ensures products == ProductsDetached(old(products), {mid})
      ensures staff == StaffDetached(old(staff), {mid})
      ensures users == old(users) && logs == old(logs)
      ensures nextUser == old(nextUser) && nextManager == old(nextManager)
      ensures nextStaff == old(nextStaff) && nextProduct == old(nextProduct)
    {
      found := mid in managers;
      DeleteManagerKeepsConsistent(users, managers, staff, products, logs, {mid});
      managers := managers - {mid};
      products := ProductsDetached(products, {mid});
      staff := StaffDetached(staff, {mid});
    }

    /** Deleting a product: its logs go with it, every other log stays. */
    method DeleteProduct(pid: nat) returns (found: bool)
      requires Valid()
      modifies this
      ensures Valid()
      ensures found <==> pid in old(products)
      ensures products == old(products) - {pid}
      ensures logs == LogsWithoutProduct(old(logs), pid)
      ensures users == old(users) && managers == old(managers) && staff == old(staff)
      ensures nextUser == old(nextUser) && nextManager == old(nextManager)
      ensures nextStaff == old(nextStaff) && nextProduct == old(nextProduct)
    {
      found := pid in products;
      DeleteProductKeepsConsistent(users, managers, staff, products, logs, pid);
      products := products - {pid};
      logs := LogsWithoutProduct(logs, pid);
    }

    /** Deleting a staff profile: the logs it performed are kept and lose
        their performer. */
    method DeleteStaff(sid: nat) returns (found: bool)
      requires Valid()
      modifies this
      ensures Valid()
      ensures found <==> sid in old(staff)
      ensures staff == old(staff) - {sid}
      ensures logs == LogsUnattributed(old(logs), {sid})
      ensures users == old(users) && managers == old(managers) && products == old(products)
      ensures nextUser == old(nextUser) && nextManager == old(nextManager)
      ensures nextStaff == old(nextStaff) && nextProduct == old(nextProduct)
    {
      found := sid in staff;
      DeleteStaffKeepsConsistent(users, managers, staff, products, logs, {sid});
      staff := staff - {sid};
      logs := LogsUnattributed(logs, {sid});
    }

    /** Saves product row `pid` with an unchanged sku and manager. */
    method SaveProduct(pid: nat, p: Product)
      requires Valid() && pid in products && p.sku == products[pid].sku && p.manager == products[pid].manager
      modifies this
      ensures Valid()
      ensures products == old(products)[pid := p]
      ensures users == old(users) && managers == old(managers) && staff == old(staff) && logs == old(logs)
      ensures nextUser == old(nextUser) && nextManager == old(nextManager)
      ensures nextStaff == old(nextStaff) && nextProduct == old(nextProduct)
    {
      UpdateProductKeepsConsistent(users, managers, staff, products, logs, pid, p);
      products := products[pid := p];
    }

    /** Inserts one log row, for an existing product and performer. */
    method AppendLog(l: InventoryLog)
      requires Valid() && l.product in products && (l.performedBy.Some? ==> l.performedBy.value in staff)
      modifies this
      ensures Valid()
      ensures logs == old(logs) + [l]
      ensures users == old(users) && managers == old(managers) && staff == old(staff) && products == old(products)
      ensures nextUser == old(nextUser) && nextManager == old(nextManager)
      ensures nextStaff == old(nextStaff) && nextProduct == old(nextProduct)
    {
      AppendLogKeepsConsistent(users, managers, staff, products, logs, l);
      logs := logs + [l];
    }

    /** Saves a new user row under the next user key. */
    method InsertUser(u: User) returns (uid: nat)
      requires Valid() && !UsernameInUse(users, u.username)
      modifies this
      ensures Valid()
      ensures uid == old(nextUser) && uid !in old(users) && users == old(users)[uid := u]
      ensures managers == old(managers) && staff == old(staff) && products == old(products) && logs == old(logs)
      ensures nextUser == old(nextUser) + 1 && nextManager == old(nextManager)
      ensures nextStaff == old(nextStaff) && nextProduct == old(nextProduct)
    {
      uid := nextUser;
      AddUserKeepsConsistent(users, managers, staff, products, logs, uid, u);
      users := users[uid := u];
      nextUser := nextUser + 1;
    }

    /** Saves a new manager profile under the next manager key. */
    method InsertManager(m: Manager) returns (mid: nat)
      requires Valid() && m.user in users
      requires ManagerProfilesOf(managers, m.user) == {} && !EmailInUse(managers, m.email)
      modifies this
      ensures Valid()
      ensures mid == old(nextManager) && mid !in old(managers) && managers == old(managers)[mid := m]
      ensures users == old(users) && staff == old(staff) && products == old(products) && logs == old(logs)
      ensures nextUser == old(nextUser) && nextManager == old(nextManager) + 1
      ensures nextStaff == old(nextStaff) && nextProduct == old(nextProduct)
    {
      mid := nextManager;
      AddManagerKeepsConsistent(users, managers, staff, products, logs, mid, m);
      managers := managers[mid := m];
      nextManager := nextManager + 1;
    }

    /** Saves a new staff profile under the next staff key. */
    method InsertStaff(st: Staff) returns (sid: nat)
      requires Valid() && st.user in users && StaffProfilesOf(staff, st.user) == {}
      requires st.manager.Some? ==> st.manager.value in managers
      modifies this
      ensures Valid()
      ensures sid == old(nextStaff) && sid !in old(staff) && staff == old(staff)[sid := st]
      ensures users == old(users) && managers == old(managers) && products == old(products) && logs == old(logs)
      ensures nextUser == old(nextUser) && nextManager == old(nextManager)
      ensures nextStaff == old(nextStaff) + 1 && nextProduct == old(nextProduct)
    {
      sid := nextStaff;
      AddStaffKeepsConsistent(users, managers, staff, products, logs, sid, st);
      staff := staff[sid := st];
      nextStaff := nextStaff + 1;
    }

    /** Replaces the five tables at once, keeping the key counters. */
    method Commit(
      users': map<nat, User>, managers': map<nat, Manager>, staff': map<nat, Staff>,
      products': map<nat, Product>, logs': seq<InventoryLog>)
      requires Consistent(users', managers', staff', products', logs')
      requires KeysBelow(users', nextUser) && KeysBelow(managers', nextManager)
      requires KeysBelow(staff', nextStaff) && KeysBelow(products', nextProduct)
      modifies this
      ensures Valid()
      ensures users == users' && managers == managers' && staff == staff' && products == products' && logs == logs'
      ensures nextUser == old(nextUser) && nextManager == old(nextManager)
      ensures nextStaff == old(nextStaff) && nextProduct == old(nextProduct)
    {
      users, managers, staff, products, logs := users', managers', staff', products', logs';
    }

    /** Deleting a user: its manager and staff profiles go with it, with the
        set-null effects their own deletion has. */
    method DeleteUser(uid: nat) returns (found: bool)
      requires Valid()
      modifies this
      ensures Valid()
      ensures found <==> uid in old(users)
      ensures users == old(users) - {uid}
      ensures managers == old(managers) - ManagerProfilesOf(old(managers), uid)
      ensures products == ProductsDetached(old(products), ManagerProfilesOf(old(managers), uid))
      ensures staff == StaffDetached(old(staff), ManagerProfilesOf(old(managers), uid)) - StaffProfilesOf(old(staff), uid)
      ensures logs == LogsUnattributed(old(logs), StaffProfilesOf(old(staff), uid))
      ensures nextUser == old(nextUser) && nextManager == old(nextManager)
      ensures nextStaff == old(nextStaff) && nextProduct == old(nextProduct)
    {
      var ms := ManagerProfilesOf(managers, uid);
      var ss := StaffProfilesOf(staff, uid);
      found := uid in users;
      DeleteUserKeepsConsistent(users, managers, staff, products, logs, uid);
      var staff' := StaffDetached(staff, ms) - ss;
      assert KeysBelow(users - {uid}, nextUser) && KeysBelow(managers - ms, nextManager);
      assert KeysBelow(staff', nextStaff) && KeysBelow(ProductsDetached(products, ms), nextProduct);
      Commit(users - {uid}, managers - ms, staff', ProductsDetached(products, ms), LogsUnattributed(logs, ss));
    }
  }

  /** A worked scenario: a clerk registers as staff, is promoted to manager by
      the role command, creates a product below its low threshold, restocks
      it, and then removes more than is left. The contracts alone fix every
      answer. */
  method RestockScenario(hasher: string -> string) {
    var store := new Store();
    var reg := store.Register("clerk", "clerk@example.com", "secret", Some(StaffRole), None, hasher);
    assert reg == Registered(0);
    assert store.staff == map[0 := Staff(0, None, "Staff Member", "Day")];
    var found := store.SetUserRole("clerk", ManagerRole);
    assert found && store.users[0].role == ManagerRole;
    var created := store.AddProduct(Product("Widget", "", 8, 10, 100, "tools", "X1", None));
    assert created == Ok(0);
    assert CheckStock(store.products[0]) == Low;
    assert StaffProfileOf(store.staff, 0) == Some(0);
    var added := store.UpdateStock(SignedIn(0), 0, Some(5), Some("add"), 1);
    assert added == Ok(StockReading(13, Normal));
    var removed := store.UpdateStock(SignedIn(0), 0, Some(20), Some("remove"), 2);
    assert removed == Ok(StockReading(0, Low));
    assert store.logs == [InventoryLog(0, "add", 5, 1, Some(0), ""), InventoryLog(0, "remove", 20, 2, Some(0), "")];
  }

  /** Registration is open to anonymous callers and `role` is a writable
      field, so anyone can create an account that passes `IsAdminUser`. */
  method AdminSelfRegistration(hasher: string -> string) {
    var store := new Store();
    var reg := store.Register("mallory", "mallory@example.com", "secret", Some(AdminRole), None, hasher);
    assert reg == Registered(0);
    assert store.managers == map[] && store.staff == map[];
    assert IsAdminUser(CallerOf(store.users, SignedIn(0)));
  }
}
