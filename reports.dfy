/**
  The read-only views over the store: the log lists of a product and of a
  staff member, the counts of a manager's staff and products, the low-stock
  statistics, and the inventory report with its counts per action type and
  its added/removed sums per product. Every one is a fold or a filter over
  the log sequence or the product table.
 */
module Reports {
  import opened Models
  import opened Grouping

  // ---------------------------------------------------------------------
  // Log filters
  // ---------------------------------------------------------------------

  /** `product.inventory_logs.all()`: the logs of product `pid`, in log
      order. */
  function ProductLogs(logs: seq<InventoryLog>, pid: nat): (r: seq<InventoryLog>)
    ensures |r| <= |logs|
    ensures forall l :: l in r <==> l in logs && l.product == pid
  {
    if logs == [] then []
    else if logs[0].product == pid then [logs[0]] + ProductLogs(logs[1..], pid)
    else ProductLogs(logs[1..], pid)
  }

  /** `InventoryLog.objects.filter(performed_by=staff)`: the logs that name
      staff profile `sid` as performer, in log order. */
  function StaffLogs(logs: seq<InventoryLog>, sid: nat): (r: seq<InventoryLog>)
    ensures |r| <= |logs|
    ensures forall l :: l in r <==> l in logs && l.performedBy == Some(sid)
  {
    if logs == [] then []
    else if logs[0].performedBy == Some(sid) then [logs[0]] + StaffLogs(logs[1..], sid)
    else StaffLogs(logs[1..], sid)
  }

  /** Deleting a product splits the log in two: the logs it cascades away
      are exactly the product's own list, and nothing else is lost. */
  lemma {:induction false} CascadePartitionsLogs(logs: seq<InventoryLog>, pid: nat)
    ensures multiset(ProductLogs(logs, pid)) + multiset(LogsWithoutProduct(logs, pid)) == multiset(logs)
    ensures |ProductLogs(logs, pid)| + |LogsWithoutProduct(logs, pid)| == |logs|
  {
    if logs != [] {
      CascadePartitionsLogs(logs[1..], pid);
      assert logs == [logs[0]] + logs[1..];
    }
  }

  /** Appending one log for product `pid` extends that product's list by
      exactly that log and leaves every other product's list as it was. */
  lemma {:induction false} ProductLogsAppend(logs: seq<InventoryLog>, l: InventoryLog, pid: nat)
    ensures ProductLogs(logs + [l], pid) == ProductLogs(logs, pid) + (if l.product == pid then [l] else [])
  {
    if logs != [] {
      assert (logs + [l])[1..] == logs[1..] + [l];
      ProductLogsAppend(logs[1..], l, pid);
    } else {
      assert [l][1..] == [];
    }
  }

  /** Appending one log performed by `sid` extends that staff member's list
      by exactly that log. */
  lemma {:induction false} StaffLogsAppend(logs: seq<InventoryLog>, l: InventoryLog, sid: nat)
    ensures StaffLogs(logs + [l], sid) == StaffLogs(logs, sid) + (if l.performedBy == Some(sid) then [l] else [])
  {
    if logs != [] {
      assert (logs + [l])[1..] == logs[1..] + [l];
      StaffLogsAppend(logs[1..], l, sid);
    } else {
      assert [l][1..] == [];
    }
  }

  // ---------------------------------------------------------------------
  // Manager report and a staff member's products
  // ---------------------------------------------------------------------

  /** `manager.staff.all()` */
  function ManagedStaff(staff: map<nat, Staff>, mid: nat): (r: set<nat>)
    ensures r <= staff.Keys
    ensures forall s :: s in r <==> s in staff && staff[s].manager == Some(mid)
  {
    set s | s in staff && staff[s].manager == Some(mid)
  }

  /** `manager.products.all()` */
  function ManagedProducts(products: map<nat, Product>, mid: nat): (r: set<nat>)
    ensures r <= products.Keys
    ensures forall p :: p in r <==> p in products && products[p].manager == Some(mid)
  {
    set p | p in products && products[p].manager == Some(mid)
  }

  datatype ManagerReport = ManagerReport(totalStaff: nat, totalProducts: nat)

  /** The manager report, and equally the serializer's `staff_count` and
      `product_count`: how many staff profiles and products name `mid` as
      their manager. An unknown manager is a failed object lookup. */
  function ManagerReportOf(managers: map<nat, Manager>, staff: map<nat, Staff>, products: map<nat, Product>, mid: nat)
    : (r: Result<ManagerReport>)
    ensures r.Ok? <==> mid in managers
    ensures r.Err? ==> r.fault == NotFound
    ensures r.Ok? ==> r.value.totalStaff == |ManagedStaff(staff, mid)| && r.value.totalProducts == |ManagedProducts(products, mid)|
  {
    if mid !in managers then Err(NotFound)
    else Ok(ManagerReport(|ManagedStaff(staff, mid)|, |ManagedProducts(products, mid)|))
  }

  /** After the managers in `gone` are deleted, none of them has staff or
      products left, and every other manager keeps exactly what it had. */
  lemma DetachClearsManagedSets(staff: map<nat, Staff>, products: map<nat, Product>, gone: set<nat>, mid: nat)
    ensures ManagedStaff(StaffDetached(staff, gone), mid) == if mid in gone then {} else ManagedStaff(staff, mid)
    ensures ManagedProducts(ProductsDetached(products, gone), mid) == if mid in gone then {} else ManagedProducts(products, mid)
  {
    var s' := StaffDetached(staff, gone);
    var p' := ProductsDetached(products, gone);
    if mid !in gone {
      forall s | s in staff ensures s' [s].manager == Some(mid) <==> staff[s].manager == Some(mid) {
        if staff[s].manager.Some? && staff[s].manager.value in gone {
          assert s'[s].manager == None;
        }
      }
      forall p | p in products ensures p'[p].manager == Some(mid) <==> products[p].manager == Some(mid) {
        if products[p].manager.Some? && products[p].manager.value in gone {
          assert p'[p].manager == None;
        }
      }
    }
  }

  /** `staff.manager.products.all()`: the products of the staff member's
      manager. An unknown staff profile is a failed object lookup; a staff
      profile without a manager makes the attribute access fail, which is
      the `NoManager` error here. */
  function StaffProducts(staff: map<nat, Staff>, products: map<nat, Product>, sid: nat): (r: Result<set<nat>>)
    ensures sid !in staff ==> r == Err(NotFound)
    ensures sid in staff && staff[sid].manager.None? ==> r == Err(NoManager)
    ensures r.Ok? <==> sid in staff && staff[sid].manager.Some?
    ensures r.Ok? ==> forall p :: p in r.value <==> p in products && products[p].manager == staff[sid].manager
  {
    if sid !in staff then Err(NotFound)
    else match staff[sid].manager
      case None => Err(NoManager)
      case Some(m) => Ok(ManagedProducts(products, m))
  }

  // ---------------------------------------------------------------------
  // Statistics
  // ---------------------------------------------------------------------

  /** `Product.objects.filter(quantity__lte=F('low_threshold'))`: exactly the
      products `check_stock` labels low. */
  function LowStock(products: map<nat, Product>): (r: set<nat>)
    ensures r <= products.Keys
    ensures forall p :: p in r <==> p in products && CheckStock(products[p]) == Low
  {
    set p | p in products && products[p].quantity <= products[p].lowThreshold
  }

  datatype Statistics = Statistics(totalProducts: nat, totalLogs: nat, lowStockProducts: set<nat>)

  /** The statistics view as intended: the number of products, the number
      of logs, and the low-stock products. */
  function StatisticsOf(products: map<nat, Product>, logs: seq<InventoryLog>): (r: Statistics)
    ensures r.totalProducts == |products| && r.totalLogs == |logs|
    ensures forall p :: p in r.lowStockProducts <==> p in products && CheckStock(products[p]) == Low
  {
    Statistics(|products|, |logs|, LowStock(products))
  }

  /** The statistics view as written: its first statement refers to
      `models`, a name the views module never imports, so every call fails
      with a NameError before anything is counted. */
  function StatisticsAsWritten(products: map<nat, Product>, logs: seq<InventoryLog>): (r: Result<Statistics>)
    ensures r == Err(UnboundName("models"))
  {
    Err(UnboundName("models"))
  }

  // ---------------------------------------------------------------------
  // Inventory report
  // ---------------------------------------------------------------------

  /** The logs whose action type is `a`, in log order. */
  function LogsWithAction(logs: seq<InventoryLog>, a: string): (r: seq<InventoryLog>)
    ensures |r| <= |logs|
    ensures forall l :: l in r <==> l in logs && l.actionType == a
  {
    if logs == [] then []
    else
      var last := logs[|logs| - 1];
      LogsWithAction(logs[..|logs| - 1], a) + (if last.actionType == a then [last] else [])
  }

  /** The sum of `quantity_change` over some logs. */
  function ChangeSum(logs: seq<InventoryLog>): int {
    if logs == [] then 0 else ChangeSum(logs[..|logs| - 1]) + logs[|logs| - 1].quantityChange
  }

  /** Grouping entries for the per-action count: one entry of weight 1 per
      log, keyed by its action type. */
  function ActionEntries(logs: seq<InventoryLog>): (e: seq<(string, int)>)
    ensures |e| == |logs|
    ensures forall i :: 0 <= i < |logs| ==> e[i] == (logs[i].actionType, 1)
  {
    if logs == [] then [] else ActionEntries(logs[..|logs| - 1]) + [(logs[|logs| - 1].actionType, 1)]
  }

  lemma {:induction false} ActionEntriesCount(logs: seq<InventoryLog>, a: string)
    ensures SumFor(ActionEntries(logs), a) == |LogsWithAction(logs, a)|
    ensures SumAll(ActionEntries(logs)) == |logs|
  {
    if logs != [] {
      var e := ActionEntries(logs);
      ActionEntriesCount(logs[..|logs| - 1], a);
      assert e[..|e| - 1] == ActionEntries(logs[..|logs| - 1]);
    }
  }

  /** `logs_by_action`: one bucket per distinct action type among the logs,
      counting the logs with that action type; the counts add up to the
      number of logs. */
  function LogsByAction(logs: seq<InventoryLog>): (r: seq<Bucket<string>>)
    ensures DistinctKeys(r)
    ensures forall a :: a in BucketKeys(r) <==> exists i :: 0 <= i < |logs| && logs[i].actionType == a
    ensures forall a :: Lookup(r, a) == |LogsWithAction(logs, a)|
    ensures Totals(r) == |logs|
  {
    var e := ActionEntries(logs);
    var r := Group(e);
    forall a ensures Lookup(r, a) == |LogsWithAction(logs, a)| {
      ActionEntriesCount(logs, a);
    }
    ActionEntriesCount(logs, "");
    assert forall a :: a in KeysOf(e) <==> exists i :: 0 <= i < |logs| && logs[i].actionType == a by {
      forall a | a in KeysOf(e) ensures exists i :: 0 <= i < |logs| && logs[i].actionType == a {
        var i :| 0 <= i < |e| && e[i].0 == a;
        assert logs[i].actionType == a;
      }
      forall a, i | 0 <= i < |logs| && logs[i].actionType == a ensures a in KeysOf(e) {
        assert e[i].0 == a;
      }
    }
    r
  }

  /** Every log refers to a product of `products`. */
  ghost predicate ProductsKnown(products: map<nat, Product>, logs: seq<InventoryLog>) {
    forall l :: l in logs ==> l.product in products
  }

  lemma ProductsKnownPrefix(products: map<nat, Product>, logs: seq<InventoryLog>)
    requires ProductsKnown(products, logs) && logs != []
    ensures ProductsKnown(products, logs[..|logs| - 1])
    ensures logs[|logs| - 1].product in products
  {
    forall l | l in logs[..|logs| - 1] ensures l.product in products {
      var i :| 0 <= i < |logs| - 1 && logs[..|logs| - 1][i] == l;
      assert logs[i] == l;
    }
    assert logs[|logs| - 1] in logs;
  }

  /** The names of the logged products. */
  function LoggedNames(products: map<nat, Product>, logs: seq<InventoryLog>): set<string>
    requires ProductsKnown(products, logs)
  {
    set l | l in logs :: products[l.product].name
  }

  /** The logs of products called `name`, in log order. */
  function LogsNamed(products: map<nat, Product>, logs: seq<InventoryLog>, name: string): (r: seq<InventoryLog>)
    requires ProductsKnown(products, logs)
  {
    if logs == [] then []
    else
      var last := logs[|logs| - 1];
      ProductsKnownPrefix(products, logs);
      LogsNamed(products, logs[..|logs| - 1], name) + (if products[last.product].name == name then [last] else [])
  }

  /** What one log adds to the `a` column of product name `name`. */
  function Weight(products: map<nat, Product>, l: InventoryLog, a: string, name: string): int
    requires l.product in products
  {
    if products[l.product].name == name && l.actionType == a then l.quantityChange else 0
  }

  /** Grouping entries for a movement column: one entry per log, keyed by
      its product's name, weighing its `quantity_change` when its action
      type is `a` and 0 otherwise. */
  function MovementEntries(products: map<nat, Product>, logs: seq<InventoryLog>, a: string): (e: seq<(string, int)>)
    requires ProductsKnown(products, logs)
    ensures |e| == |logs|
    ensures forall i :: 0 <= i < |logs| ==> logs[i].product in products && e[i].0 == products[logs[i].product].name
  {
    if logs == [] then []
    else
      var last := logs[|logs| - 1];
      ProductsKnownPrefix(products, logs);
      MovementEntries(products, logs[..|logs| - 1], a)
        + [(products[last.product].name, if last.actionType == a then last.quantityChange else 0)]
  }

  lemma LogsWithActionAppend(logs: seq<InventoryLog>, l: InventoryLog, a: string)
    ensures LogsWithAction(logs + [l], a) == LogsWithAction(logs, a) + (if l.actionType == a then [l] else [])
  {
    assert (logs + [l])[..|logs|] == logs;
  }

  lemma ChangeSumAppend(logs: seq<InventoryLog>, l: InventoryLog)
    ensures ChangeSum(logs + [l]) == ChangeSum(logs) + l.quantityChange
  {
    assert (logs + [l])[..|logs|] == logs;
  }

  /** The last log's entry adds its weight to the grouped sum. */
  lemma MovementEntriesStep(products: map<nat, Product>, logs: seq<InventoryLog>, a: string, name: string)
    requires ProductsKnown(products, logs) && logs != []
    ensures ProductsKnown(products, logs[..|logs| - 1]) && logs[|logs| - 1].product in products
    ensures SumFor(MovementEntries(products, logs, a), name)
         == SumFor(MovementEntries(products, logs[..|logs| - 1], a), name) + Weight(products, logs[|logs| - 1], a, name)
  {
    ProductsKnownPrefix(products, logs);
    var e := MovementEntries(products, logs, a);
    assert e[..|e| - 1] == MovementEntries(products, logs[..|logs| - 1], a);
  }

  /** The last log adds its weight to the filter-then-sum reference. */
  lemma MovementForStep(products: map<nat, Product>, logs: seq<InventoryLog>, a: string, name: string)
    requires ProductsKnown(products, logs) && logs != []
    ensures ProductsKnown(products, logs[..|logs| - 1]) && logs[|logs| - 1].product in products
    ensures MovementFor(products, logs, name, a)
         == MovementFor(products, logs[..|logs| - 1], name, a) + Weight(products, logs[|logs| - 1], a, name)
  {
    ProductsKnownPrefix(products, logs);
    var last := logs[|logs| - 1];
    var named := LogsNamed(products, logs[..|logs| - 1], name);
    if products[last.product].name == name {
      LogsWithActionAppend(named, last, a);
      if last.actionType == a {
        ChangeSumAppend(LogsWithAction(named, a), last);
      } else {
        assert LogsWithAction(named, a) + [] == LogsWithAction(named, a);
      }
    } else {
      assert named + [] == named;
    }
  }

  /** A movement column sums, per product name, the `quantity_change` of
      exactly the logs of that name and action type; the logs of any other
      action type add nothing. */
  lemma {:induction false} MovementEntriesSum(products: map<nat, Product>, logs: seq<InventoryLog>, a: string, name: string)
    requires ProductsKnown(products, logs)
    ensures SumFor(MovementEntries(products, logs, a), name) == MovementFor(products, logs, name, a)
  {
    if logs != [] {
      MovementEntriesStep(products, logs, a, name);
      MovementForStep(products, logs, a, name);
      MovementEntriesSum(products, logs[..|logs| - 1], a, name);
    }
  }

  datatype Movement = Movement(productName: string, totalAdded: int, totalRemoved: int)

  /** The sum of `quantity_change` over the `a` logs of products called
      `name`. */
  function MovementFor(products: map<nat, Product>, logs: seq<InventoryLog>, name: string, a: string): int
    requires ProductsKnown(products, logs)
  {
    ChangeSum(LogsWithAction(LogsNamed(products, logs, name), a))
  }

  /** One row per bucket of the `add` column, with the matching `remove`
      total. */
  function MovementRows(added: seq<Bucket<string>>, removed: seq<Bucket<string>>): (r: seq<Movement>)
    ensures |r| == |added|
    ensures forall i :: 0 <= i < |r| ==> r[i] == Movement(added[i].key, added[i].total, Lookup(removed, added[i].key))
  {
    seq(|added|, i requires 0 <= i < |added| => Movement(added[i].key, added[i].total, Lookup(removed, added[i].key)))
  }

  lemma MovementRowSums(products: map<nat, Product>, logs: seq<InventoryLog>, r: seq<Movement>)
    requires ProductsKnown(products, logs)
    requires r == MovementRows(Group(MovementEntries(products, logs, "add")), Group(MovementEntries(products, logs, "remove")))
    ensures forall i :: 0 <= i < |r| ==>
      && r[i].totalAdded == MovementFor(products, logs, r[i].productName, "add")
      && r[i].totalRemoved == MovementFor(products, logs, r[i].productName, "remove")
  {
    var added := Group(MovementEntries(products, logs, "add"));
    forall i | 0 <= i < |r|
      ensures r[i].totalAdded == MovementFor(products, logs, r[i].productName, "add")
      ensures r[i].totalRemoved == MovementFor(products, logs, r[i].productName, "remove")
    {
      LookupAt(added, i);
      MovementEntriesSum(products, logs, "add", added[i].key);
      MovementEntriesSum(products, logs, "remove", added[i].key);
    }
  }

  lemma MovementRowNames(products: map<nat, Product>, logs: seq<InventoryLog>, r: seq<Movement>, name: string)
    requires ProductsKnown(products, logs)
    requires r == MovementRows(Group(MovementEntries(products, logs, "add")), Group(MovementEntries(products, logs, "remove")))
    ensures (exists i :: 0 <= i < |r| && r[i].productName == name) <==> name in LoggedNames(products, logs)
  {
    var e := MovementEntries(products, logs, "add");
    var added := Group(e);
    if exists i :: 0 <= i < |r| && r[i].productName == name {
      var i :| 0 <= i < |r| && r[i].productName == name;
      assert added[i].key == name;
      assert name in KeysOf(e);
      var k :| 0 <= k < |e| && e[k].0 == name;
      assert logs[k] in logs;
    }
    if name in LoggedNames(products, logs) {
      var l :| l in logs && products[l.product].name == name;
      var k :| 0 <= k < |logs| && logs[k] == l;
      assert e[k].0 == name;
      assert name in KeysOf(e);
      assert name in BucketKeys(added);
      var i :| 0 <= i < |added| && added[i].key == name;
      assert r[i].productName == name;
    }
  }

  /** `product_movement`: one row per distinct name among the logged
      products, with the sums of `quantity_change` over its `add` and over
      its `remove` logs. */
  function ProductMovement(products: map<nat, Product>, logs: seq<InventoryLog>): (r: seq<Movement>)
    requires ProductsKnown(products, logs)
    ensures forall i, j :: 0 <= i < j < |r| ==> r[i].productName != r[j].productName
    ensures forall name :: (exists i :: 0 <= i < |r| && r[i].productName == name) <==> name in LoggedNames(products, logs)
    ensures forall i :: 0 <= i < |r| ==>
      && r[i].totalAdded == MovementFor(products, logs, r[i].productName, "add")
      && r[i].totalRemoved == MovementFor(products, logs, r[i].productName, "remove")
  {
    var added := Group(MovementEntries(products, logs, "add"));
    var r := MovementRows(added, Group(MovementEntries(products, logs, "remove")));
    MovementRowSums(products, logs, r);
    forall name ensures (exists i :: 0 <= i < |r| && r[i].productName == name) <==> name in LoggedNames(products, logs) {
      MovementRowNames(products, logs, r, name);
    }
    r
  }

  datatype InventoryReport = InventoryReport(totalLogs: nat, logsByAction: seq<Bucket<string>>, productMovement: seq<Movement>)

  /** The inventory report as intended. */
  function InventoryReportOf(products: map<nat, Product>, logs: seq<InventoryLog>): (r: InventoryReport)
    requires ProductsKnown(products, logs)
    ensures r.totalLogs == |logs| == Totals(r.logsByAction)
    ensures DistinctKeys(r.logsByAction)
    ensures forall a :: a in BucketKeys(r.logsByAction) <==> exists i :: 0 <= i < |logs| && logs[i].actionType == a
    ensures forall a :: Lookup(r.logsByAction, a) == |LogsWithAction(logs, a)|
    ensures forall i, j :: 0 <= i < j < |r.productMovement| ==> r.productMovement[i].productName != r.productMovement[j].productName
    ensures forall name :: (exists i :: 0 <= i < |r.productMovement| && r.productMovement[i].productName == name)
                           <==> name in LoggedNames(products, logs)
    ensures forall i :: 0 <= i < |r.productMovement| ==>
      && r.productMovement[i].totalAdded == MovementFor(products, logs, r.productMovement[i].productName, "add")
      && r.productMovement[i].totalRemoved == MovementFor(products, logs, r.productMovement[i].productName, "remove")
  {
    InventoryReport(|logs|, LogsByAction(logs), ProductMovement(products, logs))
  }

  /** The inventory report as written: after counting the logs it refers to
      `models`, a name the views module never imports, so every call fails
      with a NameError. */
  function InventoryReportAsWritten(products: map<nat, Product>, logs: seq<InventoryLog>): (r: Result<InventoryReport>)
    ensures r == Err(UnboundName("models"))
  {
    Err(UnboundName("models"))
  }
}
