/** Services and their tool bindings over all runs of the transactions. */
module Services {
  import opened Common
  import opened Management
  import opened Revisions

  type BindingTable = map<string, Binding>

  /** Every binding's service and connection exist and belong to one tenant. */
  ghost predicate BindingsOwned(db: Db) {
    forall b :: b in db.bindings ==> BindingOwned(db, db.bindings[b])
  }

  predicate BindingOwned(db: Db, b: Binding) {
    && b.service in db.services && b.conn in db.conns
    && db.conns[b.conn].tenant == db.services[b.service].tenant
  }

  /** Within a service, aliases and connection tools are unique, whatever their case. */
  ghost predicate BindingsDistinct(rules: Rules, bindings: BindingTable) {
    forall a, b :: a in bindings && b in bindings && a != b && bindings[a].service == bindings[b].service ==>
      !Clash(rules, Row(a, bindings[a]), Row(b, bindings[b]))
  }

  ghost predicate NoneBroken(bindings: BindingTable) {
    forall b :: b in bindings ==> bindings[b].status != BBroken
  }

  ghost predicate ServicesOk(rules: Rules, db: Db) {
    BindingsOwned(db) && BindingsDistinct(rules, db.bindings) && NoneBroken(db.bindings)
  }

  lemma {:induction false} WithRowsFacts(bindings: BindingTable, rows: seq<Row>)
    requires forall i, j :: 0 <= i < j < |rows| ==> rows[i].id != rows[j].id
    ensures
      var r := WithRows(bindings, rows);
      && (forall i :: 0 <= i < |rows| ==> rows[i].id in r && r[rows[i].id] == rows[i].binding)
      && (forall b :: b in r ==>
            (exists i :: 0 <= i < |rows| && rows[i].id == b) || (b in bindings && r[b] == bindings[b]))
  {
    if rows != [] {
      var front, last := rows[..|rows| - 1], rows[|rows| - 1];
      WithRowsFacts(bindings, front);
      var before, r := WithRows(bindings, front), WithRows(bindings, rows);
      assert r == before[last.id := last.binding];
      hide WithRows;
      forall b | b in r
        ensures (exists i :: 0 <= i < |rows| && rows[i].id == b) || (b in bindings && r[b] == bindings[b])
      {
        if b == last.id {
          assert rows[|rows| - 1].id == b;
        } else if i :| 0 <= i < |front| && front[i].id == b {
          assert rows[i].id == b;
        }
      }
      forall i | 0 <= i < |rows| ensures rows[i].id in r && r[rows[i].id] == rows[i].binding {
        if i < |front| {
          assert front[i] == rows[i];
        }
      }
    }
  }

  lemma {:induction false} WithRowsKeep(bindings: BindingTable, rows: seq<Row>, b: string)
    ensures b in bindings ==> b in WithRows(bindings, rows)
  {
    if rows != [] {
      WithRowsKeep(bindings, rows[..|rows| - 1], b);
    }
  }

  lemma SnapshotIdsDistinct(rules: Rules, service: string, rows: seq<Row>)
    requires ValidSnapshot(rules, service, rows)
    ensures forall i, j :: 0 <= i < j < |rows| ==> rows[i].id != rows[j].id
  {
    forall i, j | 0 <= i < j < |rows| ensures rows[i].id != rows[j].id {
      assert !Clash(rules, rows[i], rows[j]);
    }
  }

  /** A row of the new table is a row of the snapshot, or an untouched row of another service. */
  ghost predicate FromSnapshot(rows: seq<Row>, b: string, binding: Binding) {
    exists i :: 0 <= i < |rows| && rows[i] == Row(b, binding)
  }

  lemma ReplacedTable(rules: Rules, bindings: BindingTable, service: string, rows: seq<Row>, b: string)
    requires ValidSnapshot(rules, service, rows) && b in WithRows(WithoutService(bindings, service), rows)
    ensures
      var r := WithRows(WithoutService(bindings, service), rows);
      || FromSnapshot(rows, b, r[b])
      || (b in bindings && bindings[b].service != service && r[b] == bindings[b])
  {
    SnapshotIdsDistinct(rules, service, rows);
    WithRowsFacts(WithoutService(bindings, service), rows);
    hide WithRows, ValidSnapshot;
    var r := WithRows(WithoutService(bindings, service), rows);
    if i :| 0 <= i < |rows| && rows[i].id == b {
      assert rows[i] == Row(b, r[b]);
    }
  }

  /** A replacement leaves the service with exactly the snapshot, and every other service untouched. */
  lemma ReplaceIsExact(rules: Rules, db: Db, service: string, tenant: string, rows: seq<Row>, expected: int)
    requires ReplaceBindings(rules, db, service, tenant, rows, expected).Ok?
    ensures
      var r := ReplaceBindings(rules, db, service, tenant, rows, expected).value.bindings;
      && (forall i :: 0 <= i < |rows| ==> rows[i].id in r && r[rows[i].id] == rows[i].binding)
      && (forall b :: b in r && r[b].service == service ==> FromSnapshot(rows, b, r[b]))
      && (forall b :: b in db.bindings && db.bindings[b].service != service ==> b in r && r[b] == db.bindings[b])
  {
    hide LegalStatuses, ConnectionsOwned, ValidSnapshot, WithRows;
    var base := WithoutService(db.bindings, service);
    var r := WithRows(base, rows);
    SnapshotIdsDistinct(rules, service, rows);
    WithRowsFacts(base, rows);
    forall b | b in r && r[b].service == service ensures FromSnapshot(rows, b, r[b]) {
      ReplacedTable(rules, db.bindings, service, rows, b);
    }
    forall b | b in db.bindings && db.bindings[b].service != service ensures b in r && r[b] == db.bindings[b] {
      assert b in base;
      WithRowsKeep(base, rows, b);
    }
  }

  lemma ReplaceKeepsOwned(rules: Rules, db: Db, service: string, tenant: string, rows: seq<Row>, expected: int)
    requires BindingsOwned(db) && ReplaceBindings(rules, db, service, tenant, rows, expected).Ok?
    ensures BindingsOwned(ReplaceBindings(rules, db, service, tenant, rows, expected).value)
  {
    hide LegalStatuses, IdsFree;
    var db' := ReplaceBindings(rules, db, service, tenant, rows, expected).value;
    forall b | b in db'.bindings ensures BindingOwned(db', db'.bindings[b]) {
      ReplacedTable(rules, db.bindings, service, rows, b);
      hide WithRows, WithoutService, Clash;
      if FromSnapshot(rows, b, db'.bindings[b]) {
        var i :| 0 <= i < |rows| && rows[i] == Row(b, db'.bindings[b]);
        assert Owned(db, rows[i].binding.conn, tenant).Some? && rows[i].binding.service == service;
      } else {
        assert BindingOwned(db, db.bindings[b]);
      }
    }
  }

  lemma ReplaceKeepsDistinct(rules: Rules, bindings: BindingTable, service: string, rows: seq<Row>)
    requires BindingsDistinct(rules, bindings) && ValidSnapshot(rules, service, rows)
    ensures BindingsDistinct(rules, WithRows(WithoutService(bindings, service), rows))
  {
    hide WithRows, WithoutService;
    var r := WithRows(WithoutService(bindings, service), rows);
    forall a, b | a in r && b in r && a != b && r[a].service == r[b].service
      ensures !Clash(rules, Row(a, r[a]), Row(b, r[b]))
    {
      ReplacedTable(rules, bindings, service, rows, a);
      ReplacedTable(rules, bindings, service, rows, b);
      if FromSnapshot(rows, a, r[a]) && FromSnapshot(rows, b, r[b]) {
        var i :| 0 <= i < |rows| && rows[i] == Row(a, r[a]);
        var j :| 0 <= j < |rows| && rows[j] == Row(b, r[b]);
        ClashBothWays(rules, service, rows, i, j);
      } else {
        SnapshotIsOfService(rules, service, rows, a, r[a]);
        SnapshotIsOfService(rules, service, rows, b, r[b]);
      }
    }
  }

  lemma SnapshotIsOfService(rules: Rules, service: string, rows: seq<Row>, b: string, binding: Binding)
    requires ValidSnapshot(rules, service, rows)
    ensures FromSnapshot(rows, b, binding) ==> binding.service == service
  {
  }

  lemma ClashBothWays(rules: Rules, service: string, rows: seq<Row>, i: nat, j: nat)
    requires ValidSnapshot(rules, service, rows) && i < |rows| && j < |rows| && i != j
    ensures !Clash(rules, rows[i], rows[j])
  {
    assert !Clash(rules, if i < j then rows[i] else rows[j], if i < j then rows[j] else rows[i]);
  }

  lemma ReplaceKeepsUnbroken(rules: Rules, db: Db, service: string, tenant: string, rows: seq<Row>, expected: int)
    requires NoneBroken(db.bindings) && ReplaceBindings(rules, db, service, tenant, rows, expected).Ok?
    ensures NoneBroken(ReplaceBindings(rules, db, service, tenant, rows, expected).value.bindings)
  {
    hide ConnectionsOwned, IdsFree, WithRows, WithoutService, Clash;
    var r := WithRows(WithoutService(db.bindings, service), rows);
    forall b | b in r ensures r[b].status != BBroken {
      ReplacedTable(rules, db.bindings, service, rows, b);
      if FromSnapshot(rows, b, r[b]) {
        var i :| 0 <= i < |rows| && rows[i] == Row(b, r[b]);
        assert LegalBindingStatus(BindingStatusOf(db, service, rows[i].id), rows[i].binding.status);
      }
    }
  }

  /** No service goes away or changes hands, and only a replacement touches bindings. */
  lemma ServicesStay(rules: Rules, db: Db, a: Action)
    requires Recorded(db) && Run(rules, db, a).Ok?
    ensures
      var db' := Run(rules, db, a).value;
      && (forall s :: s in db.services ==> s in db'.services && db'.services[s].tenant == db.services[s].tenant)
      && (!a.DoBindings? ==> db'.bindings == db.bindings)
  {
    hide Staged, LegalTargets, ByTool, DistinctTools, HasBinding, IsSelected, BoundTo, Owned, RevisionOf, Get;
    hide WithRows, WithoutService, ValidSnapshot, ConnectionsOwned, LegalStatuses, IdsFree;
  }

  /** A disabled service's bindings stay as they are, and a status moves only along its table. */
  lemma DisabledServicesKeepTheirBindings(rules: Rules, db: Db, a: Action, s: string)
    requires Recorded(db) && Run(rules, db, a).Ok? && s in db.services
    ensures
      var db' := Run(rules, db, a).value;
      && s in db'.services
      && (db'.services[s].status == db.services[s].status
          || db'.services[s].status in LegalServiceTargets(db.services[s].status))
      && (db'.services[s] == db.services[s] || db'.services[s].version == db.services[s].version + 1)
      && (db.services[s].status == SDisabled ==> forall b ::
            (b in db'.bindings && db'.bindings[b].service == s <==> b in db.bindings && db.bindings[b].service == s)
            && (b in db.bindings && db.bindings[b].service == s ==> db'.bindings[b] == db.bindings[b]))
  {
    hide Staged, LegalTargets, ByTool, DistinctTools, HasBinding, IsSelected, BoundTo, Owned, RevisionOf, Get;
    hide WithRows, WithoutService, ValidSnapshot, ConnectionsOwned, LegalStatuses, IdsFree;
    if a.DoBindings? && a.service != s {
      var db' := Run(rules, db, a).value;
      ReplaceIsExact(rules, db, a.service, a.tenant, a.snapshot, a.expected);
      forall b | b in db'.bindings && db'.bindings[b].service == s
        ensures b in db.bindings && db.bindings[b].service == s
      {
        ReplacedTable(rules, db.bindings, a.service, a.snapshot, b);
        SnapshotIsOfService(rules, a.service, a.snapshot, b, db'.bindings[b]);
      }
    }
  }

  lemma ServicesStep(rules: Rules, db: Db, a: Action)
    requires Recorded(db) && ServicesOk(rules, db) && Run(rules, db, a).Ok?
    ensures ServicesOk(rules, Run(rules, db, a).value)
  {
    ServicesStay(rules, db, a);
    var db' := Run(rules, db, a).value;
    if a.DoBindings? {
      hide BindingsOwned, BindingsDistinct, NoneBroken;
      ReplaceKeepsOwned(rules, db, a.service, a.tenant, a.snapshot, a.expected);
      ReplaceKeepsDistinct(rules, db.bindings, a.service, a.snapshot);
      ReplaceKeepsUnbroken(rules, db, a.service, a.tenant, a.snapshot, a.expected);
    } else {
      hide Run, BindingsDistinct, NoneBroken;
      forall b | b in db'.bindings ensures BindingOwned(db', db'.bindings[b]) {
        assert BindingOwned(db, db.bindings[b]);
        ConnectionsMoveLegally(rules, db, a, db.bindings[b].conn);
        assert HasBinding(db, db.bindings[b].conn);
      }
    }
  }

  /** Over all runs every tool binding's connection exists and has its service's tenant, each
      service's aliases and connection tools stay unique under casefold, and none is ever broken. */
  lemma {:induction false} BindingsStaySound(rules: Rules, actions: seq<Action>)
    ensures ServicesOk(rules, RunAll(rules, EMPTY, actions))
  {
    if actions != [] {
      var front, last := actions[..|actions| - 1], actions[|actions| - 1];
      BindingsStaySound(rules, front);
      AlwaysSound(rules, front);
      hide Run, ServicesOk, SelectorsOk, RowsNamed, Recorded;
      if Run(rules, RunAll(rules, EMPTY, front), last).Ok? {
        ServicesStep(rules, RunAll(rules, EMPTY, front), last);
      }
    }
  }
}
