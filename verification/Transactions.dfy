/** When each management transaction succeeds, and what it leaves in the tables, each condition and each
    written field of the source once. */
module Transactions {
  import opened Common
  import opened Management

  /** The row of this connection, as this tenant may change it at this version. */
  predicate Holds(db: Db, id: string, tenant: string, version: int) {
    id in db.conns && db.conns[id].tenant == tenant && db.conns[id].version == version
  }

  /** The tables with one connection row replaced, and its configuration remembered at its version. */
  function WithRow(db: Db, id: string, c: Conn): Db {
    db.(conns := db.conns[id := c], history := db.history[(id, c.version) := c.config])
  }

  /** A status may be kept, and else only three moves are refused: to `error` from anywhere but `active`,
      and from `active` back to `draft`. */
  predicate MayMove(a: Status, b: Status) {
    a == b || (if b == Error then a == Active else !(a == Active && b == Draft))
  }

  lemma StatusesMoveExactly(a: Status, b: Status)
    ensures b in LegalTargets(a) <==> MayMove(a, b)
  {
  }

  /** A service is switched on and off, and a disabled one may become a draft again; no state is entered
      from itself. */
  lemma ServicesMoveExactly(a: ServiceStatus, b: ServiceStatus)
    ensures b in LegalServiceTargets(a) <==> a != b && !(a == SActive && b == SDraft)
  {
  }

  lemma CreatesExactly(rules: Rules, db: Db, id: string, c: Conn, credentials: map<string, string>)
    ensures
      var o := Run(rules, db, DoCreate(id, c, credentials));
      && (o.Ok? <==>
            && c.version == 1 && (c.status == Draft || (c.status == Active && c.kind != Declarative))
            && (c.kind == Declarative ==> c.config == map[] && credentials == map[])
            && c.tenant in db.live && id !in db.used && "" !in credentials)
      && (o.Ok? ==> o.value == WithRow(db, id, c).(creds := db.creds[id := credentials], used := db.used + {id}))
      && (o.Err? ==> o.error == Invalid)
  {
  }

  lemma UpdatesExactly(
    db: Db, id: string, tenant: string, name: string, mode: string, config: Config, status: Option<Status>,
    expected: int)
    ensures
      var o := UpdateConnection(db, id, tenant, name, mode, config, status, expected);
      && (o.Ok? <==>
            && tenant in db.live && Holds(db, id, tenant, expected)
            && (status.Some? ==> MayMove(db.conns[id].status, status.value))
            && !(status == Some(Active) && db.conns[id].kind == Declarative && db.conns[id].status != Active))
      && (o.Ok? ==>
            var c := db.conns[id];
            o.value == WithRow(db, id, Conn(tenant, c.kind, name, if status.Some? then status.value else c.status,
                                            mode, config, expected + 1)))
    ensures
      var o := UpdateConnection(db, id, tenant, name, mode, config, status, expected);
      o.Err? ==> o.error == if tenant !in db.live then Invalid
                            else if id !in db.conns || db.conns[id].tenant != tenant then NotFound
                            else if db.conns[id].version != expected then Conflict
                            else Invalid
  {
  }

  /** The use case never activates a declarative connection, and takes back only the configuration that
      was committed at the expected version. */
  lemma UseCaseUpdatesExactly(
    rules: Rules, db: Db, id: string, tenant: string, name: string, mode: string, config: Config,
    status: Option<Status>, expected: int)
    ensures
      var o, all := Run(rules, db, DoUpdate(id, tenant, name, mode, config, status, expected)),
                    UpdateConnection(db, id, tenant, name, mode, config, status, expected);
      && (o.Ok? <==> all.Ok? && (db.conns[id].kind == Declarative ==>
            status != Some(Active) && (id, expected) in db.history && db.history[(id, expected)] == config))
      && (o.Ok? ==> o == all)
  {
  }

  lemma DisablesExactly(rules: Rules, db: Db, id: string, tenant: string)
    ensures
      var o := Run(rules, db, DoDisable(id, tenant));
      && (o.Ok? <==> id in db.conns && db.conns[id].tenant == tenant)
      && (o.Ok? ==>
            var c := db.conns[id];
            o.value == WithRow(db, id, Conn(tenant, c.kind, c.name, Disabled, c.mode, c.config, c.version + 1)))
      && (o.Err? ==> o.error == NotFound)
  {
  }

  lemma DeletesExactly(rules: Rules, db: Db, id: string, tenant: string)
    ensures
      var o := Run(rules, db, DoDelete(id, tenant));
      && (o.Ok? <==>
            && id in db.conns && db.conns[id].tenant == tenant
            && forall b :: b in db.bindings ==> db.bindings[b].conn != id)
      && (o.Ok? ==> o.value == db.(conns := db.conns - {id}))
    ensures
      var o := Run(rules, db, DoDelete(id, tenant));
      o.Err? ==> o.error == if id !in db.conns || db.conns[id].tenant != tenant then NotFound else InUse
  {
  }

  lemma ReplacesCredentialsExactly(
    rules: Rules, db: Db, id: string, tenant: string, credentials: map<string, string>, expected: int)
    ensures
      var o := Run(rules, db, DoCredentials(id, tenant, credentials, expected));
      && (o.Ok? <==> Holds(db, id, tenant, expected))
      && (o.Ok? ==> o.value == WithRow(db, id, db.conns[id].(version := expected + 1))
                               .(creds := db.creds[id := credentials]))
    ensures
      var o := Run(rules, db, DoCredentials(id, tenant, credentials, expected));
      o.Err? ==> o.error == if id in db.conns && db.conns[id].version != expected then Conflict else NotFound
  {
  }

  /** Exactly these policies, each under its tool. */
  ghost predicate AreExactly(policies: map<string, Policy>, list: seq<Policy>) {
    && (forall i :: 0 <= i < |list| ==> list[i].tool in policies && policies[list[i].tool] == list[i])
    && (forall t :: t in policies ==> exists i :: 0 <= i < |list| && list[i].tool == t)
  }

  lemma ByToolIsExact(list: seq<Policy>)
    requires DistinctTools(list)
    ensures AreExactly(ByTool(list), list)
  {
    hide ByTool, DistinctTools;
    forall i: nat | i < |list| ensures list[i].tool in ByTool(list) && ByTool(list)[list[i].tool] == list[i] {
      ByToolHolds(list, i);
    }
    forall t | t in ByTool(list) ensures exists i :: 0 <= i < |list| && list[i].tool == t {
      ByToolNames(list, t);
    }
  }

  lemma ReplacesPoliciesExactly(rules: Rules, db: Db, id: string, tenant: string, list: seq<Policy>, expected: int)
    ensures
      var o := Run(rules, db, DoPolicies(id, tenant, list, expected));
      && (o.Ok? <==>
            Holds(db, id, tenant, expected) && forall i, j :: 0 <= i < j < |list| ==> list[i].tool != list[j].tool)
      && (o.Ok? ==>
            && id in o.value.policies && AreExactly(o.value.policies[id], list)
            && o.value == WithRow(db, id, db.conns[id].(version := expected + 1))
                          .(policies := db.policies[id := o.value.policies[id]]))
    ensures
      var o := Run(rules, db, DoPolicies(id, tenant, list, expected));
      o.Err? ==> o.error == if id in db.conns && db.conns[id].version != expected then Conflict
                            else if id !in db.conns || db.conns[id].tenant != tenant then NotFound
                            else Invalid
  {
    hide ByTool, AreExactly;
    if DistinctTools(list) {
      ByToolIsExact(list);
    }
  }

  /** A declarative connection between two activations. */
  predicate IsChangeable(c: Conn) { c.kind == Declarative && c.status != Active && c.status != Error }

  lemma SavesExactly(rules: Rules, db: Db, sel: Sel, tenant: string, id: string, content: Content, expected: int)
    ensures
      var o := Run(rules, db, DoSave(sel, tenant, id, content, expected));
      && (o.Ok? <==>
            && sel.spec != "" && sel.rev >= 1 && Holds(db, id, tenant, expected)
            && IsChangeable(db.conns[id]) && rules.valid(content, db.conns[id].mode)
            && RevKey(tenant, sel) !in db.revisions)
      && (o.Ok? ==> o.value == db.(revisions := db.revisions[RevKey(tenant, sel) := RevRow(id, false, content)]))
    ensures
      var o := Run(rules, db, DoSave(sel, tenant, id, content, expected));
      o.Err? ==> o.error == if && sel.spec != "" && sel.rev >= 1 && id in db.conns && db.conns[id].tenant == tenant
                               && db.conns[id].version != expected then Conflict
                            else Invalid
  {
  }

  /** A revision of this connection that still validates in its mode. */
  predicate MayBeSelected(rules: Rules, db: Db, sel: Sel, tenant: string, id: string) {
    && id in db.conns && RevKey(tenant, sel) in db.revisions && db.revisions[RevKey(tenant, sel)].conn == id
    && rules.valid(db.revisions[RevKey(tenant, sel)].content, db.conns[id].mode)
  }

  /** Publishing sets the two keys of one selector, and leaves every other key of the configuration. */
  lemma PublishesExactly(rules: Rules, db: Db, sel: Sel, tenant: string, id: string, expected: int)
    ensures
      var o, k := Run(rules, db, DoPublish(sel, tenant, id, expected)), RevKey(tenant, sel);
      && (o.Ok? <==>
            Holds(db, id, tenant, expected) && IsChangeable(db.conns[id]) && MayBeSelected(rules, db, sel, tenant, id))
      && (o.Ok? ==>
            var c := db.conns[id];
            var config := if c.status == Draft then c.config[SpecId := Text(sel.spec)][Revision := Number(sel.rev)]
                          else c.config[PendingSpecId := Text(sel.spec)][PendingRevision := Number(sel.rev)];
            o.value == WithRow(db, id, Conn(tenant, c.kind, c.name, c.status, c.mode, config, expected + 1))
                       .(revisions := db.revisions[k := RevRow(id, true, db.revisions[k].content)]))
    ensures
      var o, k := Run(rules, db, DoPublish(sel, tenant, id, expected)), RevKey(tenant, sel);
      o.Err? ==> o.error == if id !in db.conns || db.conns[id].tenant != tenant then NotFound
                            else if db.conns[id].version != expected then Conflict
                            else if !IsChangeable(db.conns[id]) then Invalid
                            else if k !in db.revisions || db.revisions[k].conn != id then NotFound
                            else Invalid
  {
  }

  /** Activation moves the staged selector to the current keys, drops the pending ones, and leaves every
      other key of the configuration. */
  lemma ActivatesExactly(rules: Rules, db: Db, sel: Sel, tenant: string, id: string, expected: int)
    ensures
      var o, k := Run(rules, db, DoActivate(sel, tenant, id, expected)), RevKey(tenant, sel);
      && (o.Ok? <==>
            && tenant in db.live && Holds(db, id, tenant, expected) && IsChangeable(db.conns[id])
            && IsStaged(db.conns[id].config, sel)
            && MayBeSelected(rules, db, sel, tenant, id) && db.revisions[k].published)
      && (o.Ok? ==>
            && var c := db.conns[id];
            && id in o.value.conns
            && var config := o.value.conns[id].config;
            && o.value == WithRow(db, id, Conn(tenant, Declarative, c.name, Active, c.mode, config, expected + 1))
            && Selects(config, sel, c.config))
  {
    if id in db.conns {
      SelectedNow(db.conns[id].config, sel);
    }
    hide Selects, Activated;
  }

  /** The current keys name this revision, the pending ones are gone, and the rest is as before. */
  ghost predicate Selects(config: Config, sel: Sel, before: Config) {
    && Get(config, SpecId) == Some(Text(sel.spec)) && Get(config, Revision) == Some(Number(sel.rev))
    && PendingSpecId !in config && PendingRevision !in config
    && forall x :: x != SpecId && x != Revision && x != PendingSpecId && x != PendingRevision ==>
         Get(config, x) == Get(before, x)
  }

  lemma SelectedNow(config: Config, sel: Sel)
    ensures Selects(Activated(config, sel), sel, config)
  {
  }

  /** What is checked first is reported. */
  lemma ActivationFailsExactly(rules: Rules, db: Db, sel: Sel, tenant: string, id: string, expected: int)
    ensures
      var o, k := Run(rules, db, DoActivate(sel, tenant, id, expected)), RevKey(tenant, sel);
      o.Err? ==> o.error == if tenant !in db.live then Invalid
                            else if id !in db.conns || db.conns[id].tenant != tenant then NotFound
                            else if db.conns[id].version != expected then Conflict
                            else if !IsChangeable(db.conns[id]) || !IsStaged(db.conns[id].config, sel) then Invalid
                            else if k !in db.revisions || db.revisions[k].conn != id || !db.revisions[k].published
                              then NotFound
                            else Invalid
  {
  }

  /** The keys that count name this revision: the pending ones where a document is pending. */
  predicate IsStaged(config: Config, sel: Sel) {
    if PendingSpecId in config && config[PendingSpecId].Text? && config[PendingSpecId].s != ""
    then config[PendingSpecId] == Text(sel.spec) && Get(config, PendingRevision) == Some(Number(sel.rev))
    else Get(config, SpecId) == Some(Text(sel.spec)) && Get(config, Revision) == Some(Number(sel.rev))
  }

  /** Neither pair of selector keys names this revision, and neither is damaged. */
  predicate IsFree(config: Config, sel: Sel) {
    NamesAnother(config, SpecId, Revision, sel) && NamesAnother(config, PendingSpecId, PendingRevision, sel)
  }

  predicate NamesAnother(config: Config, spec: ConfigKey, rev: ConfigKey, sel: Sel) {
    || (spec !in config && rev !in config)
    || (&& spec in config && config[spec].Text? && config[spec].s != ""
        && rev in config && config[rev].Number? && config[rev].n >= 1
        && (config[spec].s != sel.spec || config[rev].n != sel.rev))
  }

  /** A draft revision can always be deleted by the owner; a published one only while no selector of its
      declarative connection names it and no binding uses one of its tools. */
  lemma DeletesRevisionExactly(rules: Rules, db: Db, sel: Sel, tenant: string, id: string)
    ensures
      var o, k := Run(rules, db, DoDeleteRevision(sel, tenant, id)), RevKey(tenant, sel);
      && (o.Ok? <==>
            && k in db.revisions && db.revisions[k].conn == id && id in db.conns && db.conns[id].tenant == tenant
            && (db.revisions[k].published ==>
                  && db.conns[id].kind == Declarative && IsFree(db.conns[id].config, sel)
                  && forall b :: b in db.bindings && db.bindings[b].conn == id ==>
                       !Declares(rules.tools(db.revisions[k].content), db.bindings[b].tool)))
      && (o.Ok? ==> o.value == db.(revisions := db.revisions - {k}))
    ensures
      var o, k := Run(rules, db, DoDeleteRevision(sel, tenant, id)), RevKey(tenant, sel);
      o.Err? ==> o.error == if k in db.revisions && db.revisions[k].conn == id then InUse else NotFound
  {
    if RevKey(tenant, sel) in db.revisions {
      BoundExactly(rules, db, id, db.revisions[RevKey(tenant, sel)].content);
    }
    hide BoundTo, Declares;
  }

  predicate Declares(tools: seq<ToolDecl>, key: string) { exists i :: 0 <= i < |tools| && tools[i].key == key }

  lemma BoundExactly(rules: Rules, db: Db, id: string, content: Content)
    ensures BoundTo(rules, db, id, content) <==>
            exists b :: && b in db.bindings && db.bindings[b].conn == id
                        && Declares(rules.tools(content), db.bindings[b].tool)
  {
    if b :| b in db.bindings && db.bindings[b].conn == id && Declares(rules.tools(content), db.bindings[b].tool) {
      assert BoundTo(rules, db, id, content);
    }
  }

  lemma CreatesServicesExactly(rules: Rules, db: Db, service: string, tenant: string)
    ensures
      var o := Run(rules, db, DoCreateService(service, tenant));
      && (o.Ok? <==> tenant in db.live && service !in db.used)
      && (o.Ok? ==> o.value == db.(services := db.services[service := Service(tenant, SDraft, 1)],
                                   used := db.used + {service}))
      && (o.Err? ==> o.error == Invalid)
  {
  }

  lemma MovesServicesExactly(
    rules: Rules, db: Db, service: string, tenant: string, status: ServiceStatus, expected: int)
    ensures
      var o := Run(rules, db, DoServiceStatus(service, tenant, status, expected));
      && (o.Ok? <==>
            && expected >= 1 && (status == SActive ==> tenant in db.live)
            && service in db.services && db.services[service].tenant == tenant
            && db.services[service].version == expected
            && db.services[service].status != status && !(db.services[service].status == SActive && status == SDraft))
      && (o.Ok? ==> o.value == db.(services := db.services[service := Service(tenant, status, expected + 1)]))
    ensures
      var o := Run(rules, db, DoServiceStatus(service, tenant, status, expected));
      o.Err? ==> o.error == if expected < 1 || (status == SActive && tenant !in db.live) then Invalid
                            else if service !in db.services || db.services[service].tenant != tenant then NotOwned
                            else if db.services[service].version != expected then Conflict
                            else Invalid
  {
  }

  /** Two rows of one service that must not stand together: the same id, the same alias, or the same tool
      of the same connection, each without regard to case. */
  predicate MustNotMeet(rules: Rules, a: Row, b: Row) {
    || rules.fold(a.id) == rules.fold(b.id)
    || rules.fold(a.binding.alias) == rules.fold(b.binding.alias)
    || [rules.fold(a.binding.conn), rules.fold(a.binding.tool)]
       == [rules.fold(b.binding.conn), rules.fold(b.binding.tool)]
  }

  /** A row may not turn broken here, and a broken one of this service may not turn disabled. */
  predicate MayStand(db: Db, service: string, row: Row) {
    var broken := && row.id in db.bindings && db.bindings[row.id].service == service
                  && db.bindings[row.id].status == BBroken;
    if broken then row.binding.status != BDisabled else row.binding.status != BBroken
  }

  /** The row's connection is the tenant's. */
  predicate UsesOwn(db: Db, row: Row, tenant: string) {
    row.binding.conn in db.conns && db.conns[row.binding.conn].tenant == tenant
  }

  /** The rows are of this service, and no two of them meet. */
  predicate IsSnapshot(rules: Rules, service: string, snapshot: seq<Row>) {
    && (forall i :: 0 <= i < |snapshot| ==> snapshot[i].binding.service == service)
    && (forall i, j :: 0 <= i < j < |snapshot| ==> !MustNotMeet(rules, snapshot[i], snapshot[j]))
  }

  lemma ReplacesBindingsExactly(
    rules: Rules, db: Db, service: string, tenant: string, snapshot: seq<Row>, expected: int)
    ensures
      var o := Run(rules, db, DoBindings(service, tenant, snapshot, expected));
      && (o.Ok? <==>
            && expected >= 1 && IsSnapshot(rules, service, snapshot)
            && (forall i :: 0 <= i < |snapshot| ==> UsesOwn(db, snapshot[i], tenant))
            && service in db.services && db.services[service].tenant == tenant
            && db.services[service].version == expected
            && db.services[service].status != SDisabled
            && (forall i :: 0 <= i < |snapshot| ==> MayStand(db, service, snapshot[i]))
            && (forall i :: 0 <= i < |snapshot| ==>
                  snapshot[i].id in db.bindings ==> db.bindings[snapshot[i].id].service == service))
      && (o.Ok? ==>
            var next := Service(tenant, db.services[service].status, expected + 1);
            o.value == db.(bindings := o.value.bindings, services := db.services[service := next]))
    ensures
      var o := Run(rules, db, DoBindings(service, tenant, snapshot, expected));
      o.Err? ==> o.error == if expected < 1 || !IsSnapshot(rules, service, snapshot) then Invalid
                            else if || service !in db.services || db.services[service].tenant != tenant
                                    || exists i :: 0 <= i < |snapshot| && !UsesOwn(db, snapshot[i], tenant)
                              then NotOwned
                            else if db.services[service].version != expected then Conflict
                            else Invalid
  {
    SnapshotsExactly(rules, service, snapshot);
    StatusesExactly(db, service, snapshot);
    hide WithRows, ValidSnapshot, LegalStatuses, IsSnapshot, MayStand;
  }

  lemma SnapshotsExactly(rules: Rules, service: string, snapshot: seq<Row>)
    ensures ValidSnapshot(rules, service, snapshot) <==> IsSnapshot(rules, service, snapshot)
  {
    forall i, j | 0 <= i < j < |snapshot|
      ensures Clash(rules, snapshot[i], snapshot[j]) <==> MustNotMeet(rules, snapshot[i], snapshot[j])
    {
    }
    hide Clash, MustNotMeet;
  }

  lemma StatusesExactly(db: Db, service: string, snapshot: seq<Row>)
    ensures LegalStatuses(db, service, snapshot) <==>
            forall i :: 0 <= i < |snapshot| ==> MayStand(db, service, snapshot[i])
  {
    forall i | 0 <= i < |snapshot|
      ensures LegalBindingStatus(BindingStatusOf(db, service, snapshot[i].id), snapshot[i].binding.status)
              <==> MayStand(db, service, snapshot[i])
    {
    }
    hide MayStand, LegalBindingStatus, BindingStatusOf;
  }

  /** A retirement takes the tenant out, disables each of its connections and services that is not, with
      one more version, and touches nothing else. */
  lemma RetiresExactly(rules: Rules, db: Db, tenant: string)
    ensures
      && Run(rules, db, DoRetire(tenant)).Ok?
      && var db' := Run(rules, db, DoRetire(tenant)).value;
      && db'.live == db.live - {tenant} && db'.conns.Keys == db.conns.Keys && db'.services.Keys == db.services.Keys
      && (forall id :: id in db.conns ==>
            var c := db.conns[id];
            db'.conns[id] == if c.tenant != tenant || c.status == Disabled then c
                             else Conn(c.tenant, c.kind, c.name, Disabled, c.mode, c.config, c.version + 1))
      && (forall s :: s in db.services ==>
            var v := db.services[s];
            db'.services[s] == if v.tenant != tenant || v.status == SDisabled then v
                               else Service(v.tenant, SDisabled, v.version + 1))
      && db' == db.(live := db'.live, conns := db'.conns, services := db'.services, history := db'.history)
  {
  }
  /** The status of a tenant decides what may be created and activated, and nothing else. */
  lemma SwitchesTenantsExactly(rules: Rules, db: Db, tenant: string, live: bool)
    ensures
      && Run(rules, db, DoTenant(tenant, live)).Ok?
      && var db' := Run(rules, db, DoTenant(tenant, live)).value;
      && db' == db.(live := db'.live) && forall t :: t in db'.live <==> if t == tenant then live else t in db.live
  {
  }
}
