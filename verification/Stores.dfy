/** The store transactions as they change their tables, row by row. A transaction works on copies of
    the tables it writes, and commits them together at its end. */
module Stores {
  import opened Common
  import opened Management
  import opened Revisions
  import opened Services

  /** A transaction either commits what its specification says, or fails and changes nothing. */
  ghost predicate Commits(before: Db, after: Db, spec: Outcome, r: Result<(), Failure>) {
    if spec.Ok? then r == Ok(()) && after == spec.value else r == Err(spec.error) && after == before
  }

  // ----- what a caller may rely on afterwards -----

  ghost predicate AllSound(rules: Rules, db: Db) { Sound(db) && ServicesOk(rules, db) }

  /** A step of the use cases keeps everything that is kept. */
  lemma StepKeepsAllSound(rules: Rules, db: Db, a: Action)
    requires AllSound(rules, db)
    ensures Run(rules, db, a).Ok? ==> AllSound(rules, Run(rules, db, a).value)
  {
    hide Run, ServicesOk, SelectorsOk, RowsNamed;
    if Run(rules, db, a).Ok? {
      SoundStep(rules, db, a);
      ServicesStep(rules, db, a);
    }
  }

  /** Nothing but one connection's row changed; it moved legally and took the next version. */
  predicate RowOnly(before: Db, after: Db, id: string) {
    && id in before.conns && id in after.conns
    && after == before.(conns := before.conns[id := after.conns[id]], history := after.history)
    && MovesLegally(before.conns[id], after.conns[id]) && after.conns[id].version == before.conns[id].version + 1
  }

  /** An update changes one row, never activates a declarative connection, and keeps the selectors of
      one whose configuration it sends back unchanged. */
  lemma UpdateEffect(
    rules: Rules, db: Db, id: string, tenant: string, name: string, mode: string, config: Config,
    status: Option<Status>, expected: int)
    requires AllSound(rules, db) && UpdateConnection(db, id, tenant, name, mode, config, status, expected).Ok?
    ensures
      var db' := UpdateConnection(db, id, tenant, name, mode, config, status, expected).value;
      && RowOnly(db, db', id)
      && (db.conns[id].kind.Declarative? && db'.conns[id].status == Active ==> db.conns[id].status == Active)
      && ((db.conns[id].kind.Declarative? ==> config == db.conns[id].config) ==> AllSound(rules, db'))
  {
    hide BindingsDistinct, NoneBroken, CurrentPair, PendingPair, PairOk;
    var db' := UpdateConnection(db, id, tenant, name, mode, config, status, expected).value;
    if db.conns[id].kind.Declarative? ==> config == db.conns[id].config {
      assert ConnOk(db.revisions, id, db.conns[id]);
      var next := if status.Some? then status.value else db.conns[id].status;
      BumpKeepsSound(db, id, db.conns[id].(name := name, mode := mode, config := config, status := next));
      hide Sound;
      forall b | b in db'.bindings ensures BindingOwned(db', db'.bindings[b]) {
        assert BindingOwned(db, db.bindings[b]);
      }
    }
  }

  /** Disabling is never refused to the owner: every status may move to disabled. */
  lemma DisableEffect(db: Db, id: string, tenant: string)
    ensures DisableConnection(db, id, tenant).Ok? <==> Owned(db, id, tenant).Some?
    ensures DisableConnection(db, id, tenant).Ok? ==>
      var db' := DisableConnection(db, id, tenant).value;
      RowOnly(db, db', id) && db'.conns[id].status == Disabled && db'.conns[id].config == db.conns[id].config
  {
  }

  /** Publishing marks one row and sets one selector pair; the other pair, the status and every other
      revision stay. */
  predicate PublishedOnly(before: Db, after: Db, sel: Sel, tenant: string, id: string) {
    var k := RevKey(tenant, sel);
    && RowOnly(before.(revisions := after.revisions), after, id)
    && k in before.revisions && after.revisions == before.revisions[k := before.revisions[k].(published := true)]
    && IsPublished(after.revisions, id, tenant, sel)
    && var c, c' := before.conns[id], after.conns[id];
    && c'.status == c.status && c.status != Active
    && CurrentPair(c'.config) == (if c.status == Draft then Ok(Some(sel)) else CurrentPair(c.config))
    && PendingPair(c'.config) == (if c.status == Draft then PendingPair(c.config) else Ok(Some(sel)))
  }

  lemma PublishEffect(rules: Rules, db: Db, sel: Sel, tenant: string, id: string, expected: int)
    requires Sound(db) && Management.PublishRevision(rules, db, sel, tenant, id, expected).Ok?
    ensures PublishedOnly(db, Management.PublishRevision(rules, db, sel, tenant, id, expected).value, sel, tenant, id)
  {
    hide CurrentPair, PendingPair, SelectorsOk, Recorded;
    PublishedPairs(db.conns[id], sel);
  }

  /** Activation takes exactly the revision that was staged, and leaves no pending selector. */
  predicate ActivatedOnly(before: Db, after: Db, sel: Sel, tenant: string, id: string) {
    && RowOnly(before, after, id) && PendingIdentity(before.conns[id]) == Some(sel)
    && IsPublished(after.revisions, id, tenant, sel)
    && after.conns[id].status == Active && CurrentPair(after.conns[id].config) == Ok(Some(sel))
    && PendingSpecId !in after.conns[id].config && PendingRevision !in after.conns[id].config
  }

  lemma ActivateEffect(rules: Rules, db: Db, sel: Sel, tenant: string, id: string, expected: int)
    requires Sound(db) && Management.ActivateRevision(rules, db, sel, tenant, id, expected).Ok?
    ensures ActivatedOnly(db, Management.ActivateRevision(rules, db, sel, tenant, id, expected).value, sel, tenant, id)
  {
    hide SelectorsOk, Recorded;
    assert RevKey(tenant, sel) in db.revisions;
  }

  /** Deleting a revision removes one row, which no selector of any connection names. */
  predicate DeletedOnly(before: Db, after: Db, sel: Sel, tenant: string) {
    && RevKey(tenant, sel) in before.revisions
    && after == before.(revisions := before.revisions - {RevKey(tenant, sel)})
    && forall x :: x in after.conns && after.conns[x].kind.Declarative? && after.conns[x].tenant == tenant ==>
         CurrentPair(after.conns[x].config) != Ok(Some(sel)) && PendingPair(after.conns[x].config) != Ok(Some(sel))
  }

  lemma DeleteRevisionEffect(rules: Rules, db: Db, sel: Sel, tenant: string, id: string)
    requires Sound(db) && Management.DeleteRevision(rules, db, sel, tenant, id).Ok?
    ensures DeletedOnly(db, Management.DeleteRevision(rules, db, sel, tenant, id).value, sel, tenant)
  {
    DeleteRevisionKeepsSound(rules, db, sel, tenant, id);
    hide BoundTo, CurrentPair, PendingPair, Recorded, RowsNamed, IsSelected;
    var db' := Management.DeleteRevision(rules, db, sel, tenant, id).value;
    forall x | x in db'.conns ensures ConnOk(db'.revisions, x, db'.conns[x]) {
    }
  }

  lemma PublishKeepsAndEffects(rules: Rules, db: Db, sel: Sel, tenant: string, id: string, expected: int)
    requires AllSound(rules, db)
    ensures
      var o := Management.PublishRevision(rules, db, sel, tenant, id, expected);
      o.Ok? ==> AllSound(rules, o.value) && PublishedOnly(db, o.value, sel, tenant, id)
  {
    hide ServicesOk, Sound, PublishedOnly;
    StepKeepsAllSound(rules, db, DoPublish(sel, tenant, id, expected));
    if Management.PublishRevision(rules, db, sel, tenant, id, expected).Ok? {
      PublishEffect(rules, db, sel, tenant, id, expected);
    }
  }

  lemma ActivateKeepsAndEffects(rules: Rules, db: Db, sel: Sel, tenant: string, id: string, expected: int)
    requires AllSound(rules, db)
    ensures
      var o := Management.ActivateRevision(rules, db, sel, tenant, id, expected);
      o.Ok? ==> AllSound(rules, o.value) && ActivatedOnly(db, o.value, sel, tenant, id)
  {
    hide ServicesOk, Sound, ActivatedOnly;
    StepKeepsAllSound(rules, db, DoActivate(sel, tenant, id, expected));
    if Management.ActivateRevision(rules, db, sel, tenant, id, expected).Ok? {
      ActivateEffect(rules, db, sel, tenant, id, expected);
    }
  }

  lemma DeleteKeepsAndEffects(rules: Rules, db: Db, sel: Sel, tenant: string, id: string)
    requires AllSound(rules, db)
    ensures
      var o := Management.DeleteRevision(rules, db, sel, tenant, id);
      o.Ok? ==> AllSound(rules, o.value) && DeletedOnly(db, o.value, sel, tenant)
  {
    hide ServicesOk, Sound, DeletedOnly;
    StepKeepsAllSound(rules, db, DoDeleteRevision(sel, tenant, id));
    if Management.DeleteRevision(rules, db, sel, tenant, id).Ok? {
      DeleteRevisionEffect(rules, db, sel, tenant, id);
    }
  }

  lemma CreateKeeps(rules: Rules, db: Db, id: string, c: Conn, credentials: map<string, string>)
    requires AllSound(rules, db)
    ensures
      var o := Management.CreateConnection(db, id, c, credentials);
      o.Ok? ==> AllSound(rules, o.value)
  {
    hide AllSound, Management.CreateConnection;
    StepKeepsAllSound(rules, db, DoCreate(id, c, credentials));
  }

  lemma BindingsKeep(rules: Rules, db: Db, service: string, tenant: string, snapshot: seq<Row>, expected: int)
    requires AllSound(rules, db)
    ensures
      var o := Management.ReplaceBindings(rules, db, service, tenant, snapshot, expected);
      o.Ok? ==> AllSound(rules, o.value)
  {
    hide AllSound, Management.ReplaceBindings;
    StepKeepsAllSound(rules, db, DoBindings(service, tenant, snapshot, expected));
  }

  class ManagementStore {
    const rules: Rules
    var live: set<string>
    var conns: map<string, Conn>
    var creds: map<string, map<string, string>>
    var policies: map<string, map<string, Policy>>
    var revisions: map<RevKey, RevRow>
    var services: map<string, Service>
    var bindings: map<string, Binding>
    ghost var used: set<string>
    ghost var history: map<(string, int), Config>

    ghost function Contents(): Db
      reads this
    {
      Db(live, conns, creds, policies, revisions, services, bindings, used, history)
    }

    ghost predicate Valid()
      reads this
    {
      AllSound(rules, Contents())
    }

    constructor (rules: Rules)
      ensures Valid() && Contents() == EMPTY && this.rules == rules
    {
      this.rules := rules;
      live, conns, creds, policies, revisions := {}, map[], map[], map[], map[];
      services, bindings, used, history := map[], map[], {}, map[];
    }

    /** Writes one connection row with the next version. */
    method WriteConnection(id: string, c: Conn)
      modifies this`conns, this`history
      ensures Contents() == Bump(old(Contents()), id, c)
    {
      var next := c.(version := c.version + 1);
      conns := conns[id := next];
      history := history[(id, next.version) := next.config];
    }

    method UpdateConnection(
      id: string, tenant: string, name: string, mode: string, config: Config, status: Option<Status>, expected: int)
      returns (r: Result<(), Failure>)
      requires Valid()
      modifies this`conns, this`history
      ensures Commits(old(Contents()), Contents(),
                      Management.UpdateConnection(old(Contents()), id, tenant, name, mode, config, status, expected), r)
      ensures r.Err? ==> Valid()
      ensures r.Ok? ==> RowOnly(old(Contents()), Contents(), id)
      ensures r.Ok? && conns[id].kind.Declarative? && conns[id].status == Active ==> old(conns)[id].status == Active
      ensures r.Ok? && (conns[id].kind.Declarative? ==> config == old(conns)[id].config) ==> Valid()
    {
      hide AllSound, RowOnly;
      if Management.UpdateConnection(Contents(), id, tenant, name, mode, config, status, expected).Ok? {
        UpdateEffect(rules, Contents(), id, tenant, name, mode, config, status, expected);
      }
      if tenant !in live {
        return Err(Invalid);
      }
      if id !in conns || conns[id].tenant != tenant {
        return Err(NotFound);
      }
      var current := conns[id];
      if current.version != expected {
        return Err(Conflict);
      }
      var next := if status.Some? then status.value else current.status;
      if current.kind.Declarative? && current.status != Active && next == Active {
        return Err(Invalid);
      }
      if next !in LegalTargets(current.status) {
        return Err(Invalid);
      }
      WriteConnection(id, current.(name := name, mode := mode, config := config, status := next));
      return Ok(());
    }

    method DisableConnection(id: string, tenant: string) returns (r: Result<(), Failure>)
      requires Valid()
      modifies this`conns, this`history
      ensures Commits(old(Contents()), Contents(), Management.DisableConnection(old(Contents()), id, tenant), r)
      ensures Valid() && (r.Ok? <==> Owned(old(Contents()), id, tenant).Some?)
      ensures r.Ok? ==>
              && RowOnly(old(Contents()), Contents(), id)
              && conns[id].status == Disabled && conns[id].config == old(conns)[id].config
    {
      hide AllSound, RowOnly;
      StepKeepsAllSound(rules, Contents(), DoDisable(id, tenant));
      DisableEffect(Contents(), id, tenant);
      if id !in conns || conns[id].tenant != tenant {
        return Err(NotFound);
      }
      if Disabled !in LegalTargets(conns[id].status) {
        return Err(Invalid);
      }
      WriteConnection(id, conns[id].(status := Disabled));
      return Ok(());
    }

    method DeleteConnection(id: string, tenant: string) returns (r: Result<(), Failure>)
      requires Valid()
      modifies this`conns
      ensures Commits(old(Contents()), Contents(), Management.DeleteConnection(old(Contents()), id, tenant), r)
      ensures Valid()
      ensures r == Err(InUse) <==>
              Owned(old(Contents()), id, tenant).Some? && exists b :: b in bindings && bindings[b].conn == id
      ensures r.Ok? ==> Contents() == old(Contents()).(conns := old(conns) - {id})
    {
      hide AllSound;
      StepKeepsAllSound(rules, Contents(), DoDelete(id, tenant));
      if id !in conns || conns[id].tenant != tenant {
        return Err(NotFound);
      }
      if exists b :: b in bindings && bindings[b].conn == id {
        assert HasBinding(Contents(), id);
        return Err(InUse);
      }
      conns := conns - {id};
      return Ok(());
    }

    /** Inserts the credential rows one by one. */
    method InsertCredentials(table: map<string, map<string, string>>, id: string, credentials: map<string, string>)
      returns (after: map<string, map<string, string>>)
      ensures after == table[id := credentials]
    {
      after := table[id := map[]];
      var rest := credentials.Keys;
      while rest != {}
        invariant rest <= credentials.Keys && id in after
        invariant after == table[id := after[id]]
        invariant after[id].Keys == credentials.Keys - rest
        invariant forall k :: k in after[id] ==> after[id][k] == credentials[k]
        decreases rest
      {
        var k :| k in rest;
        after := after[id := after[id][k := credentials[k]]];
        rest := rest - {k};
      }
      assert after[id] == credentials;
    }

    /** The id is fresh, as a random one is. */
    method CreateConnection(id: string, c: Conn, credentials: map<string, string>) returns (r: Result<(), Failure>)
      requires id !in used
      requires Valid()
      modifies this`conns, this`creds, this`used, this`history
      ensures Commits(old(Contents()), Contents(), Management.CreateConnection(old(Contents()), id, c, credentials), r)
      ensures Valid()
    {
      hide AllSound, IsNew;
      ghost var before := Contents();
      ghost var spec := Management.CreateConnection(before, id, c, credentials);
      assert spec.Ok? ==> AllSound(rules, spec.value) by { CreateKeeps(rules, before, id, c, credentials); }
      if !IsNew(c, credentials) || c.tenant !in live || "" in credentials {
        return Err(Invalid);
      }
      var table := InsertCredentials(creds, id, credentials);
      conns, creds := conns[id := c], table;
      used, history := used + {id}, history[(id, 1) := c.config];
      assert Contents() == spec.value;
      return Ok(());
    }

    method ReplaceCredentials(id: string, tenant: string, credentials: map<string, string>, expected: int)
      returns (r: Result<(), Failure>)
      requires Valid()
      modifies this`conns, this`creds, this`history
      ensures Commits(old(Contents()), Contents(),
                      Management.ReplaceCredentials(old(Contents()), id, tenant, credentials, expected), r)
      ensures Valid()
      ensures r.Ok? ==>
              && RowOnly(old(Contents()).(creds := creds), Contents(), id)
              && creds == old(creds)[id := credentials]
    {
      hide AllSound;
      StepKeepsAllSound(rules, Contents(), DoCredentials(id, tenant, credentials, expected));
      if id !in conns {
        return Err(NotFound);
      }
      if conns[id].version != expected {
        return Err(Conflict);
      }
      if conns[id].tenant != tenant {
        return Err(NotFound);
      }
      creds := InsertCredentials(creds, id, credentials);
      WriteConnection(id, conns[id]);
      return Ok(());
    }

    /** Deletes the connection's policies and inserts the new ones. */
    method ReplaceToolPolicies(id: string, tenant: string, list: seq<Policy>, expected: int)
      returns (r: Result<(), Failure>)
      requires Valid()
      modifies this`conns, this`policies, this`history
      ensures Commits(old(Contents()), Contents(),
                      Management.ReplaceToolPolicies(old(Contents()), id, tenant, list, expected), r)
      ensures Valid()
      ensures r.Ok? ==>
              && RowOnly(old(Contents()).(policies := policies), Contents(), id)
              && policies == old(policies)[id := ByTool(list)]
    {
      hide AllSound, ByTool, DistinctTools;
      StepKeepsAllSound(rules, Contents(), DoPolicies(id, tenant, list, expected));
      if id !in conns {
        return Err(NotFound);
      }
      if conns[id].version != expected {
        return Err(Conflict);
      }
      if conns[id].tenant != tenant {
        return Err(NotFound);
      }
      var table := InsertPolicies(policies, id, list);
      if table.None? {
        return Err(Invalid);
      }
      policies := table.value;
      WriteConnection(id, conns[id]);
      return Ok(());
    }

    /** Inserts the policy rows one by one; a tool named twice violates the key. */
    method InsertPolicies(table: map<string, map<string, Policy>>, id: string, list: seq<Policy>)
      returns (r: Option<map<string, map<string, Policy>>>)
      ensures r == if DistinctTools(list) then Some(table[id := ByTool(list)]) else None
    {
      var after := table[id := map[]];
      var i := 0;
      while i < |list|
        invariant 0 <= i <= |list|
        invariant after == table[id := ByTool(list[..i])]
        invariant DistinctTools(list[..i])
      {
        ByToolNames(list[..i], list[i].tool);
        assert list[..i + 1][..i] == list[..i];
        if list[i].tool in after[id] {
          var j :| 0 <= j < i && list[..i][j].tool == list[i].tool;
          assert list[j].tool == list[i].tool;
          return None;
        }
        after := after[id := after[id][list[i].tool := list[i]]];
        i := i + 1;
      }
      assert list[..i] == list;
      return Some(after);
    }

    method SaveRevision(sel: Sel, tenant: string, id: string, content: Content, expected: int)
      returns (r: Result<(), Failure>)
      requires Valid()
      modifies this`revisions
      ensures Commits(old(Contents()), Contents(),
                      Management.SaveRevision(rules, old(Contents()), sel, tenant, id, content, expected), r)
      ensures Valid()
      ensures r.Ok? ==>
              && RevKey(tenant, sel) !in old(revisions)
              && revisions == old(revisions)[RevKey(tenant, sel) := RevRow(id, false, content)]
              && Contents() == old(Contents()).(revisions := revisions)
    {
      hide AllSound;
      StepKeepsAllSound(rules, Contents(), DoSave(sel, tenant, id, content, expected));
      if sel.spec == "" || sel.rev < 1 || id !in conns || conns[id].tenant != tenant {
        return Err(Invalid);
      }
      if conns[id].version != expected {
        return Err(Conflict);
      }
      if !Changeable(conns[id]) || !rules.valid(content, conns[id].mode) || RevKey(tenant, sel) in revisions {
        return Err(Invalid);
      }
      revisions := revisions[RevKey(tenant, sel) := RevRow(id, false, content)];
      return Ok(());
    }

    method PublishRevision(sel: Sel, tenant: string, id: string, expected: int) returns (r: Result<(), Failure>)
      requires Valid()
      modifies this`conns, this`revisions, this`history
      ensures Commits(old(Contents()), Contents(),
                      Management.PublishRevision(rules, old(Contents()), sel, tenant, id, expected), r)
      ensures Valid() && (r.Ok? ==> PublishedOnly(old(Contents()), Contents(), sel, tenant, id))
    {
      PublishKeepsAndEffects(rules, Contents(), sel, tenant, id, expected);
      hide AllSound, PublishedOnly;
      if id !in conns || conns[id].tenant != tenant {
        return Err(NotFound);
      }
      var current, k := conns[id], RevKey(tenant, sel);
      if current.version != expected {
        return Err(Conflict);
      }
      if !Changeable(current) {
        return Err(Invalid);
      }
      if k !in revisions || revisions[k].conn != id {
        return Err(NotFound);
      }
      if !rules.valid(revisions[k].content, current.mode) {
        return Err(Invalid);
      }
      revisions := revisions[k := revisions[k].(published := true)];
      var staged := current.config;
      if current.status == Draft {
        staged := staged[SpecId := Text(sel.spec)][Revision := Number(sel.rev)];
      } else {
        staged := staged[PendingSpecId := Text(sel.spec)][PendingRevision := Number(sel.rev)];
      }
      WriteConnection(id, current.(config := staged));
      return Ok(());
    }

    method ActivateRevision(sel: Sel, tenant: string, id: string, expected: int) returns (r: Result<(), Failure>)
      requires Valid()
      modifies this`conns, this`history
      ensures Commits(old(Contents()), Contents(),
                      Management.ActivateRevision(rules, old(Contents()), sel, tenant, id, expected), r)
      ensures Valid() && (r.Ok? ==> ActivatedOnly(old(Contents()), Contents(), sel, tenant, id))
    {
      ActivateKeepsAndEffects(rules, Contents(), sel, tenant, id, expected);
      hide AllSound, ActivatedOnly;
      if tenant !in live {
        return Err(Invalid);
      }
      if id !in conns || conns[id].tenant != tenant {
        return Err(NotFound);
      }
      var current, k := conns[id], RevKey(tenant, sel);
      if current.version != expected {
        return Err(Conflict);
      }
      if !Changeable(current) {
        return Err(Invalid);
      }
      var stagedSpec, stagedRevision := Get(current.config, PendingSpecId), Get(current.config, PendingRevision);
      if !UsableText(stagedSpec) {
        stagedSpec, stagedRevision := Get(current.config, SpecId), Get(current.config, Revision);
      }
      if stagedSpec != Some(Text(sel.spec)) || stagedRevision != Some(Number(sel.rev)) {
        return Err(Invalid);
      }
      if k !in revisions || revisions[k].conn != id || !revisions[k].published {
        return Err(NotFound);
      }
      if !rules.valid(revisions[k].content, current.mode) {
        return Err(Invalid);
      }
      var config := current.config[SpecId := Text(sel.spec)][Revision := Number(sel.rev)];
      config := config - {PendingSpecId};
      config := config - {PendingRevision};
      assert config == Activated(current.config, sel);
      WriteConnection(id, current.(config := config, status := Active));
      return Ok(());
    }

    method DeleteRevision(sel: Sel, tenant: string, id: string) returns (r: Result<(), Failure>)
      requires Valid()
      modifies this`revisions
      ensures Commits(old(Contents()), Contents(),
                      Management.DeleteRevision(rules, old(Contents()), sel, tenant, id), r)
      ensures Valid() && (r.Ok? ==> DeletedOnly(old(Contents()), Contents(), sel, tenant))
    {
      DeleteKeepsAndEffects(rules, Contents(), sel, tenant, id);
      hide AllSound, DeletedOnly;
      hide IsSelected;
      var k := RevKey(tenant, sel);
      if k !in revisions || revisions[k].conn != id {
        return Err(NotFound);
      }
      if id !in conns || conns[id].tenant != tenant {
        return Err(InUse);
      }
      if revisions[k].published {
        if !conns[id].kind.Declarative? || IsSelected(conns[id].config, sel) {
          return Err(InUse);
        }
        var tools := rules.tools(revisions[k].content);
        if exists b :: b in bindings && bindings[b].conn == id
                       && exists i :: 0 <= i < |tools| && tools[i].key == bindings[b].tool {
          assert BoundTo(rules, Contents(), id, revisions[k].content);
          return Err(InUse);
        }
      }
      revisions := revisions - {k};
      return Ok(());
    }

    method CreateService(service: string, tenant: string) returns (r: Result<(), Failure>)
      requires service !in used
      requires Valid()
      modifies this`services, this`used
      ensures Commits(old(Contents()), Contents(), Management.CreateService(old(Contents()), service, tenant), r)
      ensures Valid()
      ensures r.Ok? ==>
              && services == old(services)[service := Service(tenant, SDraft, 1)]
              && conns == old(conns) && bindings == old(bindings)
    {
      hide AllSound;
      StepKeepsAllSound(rules, Contents(), DoCreateService(service, tenant));
      if tenant !in live {
        return Err(Invalid);
      }
      services := services[service := Service(tenant, SDraft, 1)];
      used := used + {service};
      return Ok(());
    }

    method UpdateServiceStatus(service: string, tenant: string, status: ServiceStatus, expected: int)
      returns (r: Result<(), Failure>)
      requires Valid()
      modifies this`services
      ensures Commits(old(Contents()), Contents(),
                      Management.UpdateServiceStatus(old(Contents()), service, tenant, status, expected), r)
      ensures Valid()
      ensures r.Ok? ==> service in old(services) && status in LegalServiceTargets(old(services)[service].status)
      ensures r.Ok? ==> services == old(services)[service := Service(tenant, status, expected + 1)]
      ensures r.Ok? ==> Contents() == old(Contents()).(services := services)
    {
      hide AllSound, LegalServiceTargets;
      StepKeepsAllSound(rules, Contents(), DoServiceStatus(service, tenant, status, expected));
      if expected < 1 || (status == SActive && tenant !in live) {
        return Err(Invalid);
      }
      if service !in services || services[service].tenant != tenant {
        return Err(NotOwned);
      }
      var current := services[service];
      if current.version != expected {
        return Err(Conflict);
      }
      if status !in LegalServiceTargets(current.status) {
        return Err(Invalid);
      }
      services := services[service := current.(status := status, version := current.version + 1)];
      return Ok(());
    }

    /** Checks a snapshot against growing sets of the casefolded names seen so far. */
    method ValidateSnapshot(service: string, snapshot: seq<Row>) returns (ok: bool)
      ensures ok <==> ValidSnapshot(rules, service, snapshot)
    {
      hide ValidSnapshot, Seen;
      var ids: set<string>, aliases: set<string>, sources: set<(string, string)> := {}, {}, {};
      assert snapshot[..0] == [] && ValidSnapshot(rules, service, []) && Seen(rules, [], ids, aliases, sources) by {
        NothingSeen(rules, service);
      }
      for i := 0 to |snapshot|
        invariant ValidSnapshot(rules, service, snapshot[..i])
        invariant Seen(rules, snapshot[..i], ids, aliases, sources)
      {
        var row := snapshot[i];
        assert snapshot[..i + 1] == snapshot[..i] + [row];
        SnapshotGrows(rules, service, snapshot[..i], row, ids, aliases, sources);
        SeenGrows(rules, snapshot[..i], row, ids, aliases, sources);
        if row.binding.service != service {
          SnapshotFailsTogether(rules, service, snapshot, i + 1);
          return false;
        }
        var id, alias, source := rules.fold(row.id), rules.fold(row.binding.alias), Source(rules, row);
        if id in ids || alias in aliases || source in sources {
          SnapshotFailsTogether(rules, service, snapshot, i + 1);
          return false;
        }
        ids, aliases, sources := ids + {id}, aliases + {alias}, sources + {source};
      }
      assert snapshot[..|snapshot|] == snapshot;
      return true;
    }

    /** Replaces a service's bindings: owned connections, an expected version, legal states, then
        deletion and insertion row by row. */
    method ReplaceBindings(service: string, tenant: string, snapshot: seq<Row>, expected: int)
      returns (r: Result<(), Failure>)
      requires Valid()
      modifies this`bindings, this`services
      ensures Commits(old(Contents()), Contents(),
                      Management.ReplaceBindings(rules, old(Contents()), service, tenant, snapshot, expected), r)
      ensures Valid()
    {
      hide AllSound, ValidSnapshot, WithoutService, WithRows, LegalStatuses, ConnectionsOwned, IdsFree;
      BindingsKeep(rules, Contents(), service, tenant, snapshot, expected);
      var refused := CheckBindings(service, tenant, snapshot, expected);
      if refused.Some? {
        return Err(refused.value);
      }
      var stored := StoreSnapshot(service, snapshot);
      return if stored then Ok(()) else Err(Invalid);
    }

    method CheckBindings(service: string, tenant: string, snapshot: seq<Row>, expected: int)
      returns (refused: Option<Failure>)
      ensures refused == BindingsRefused(rules, Contents(), service, tenant, snapshot, expected)
    {
      hide ValidSnapshot, LegalStatuses, ConnectionsOwned;
      if expected < 1 {
        return Some(Invalid);
      }
      var valid := ValidateSnapshot(service, snapshot);
      if !valid {
        return Some(Invalid);
      }
      var owned := LockConnections(snapshot, tenant);
      if !owned {
        return Some(NotOwned);
      }
      if service !in services || services[service].tenant != tenant {
        return Some(NotOwned);
      }
      if services[service].version != expected {
        return Some(Conflict);
      }
      if services[service].status == SDisabled {
        return Some(Invalid);
      }
      var legal := CheckBindingStatuses(service, snapshot);
      return if legal then None else Some(Invalid);
    }

    /** Deletes the service's rows, inserts the snapshot and takes the next version, or does nothing. */
    method StoreSnapshot(service: string, snapshot: seq<Row>) returns (ok: bool)
      requires ValidSnapshot(rules, service, snapshot) && service in services
      modifies this`bindings, this`services
      ensures ok <==> IdsFree(old(Contents()), service, snapshot)
      ensures bindings == if ok then WithRows(WithoutService(old(bindings), service), snapshot) else old(bindings)
      ensures services == if ok then old(services)[service := NextVersion(old(services)[service])] else old(services)
    {
      hide ValidSnapshot, WithoutService, WithRows, FreeIn;
      var table := InsertBindings(WithoutService(bindings, service), service, snapshot);
      if table.None? {
        return false;
      }
      bindings := table.value;
      services := services[service := NextVersion(services[service])];
      return true;
    }

    /** Whether the connections of the snapshot that the tenant owns are all of them. */
    method LockConnections(snapshot: seq<Row>, tenant: string) returns (ok: bool)
      ensures ok <==> ConnectionsOwned(Contents(), snapshot, tenant)
    {
      var ids := set i | 0 <= i < |snapshot| :: snapshot[i].binding.conn;
      var owned := set id | id in conns && id in ids && conns[id].tenant == tenant;
      assert forall i :: 0 <= i < |snapshot| ==> snapshot[i].binding.conn in ids;
      ok := owned == ids;
    }

    method CheckBindingStatuses(service: string, snapshot: seq<Row>) returns (ok: bool)
      ensures ok <==> LegalStatuses(Contents(), service, snapshot)
    {
      for i := 0 to |snapshot|
        invariant LegalStatuses(Contents(), service, snapshot[..i])
      {
        var row := snapshot[i];
        var prior := if row.id in bindings && bindings[row.id].service == service then Some(bindings[row.id].status)
                     else None;
        if row.binding.status == BBroken && prior != Some(BBroken) {
          assert !LegalBindingStatus(BindingStatusOf(Contents(), service, snapshot[i].id), snapshot[i].binding.status);
          return false;
        }
        if prior == Some(BBroken) && row.binding.status == BDisabled {
          assert !LegalBindingStatus(BindingStatusOf(Contents(), service, snapshot[i].id), snapshot[i].binding.status);
          return false;
        }
      }
      assert snapshot[..|snapshot|] == snapshot;
      return true;
    }

    /** Inserts the rows one by one; an id already taken by another service's binding fails. */
    method InsertBindings(table: map<string, Binding>, service: string, snapshot: seq<Row>)
      returns (r: Option<map<string, Binding>>)
      requires ValidSnapshot(rules, service, snapshot)
      ensures r == if FreeIn(table, snapshot) then Some(WithRows(table, snapshot)) else None
    {
      hide ValidSnapshot, WithRows;
      SnapshotIdsDistinct(rules, service, snapshot);
      var after := table;
      var i := 0;
      assert WithRows(table, snapshot[..0]) == table by { NoRows(table, snapshot[..0]); }
      while i < |snapshot|
        invariant 0 <= i <= |snapshot|
        invariant after == WithRows(table, snapshot[..i])
        invariant forall j :: 0 <= j < i ==> snapshot[j].id !in table
      {
        OneMoreRow(table, snapshot, i);
        if snapshot[i].id in after {
          return None;
        }
        after := after[snapshot[i].id := snapshot[i].binding];
        i := i + 1;
      }
      assert snapshot[..i] == snapshot;
      return Some(after);
    }
  }

  lemma NoRows(table: map<string, Binding>, rows: seq<Row>)
    requires rows == []
    ensures WithRows(table, rows) == table
  {
  }

  /** Inserting the next row extends the table, and fails exactly when its id was there before. */
  lemma OneMoreRow(table: map<string, Binding>, rows: seq<Row>, i: nat)
    requires i < |rows| && forall j, k :: 0 <= j < k < |rows| ==> rows[j].id != rows[k].id
    ensures WithRows(table, rows[..i + 1]) == WithRows(table, rows[..i])[rows[i].id := rows[i].binding]
    ensures rows[i].id in WithRows(table, rows[..i]) <==> rows[i].id in table
  {
    assert rows[..i + 1][..i] == rows[..i];
    WithRowsFacts(table, rows[..i]);
    WithRowsKeep(table, rows[..i], rows[i].id);
  }

  function NextVersion(s: Service): Service { s.(version := s.version + 1) }

  function Source(rules: Rules, row: Row): (string, string) {
    (rules.fold(row.binding.conn), rules.fold(row.binding.tool))
  }

  /** The three sets hold exactly the casefolded names of these rows. */
  ghost predicate Seen(
    rules: Rules, rows: seq<Row>, ids: set<string>, aliases: set<string>, sources: set<(string, string)>)
  {
    && (forall x :: x in ids <==> exists j :: 0 <= j < |rows| && rules.fold(rows[j].id) == x)
    && (forall x :: x in aliases <==> exists j :: 0 <= j < |rows| && rules.fold(rows[j].binding.alias) == x)
    && (forall x :: x in sources <==> exists j :: 0 <= j < |rows| && Source(rules, rows[j]) == x)
  }

  lemma NothingSeen(rules: Rules, service: string)
    ensures ValidSnapshot(rules, service, []) && Seen(rules, [], {}, {}, {})
  {
  }

  lemma SnapshotFailsTogether(rules: Rules, service: string, rows: seq<Row>, n: nat)
    requires n <= |rows| && !ValidSnapshot(rules, service, rows[..n])
    ensures !ValidSnapshot(rules, service, rows)
  {
  }

  lemma SeenGrows(
    rules: Rules, rows: seq<Row>, row: Row, ids: set<string>, aliases: set<string>, sources: set<(string, string)>)
    requires Seen(rules, rows, ids, aliases, sources)
    ensures Seen(rules, rows + [row], ids + {rules.fold(row.id)}, aliases + {rules.fold(row.binding.alias)},
                 sources + {Source(rules, row)})
  {
    var more := rows + [row];
    assert forall j :: 0 <= j < |rows| ==> more[j] == rows[j];
    assert more[|rows|] == row;
  }

  lemma SnapshotGrows(
    rules: Rules, service: string, rows: seq<Row>, row: Row,
    ids: set<string>, aliases: set<string>, sources: set<(string, string)>)
    requires ValidSnapshot(rules, service, rows) && Seen(rules, rows, ids, aliases, sources)
    ensures
      ValidSnapshot(rules, service, rows + [row]) <==>
      && row.binding.service == service
      && rules.fold(row.id) !in ids && rules.fold(row.binding.alias) !in aliases && Source(rules, row) !in sources
  {
    var more := rows + [row];
    assert forall j :: 0 <= j < |rows| ==> more[j] == rows[j];
    assert more[|rows|] == row;
    assert ValidSnapshot(rules, service, more) ==> forall j :: 0 <= j < |rows| ==> !Clash(rules, more[j], more[|rows|]);
  }
}
