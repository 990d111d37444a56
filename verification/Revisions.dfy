/** What every run of the connection and service transactions keeps. */
module Revisions {
  import opened Common
  import opened Management

  type RevTable = map<RevKey, RevRow>

  predicate IsPublished(revisions: RevTable, id: string, tenant: string, sel: Sel) {
    var k := RevKey(tenant, sel);
    k in revisions && revisions[k].conn == id && revisions[k].published
  }

  /** The selector is absent, or names a published revision of this connection. */
  predicate PairOk(revisions: RevTable, id: string, tenant: string, pair: Result<Option<Sel>, Failure>) {
    pair.Ok? && (pair.value.Some? ==> IsPublished(revisions, id, tenant, pair.value.value))
  }

  /** An active declarative connection has a current revision and no pending one. */
  predicate ActiveOk(c: Conn) {
    c.status == Active ==> CurrentPair(c.config).Ok? && CurrentPair(c.config).value.Some?
                           && PendingSpecId !in c.config && PendingRevision !in c.config
  }

  predicate ConnOk(revisions: RevTable, id: string, c: Conn) {
    c.kind.Declarative? ==>
      && PairOk(revisions, id, c.tenant, CurrentPair(c.config))
      && PairOk(revisions, id, c.tenant, PendingPair(c.config))
      && ActiveOk(c)
  }

  ghost predicate SelectorsOk(db: Db) {
    forall id :: id in db.conns ==> ConnOk(db.revisions, id, db.conns[id])
  }

  ghost predicate RowsNamed(revisions: RevTable) {
    forall k :: k in revisions ==> k.sel.spec != "" && k.sel.rev >= 1
  }

  /** The committed history knows the current configuration, and ids are never reused. */
  ghost predicate Recorded(db: Db) {
    && db.conns.Keys <= db.used && db.services.Keys <= db.used
    && forall id :: id in db.conns ==>
         (id, db.conns[id].version) in db.history && db.history[(id, db.conns[id].version)] == db.conns[id].config
  }

  ghost predicate Sound(db: Db) { SelectorsOk(db) && RowsNamed(db.revisions) && Recorded(db) }

  lemma BumpKeepsSound(db: Db, id: string, c: Conn)
    requires Sound(db) && id in db.conns && c.version == db.conns[id].version && ConnOk(db.revisions, id, c)
    ensures Sound(Bump(db, id, c))
  {
    hide PairOk;
  }

  /** Only the named tables matter. */
  lemma SoundLooksAt(a: Db, b: Db)
    requires Sound(a) && b.conns == a.conns && b.revisions == a.revisions && b.history == a.history
    requires b.services.Keys <= b.used && a.used <= b.used
    ensures Sound(b)
  {
    hide ConnOk;
  }

  /** Selectors survive when the revisions only gain rows or publications. */
  lemma MoreRevisions(db: Db, revisions: RevTable)
    requires Sound(db) && RowsNamed(revisions)
    requires forall k :: k in db.revisions && db.revisions[k].published ==>
      k in revisions && revisions[k].conn == db.revisions[k].conn && revisions[k].published
    ensures Sound(db.(revisions := revisions))
  {
    hide CurrentPair, PendingPair, ActiveOk;
  }

  lemma CreateKeepsSound(db: Db, id: string, c: Conn, credentials: map<string, string>)
    requires Sound(db) && CreateConnection(db, id, c, credentials).Ok?
    ensures Sound(CreateConnection(db, id, c, credentials).value)
  {
    hide PairOk, LegalTargets;
    if c.kind.Declarative? {
      EmptyConfigIsOk(db.revisions, id, c);
    }
  }

  lemma EmptyConfigIsOk(revisions: RevTable, id: string, c: Conn)
    requires c.config == map[] && c.status == Draft
    ensures ConnOk(revisions, id, c)
  {
  }

  lemma UpdateKeepsSound(
    db: Db, id: string, tenant: string, name: string, mode: string, config: Config, status: Option<Status>,
    expected: int)
    requires Sound(db) && UpdateUseCase(db, id, tenant, name, mode, config, status, expected).Ok?
    ensures Sound(UpdateUseCase(db, id, tenant, name, mode, config, status, expected).value)
  {
    hide PairOk, CurrentPair, PendingPair;
    var c := db.conns[id];
    var next := if status.Some? then status.value else c.status;
    BumpKeepsSound(db, id, c.(name := name, mode := mode, config := config, status := next));
  }

  /** Publishing sets one selector pair and leaves the other. */
  lemma PublishedPairs(c: Conn, sel: Sel)
    requires sel.spec != "" && sel.rev >= 1
    ensures CurrentPair(Published(c, sel)) == if c.status == Draft then Ok(Some(sel)) else CurrentPair(c.config)
    ensures PendingPair(Published(c, sel)) == if c.status == Draft then PendingPair(c.config) else Ok(Some(sel))
  {
  }

  lemma PublishKeepsSound(rules: Rules, db: Db, sel: Sel, tenant: string, id: string, expected: int)
    requires Sound(db) && PublishRevision(rules, db, sel, tenant, id, expected).Ok?
    ensures Sound(PublishRevision(rules, db, sel, tenant, id, expected).value)
  {
    hide CurrentPair, PendingPair;
    var c, rev := db.conns[id], db.revisions[RevKey(tenant, sel)];
    var revisions := db.revisions[RevKey(tenant, sel) := rev.(published := true)];
    MoreRevisions(db, revisions);
    PublishedPairs(c, sel);
    BumpKeepsSound(db.(revisions := revisions), id, c.(config := Published(c, sel)));
  }

  lemma ActivateKeepsSound(rules: Rules, db: Db, sel: Sel, tenant: string, id: string, expected: int)
    requires Sound(db) && ActivateRevision(rules, db, sel, tenant, id, expected).Ok?
    ensures Sound(ActivateRevision(rules, db, sel, tenant, id, expected).value)
  {
    var c := db.conns[id];
    assert RevKey(tenant, sel) in db.revisions;
    BumpKeepsSound(db, id, c.(config := Activated(c.config, sel), status := Active));
  }

  lemma DeleteRevisionKeepsSound(rules: Rules, db: Db, sel: Sel, tenant: string, id: string)
    requires Sound(db) && DeleteRevision(rules, db, sel, tenant, id).Ok?
    ensures Sound(DeleteRevision(rules, db, sel, tenant, id).value)
  {
    hide BoundTo, ActiveOk;
    var revisions := db.revisions - {RevKey(tenant, sel)};
    forall x | x in db.conns ensures ConnOk(revisions, x, db.conns[x]) {
      assert ConnOk(db.revisions, x, db.conns[x]);
      hide CurrentPair, PendingPair;
    }
  }

  lemma DeleteKeepsSound(db: Db, id: string, tenant: string)
    requires Sound(db) && DeleteConnection(db, id, tenant).Ok?
    ensures Sound(DeleteConnection(db, id, tenant).value)
  {
    hide ConnOk, HasBinding;
  }

  lemma DisableKeepsSound(db: Db, id: string, tenant: string)
    requires Sound(db) && DisableConnection(db, id, tenant).Ok?
    ensures Sound(DisableConnection(db, id, tenant).value)
  {
    hide PairOk, CurrentPair, PendingPair;
    BumpKeepsSound(db, id, db.conns[id].(status := Disabled));
  }

  lemma CredentialsKeepSound(db: Db, id: string, tenant: string, credentials: map<string, string>, expected: int)
    requires Sound(db) && ReplaceCredentials(db, id, tenant, credentials, expected).Ok?
    ensures Sound(ReplaceCredentials(db, id, tenant, credentials, expected).value)
  {
    hide ConnOk;
    SoundLooksAt(db, db.(creds := db.creds[id := credentials]));
    BumpKeepsSound(db.(creds := db.creds[id := credentials]), id, db.conns[id]);
  }

  lemma PoliciesKeepSound(db: Db, id: string, tenant: string, policies: seq<Policy>, expected: int)
    requires Sound(db) && ReplaceToolPolicies(db, id, tenant, policies, expected).Ok?
    ensures Sound(ReplaceToolPolicies(db, id, tenant, policies, expected).value)
  {
    hide ConnOk, ByTool;
    SoundLooksAt(db, db.(policies := db.policies[id := ByTool(policies)]));
    BumpKeepsSound(db.(policies := db.policies[id := ByTool(policies)]), id, db.conns[id]);
  }

  lemma SaveKeepsSound(rules: Rules, db: Db, sel: Sel, tenant: string, id: string, content: Content, expected: int)
    requires Sound(db) && SaveRevision(rules, db, sel, tenant, id, content, expected).Ok?
    ensures Sound(SaveRevision(rules, db, sel, tenant, id, content, expected).value)
  {
    hide ConnOk;
    MoreRevisions(db, db.revisions[RevKey(tenant, sel) := RevRow(id, false, content)]);
  }

  lemma RetireKeepsSelectors(db: Db, tenant: string)
    requires SelectorsOk(db)
    ensures SelectorsOk(RetireTenant(db, tenant))
  {
    hide CurrentPair, PendingPair, PairOk;
    var db' := RetireTenant(db, tenant);
    forall id | id in db'.conns ensures ConnOk(db'.revisions, id, db'.conns[id]) {
      assert ConnOk(db.revisions, id, db.conns[id]);
    }
  }

  lemma RetireKeepsRecorded(db: Db, tenant: string)
    requires Recorded(db)
    ensures Recorded(RetireTenant(db, tenant))
  {
    hide Retired, RetiredService;
    var db' := RetireTenant(db, tenant);
    forall id | id in db'.conns
      ensures (id, db'.conns[id].version) in db'.history
              && db'.history[(id, db'.conns[id].version)] == db'.conns[id].config
    {
      RetiredKeepsConfig(db.conns[id], tenant);
    }
  }

  lemma RetiredKeepsConfig(c: Conn, tenant: string)
    ensures Retired(c, tenant).config == c.config
  {
  }

  lemma RetireKeepsSound(db: Db, tenant: string)
    requires Sound(db)
    ensures Sound(RetireTenant(db, tenant))
  {
    hide SelectorsOk, Recorded;
    RetireKeepsSelectors(db, tenant);
    RetireKeepsRecorded(db, tenant);
  }

  lemma OthersKeepSound(rules: Rules, db: Db, a: Action)
    requires Sound(db) && Run(rules, db, a).Ok?
    requires a.DoCreateService? || a.DoServiceStatus? || a.DoBindings? || a.DoTenant?
    ensures Sound(Run(rules, db, a).value)
  {
    hide ConnOk, WithRows, WithoutService, ValidSnapshot, ConnectionsOwned, LegalStatuses, IdsFree;
    SoundLooksAt(db, Run(rules, db, a).value);
  }

  lemma SoundStep(rules: Rules, db: Db, a: Action)
    requires Sound(db) && Run(rules, db, a).Ok?
    ensures Sound(Run(rules, db, a).value)
  {
    hide Sound, ConnOk;
    match a
    case DoCreate(id, conn, credentials) => CreateKeepsSound(db, id, conn, credentials);
    case DoUpdate(id, tenant, name, mode, config, status, expected) =>
      UpdateKeepsSound(db, id, tenant, name, mode, config, status, expected);
    case DoDelete(id, tenant) => DeleteKeepsSound(db, id, tenant);
    case DoPublish(sel, tenant, id, expected) => PublishKeepsSound(rules, db, sel, tenant, id, expected);
    case DoActivate(sel, tenant, id, expected) => ActivateKeepsSound(rules, db, sel, tenant, id, expected);
    case DoDeleteRevision(sel, tenant, id) => DeleteRevisionKeepsSound(rules, db, sel, tenant, id);
    case DoDisable(id, tenant) => DisableKeepsSound(db, id, tenant);
    case DoCredentials(id, tenant, credentials, expected) =>
      CredentialsKeepSound(db, id, tenant, credentials, expected);
    case DoPolicies(id, tenant, policies, expected) => PoliciesKeepSound(db, id, tenant, policies, expected);
    case DoSave(sel, tenant, id, content, expected) => SaveKeepsSound(rules, db, sel, tenant, id, content, expected);
    case DoRetire(tenant) => RetireKeepsSound(db, tenant);
    case _ => OthersKeepSound(rules, db, a);
  }

  lemma {:induction false} AlwaysSound(rules: Rules, actions: seq<Action>)
    ensures Sound(RunAll(rules, EMPTY, actions))
  {
    hide Run;
    if actions != [] {
      var front, last := actions[..|actions| - 1], actions[|actions| - 1];
      AlwaysSound(rules, front);
      hide Sound;
      if Run(rules, RunAll(rules, EMPTY, front), last).Ok? {
        SoundStep(rules, RunAll(rules, EMPTY, front), last);
      }
    }
  }

  /** In every reachable state each selector of a declarative connection names an existing published
      revision of that connection, and an active one has a current selector and no pending one. */
  lemma SelectorsNamePublishedRevisions(rules: Rules, actions: seq<Action>, id: string)
    requires id in RunAll(rules, EMPTY, actions).conns && RunAll(rules, EMPTY, actions).conns[id].kind.Declarative?
    ensures
      var db := RunAll(rules, EMPTY, actions);
      var c := db.conns[id];
      var current, pending := CurrentPair(c.config), PendingPair(c.config);
      && current.Ok? && pending.Ok?
      && (current.value.Some? ==> IsPublished(db.revisions, id, c.tenant, current.value.value))
      && (pending.value.Some? ==> IsPublished(db.revisions, id, c.tenant, pending.value.value))
      && (c.status == Active ==> current.value.Some? && PendingSpecId !in c.config && PendingRevision !in c.config)
  {
    hide RunAll;
    AlwaysSound(rules, actions);
    var db := RunAll(rules, EMPTY, actions);
    assert ConnOk(db.revisions, id, db.conns[id]);
  }

  /** No transaction changes the content of a revision or withdraws a publication; it can only
      delete the row, and never the row of a published revision that a connection selects. */
  lemma RevisionsNeverChange(rules: Rules, db: Db, a: Action, k: RevKey)
    requires Run(rules, db, a).Ok? && k in db.revisions
    ensures
      var revisions := Run(rules, db, a).value.revisions;
      && (k in revisions ==>
            && revisions[k].content == db.revisions[k].content && revisions[k].conn == db.revisions[k].conn
                             && (db.revisions[k].published ==> revisions[k].published))
      && (k !in revisions ==>
            var id := db.revisions[k].conn;
            db.revisions[k].published ==> id in db.conns && !IsSelected(db.conns[id].config, k.sel))
  {
    hide LegalTargets, ByTool, WithRows, WithoutService, ValidSnapshot, ConnectionsOwned, LegalStatuses, IdsFree;
    hide IsSelected, BoundTo, HasBinding, Staged, DistinctTools;
  }

  predicate MovesLegally(c: Conn, c': Conn) {
    && c'.kind == c.kind && c'.tenant == c.tenant
    && (c' == c || c'.version == c.version + 1)
    && (c'.status == c.status || c'.status in LegalTargets(c.status))
  }

  /** The connection keeps its tenant and kind, moves its status legally, and either takes the next
      version or keeps its row, credentials and policies. */
  predicate MovesFrom(db: Db, db': Db, id: string)
    requires id in db.conns && id in db'.conns
  {
    && MovesLegally(db.conns[id], db'.conns[id])
    && (db'.conns[id].version == db.conns[id].version ==>
          && db'.conns[id] == db.conns[id] && Get(db'.creds, id) == Get(db.creds, id)
          && Get(db'.policies, id) == Get(db.policies, id))
  }

  predicate WritesRow(a: Action) { a.DoUpdate? || a.DoDisable? || a.DoPublish? || a.DoActivate? }

  predicate WritesParts(a: Action) { a.DoCredentials? || a.DoPolicies? }

  lemma RowWritersMove(rules: Rules, db: Db, a: Action, id: string)
    requires WritesRow(a) && Run(rules, db, a).Ok? && id in db.conns
    ensures
      var db' := Run(rules, db, a).value;
      && id in db'.conns && MovesFrom(db, db', id)
      && (db.conns[id].kind.Declarative? && db'.conns[id].status == Active && db.conns[id].status != Active ==>
          a.DoActivate? && a.id == id)
  {
    hide Staged;
  }

  lemma PartWritersMove(rules: Rules, db: Db, a: Action, id: string)
    requires WritesParts(a) && Run(rules, db, a).Ok? && id in db.conns
    ensures
      var db' := Run(rules, db, a).value;
      id in db'.conns && MovesFrom(db, db', id) && db'.conns[id].status == db.conns[id].status
  {
    hide ByTool, DistinctTools;
  }

  lemma RetirementMoves(db: Db, tenant: string, id: string)
    requires id in db.conns
    ensures
      var db' := RetireTenant(db, tenant);
      && id in db'.conns && MovesFrom(db, db', id)
      && (db'.conns[id].status == Active ==> db.conns[id].status == Active)
  {
  }

  lemma OthersDoNotMove(rules: Rules, db: Db, a: Action, id: string)
    requires Recorded(db) && !WritesRow(a) && !WritesParts(a) && !a.DoRetire? && Run(rules, db, a).Ok? && id in db.conns
    ensures
      var db' := Run(rules, db, a).value;
      if id in db'.conns then MovesFrom(db, db', id) && db'.conns[id] == db.conns[id]
      else a.DoDelete? && !HasBinding(db, id)
  {
    hide HasBinding, IsSelected, BoundTo, LegalTargets;
    hide WithRows, WithoutService, ValidSnapshot, ConnectionsOwned, LegalStatuses, IdsFree;
  }

  /** A connection's status moves only along the table, each change takes one version, a declarative
      one becomes active only through activation, and none goes away while a binding uses it. */
  lemma ConnectionsMoveLegally(rules: Rules, db: Db, a: Action, id: string)
    requires Recorded(db) && Run(rules, db, a).Ok? && id in db.conns
    ensures
      var db' := Run(rules, db, a).value;
      if id in db'.conns then
        && MovesFrom(db, db', id)
        && (db.conns[id].kind.Declarative? && db'.conns[id].status == Active && db.conns[id].status != Active ==>
            a.DoActivate? && a.id == id)
      else a.DoDelete? && !HasBinding(db, id)
  {
    hide HasBinding, MovesFrom;
    if WritesRow(a) {
      hide Run;
      RowWritersMove(rules, db, a, id);
    } else if WritesParts(a) {
      hide Run;
      PartWritersMove(rules, db, a, id);
    } else if a.DoRetire? {
      hide RetireTenant;
      RetirementMoves(db, a.tenant, id);
    } else {
      hide Run;
      OthersDoNotMove(rules, db, a, id);
    }
  }

  /** An id that is gone does not come back. */
  lemma GoneStaysGone(rules: Rules, db: Db, a: Action, id: string)
    requires Run(rules, db, a).Ok? && id in db.used
    ensures id in Run(rules, db, a).value.used
    ensures id !in db.conns ==> id !in Run(rules, db, a).value.conns
  {
    hide Staged, LegalTargets, ByTool, DistinctTools, HasBinding, IsSelected, BoundTo, Get, Retired, RetiredService;
    hide WithRows, WithoutService, ValidSnapshot, ConnectionsOwned, LegalStatuses, IdsFree;
  }

  /** What was just published is what will be activated exactly when the connection was disabled, or
      no other revision was left pending; otherwise the older pending revision stays in front. */
  lemma PublishedIsPendingExactly(rules: Rules, db: Db, sel: Sel, tenant: string, id: string, expected: int)
    requires Sound(db) && PublishRevision(rules, db, sel, tenant, id, expected).Ok?
    ensures
      var c, db' := db.conns[id], PublishRevision(rules, db, sel, tenant, id, expected).value;
      var c' := db'.conns[id];
      var left := PendingPair(c.config).value;
      var inFront := c.status == Disabled || left == None || left == Some(sel);
      && (PendingIdentity(c') == Some(sel) <==> inFront)
      && (!inFront ==> PendingIdentity(c') == left)
      && (ActivateRevision(rules, db', sel, tenant, id, c'.version).Ok? <==> inFront && tenant in db.live)
  {
    hide RowsNamed, Recorded, LegalTargets;
    var c := db.conns[id];
    assert ConnOk(db.revisions, id, c);
    assert sel.spec != "" && sel.rev >= 1 by { NamedRow(db, RevKey(tenant, sel)); }
    StagedAfterPublish(c, sel);
    hide PendingPair, CurrentPair, Staged;
  }

  lemma NamedRow(db: Db, k: RevKey)
    requires Sound(db) && k in db.revisions
    ensures k.sel.spec != "" && k.sel.rev >= 1
  {
  }

  lemma StagedAfterPublish(c: Conn, sel: Sel)
    requires sel.spec != "" && sel.rev >= 1 && PendingPair(c.config).Ok?
    ensures
      var left := PendingPair(c.config).value;
      Staged(Published(c, sel)) ==
      if c.status == Draft && left.Some? then (Some(Text(left.value.spec)), Some(Number(left.value.rev)))
      else (Some(Text(sel.spec)), Some(Number(sel.rev)))
    ensures PendingPair(c.config).value.Some? ==>
      PendingPair(c.config).value.value.spec != "" && PendingPair(c.config).value.value.rev >= 1
  {
  }

  // ----- a pending revision that outlives a newer publication -----

  lemma Then(rules: Rules, actions: seq<Action>, a: Action) returns (more: seq<Action>)
    requires Run(rules, RunAll(rules, EMPTY, actions), a).Ok?
    ensures more == actions + [a] && RunAll(rules, EMPTY, more) == Run(rules, RunAll(rules, EMPTY, actions), a).value
  {
    hide Run;
    more := actions + [a];
    assert more[..|more| - 1] == actions;
  }

  ghost predicate Reaches(rules: Rules, actions: seq<Action>, tenant: string, id: string, c: Conn, keys: set<RevKey>) {
    var db := RunAll(rules, EMPTY, actions);
    tenant in db.live && id in db.conns && db.conns[id] == c && c.tenant == tenant && db.revisions.Keys == keys
  }

  lemma Begins(rules: Rules, tenant: string, id: string) returns (actions: seq<Action>)
    ensures Reaches(rules, actions, tenant, id, Conn(tenant, Declarative, "", Draft, "", map[], 1), {})
  {
    assert RunAll(rules, EMPTY, []) == EMPTY;
    hide RunAll;
    actions := Then(rules, [], DoTenant(tenant, true));
    BareDraft(rules, SetTenantLive(EMPTY, tenant, true), tenant, id);
    hide Run;
    actions := Then(rules, actions, DoCreate(id, Conn(tenant, Declarative, "", Draft, "", map[], 1), map[]));
  }

  lemma BareDraft(rules: Rules, db: Db, tenant: string, id: string)
    requires tenant in db.live && id !in db.used
    ensures
      var c := Conn(tenant, Declarative, "", Draft, "", map[], 1);
      var o := Run(rules, db, DoCreate(id, c, map[]));
      && o.Ok? && o.value.live == db.live && o.value.revisions == db.revisions
      && id in o.value.conns && o.value.conns[id] == c
  {
  }

  lemma Imports(
    rules: Rules, before: seq<Action>, tenant: string, id: string, c: Conn, keys: set<RevKey>, sel: Sel,
    content: Content)
    returns (actions: seq<Action>)
    requires Reaches(rules, before, tenant, id, c, keys) && Changeable(c) && RevKey(tenant, sel) !in keys
    requires sel.spec != "" && sel.rev >= 1 && rules.valid(content, c.mode)
    ensures Reaches(rules, actions, tenant, id, c.(config := Published(c, sel), version := c.version + 1),
                    keys + {RevKey(tenant, sel)})
    ensures actions != [] && actions[|actions| - 1] == DoPublish(sel, tenant, id, c.version)
    ensures IsPublished(RunAll(rules, EMPTY, actions).revisions, id, tenant, sel)
            && RunAll(rules, EMPTY, actions).revisions[RevKey(tenant, sel)].content == content
  {
    hide RunAll;
    actions := Then(rules, before, DoSave(sel, tenant, id, content, c.version));
    actions := Then(rules, actions, DoPublish(sel, tenant, id, c.version));
  }

  lemma ActivatesAndDisables(
    rules: Rules, before: seq<Action>, tenant: string, id: string, c: Conn, keys: set<RevKey>, sel: Sel)
    returns (actions: seq<Action>, done: Conn)
    requires Reaches(rules, before, tenant, id, c, keys) && Changeable(c) && c.config.Keys == {SpecId, Revision}
    requires Staged(c.config) == (Some(Text(sel.spec)), Some(Number(sel.rev)))
    requires IsPublished(RunAll(rules, EMPTY, before).revisions, id, tenant, sel)
    requires rules.valid(RunAll(rules, EMPTY, before).revisions[RevKey(tenant, sel)].content, c.mode)
    ensures Reaches(rules, actions, tenant, id, done, keys)
    ensures done.kind == c.kind && done.mode == c.mode && done.status == Disabled
    ensures done.config.Keys == {SpecId, Revision}
  {
    hide RunAll;
    actions := Then(rules, before, DoActivate(sel, tenant, id, c.version));
    actions := Then(rules, actions, DoDisable(id, tenant));
    done := RunAll(rules, EMPTY, actions).conns[id];
  }

  lemma GoesBackToDraft(rules: Rules, before: seq<Action>, tenant: string, id: string, c: Conn, keys: set<RevKey>)
    returns (actions: seq<Action>)
    requires Reaches(rules, before, tenant, id, c, keys) && c.kind.Declarative? && c.status == Disabled
    ensures Reaches(rules, actions, tenant, id, c.(status := Draft, version := c.version + 1), keys)
  {
    AlwaysSound(rules, before);
    hide RunAll, SelectorsOk, RowsNamed;
    actions := Then(rules, before, DoUpdate(id, tenant, c.name, c.mode, c.config, Some(Draft), c.version));
  }

  /** A second revision published while disabled stays pending when the connection goes back to draft;
      a third one published then is not the one that activation would take. */
  lemma StalePendingIsReachable(
    rules: Rules, tenant: string, id: string, first: Sel, second: Sel, third: Sel, content: Content)
    returns (actions: seq<Action>)
    requires first.spec != "" && first.rev >= 1 && second.spec != "" && second.rev >= 1
    requires third.spec != "" && third.rev >= 1
    requires first != second && first != third && second != third && rules.valid(content, "")
    ensures
      var db := RunAll(rules, EMPTY, actions);
      && id in db.conns && actions != [] && actions[|actions| - 1].DoPublish? && actions[|actions| - 1].sel == third
      && CurrentPair(db.conns[id].config) == Ok(Some(third))
      && PendingIdentity(db.conns[id]) == Some(second)
  {
    hide RunAll, CurrentPair, PendingPair, Reaches, Published, Staged, IsPublished, PendingIdentity;
    var none: Config := map[];
    var c1, k1, k2 := Conn(tenant, Declarative, "", Draft, "", none, 1), RevKey(tenant, first), RevKey(tenant, second);
    actions := Begins(rules, tenant, id);
    actions := Imports(rules, actions, tenant, id, c1, {}, first, content);
    FirstSelection(c1, first);
    var c2 := c1.(config := Published(c1, first), version := 2);
    var c4;
    actions, c4 := ActivatesAndDisables(rules, actions, tenant, id, c2, {} + {k1}, first);
    actions := Imports(rules, actions, tenant, id, c4, {} + {k1}, second, content);
    PublishedPairs(c4, second);
    var c5 := c4.(config := Published(c4, second), version := c4.version + 1);
    actions := GoesBackToDraft(rules, actions, tenant, id, c5, {} + {k1} + {k2});
    var c6 := c5.(status := Draft, version := c5.version + 1);
    actions := Imports(rules, actions, tenant, id, c6, {} + {k1} + {k2}, third, content);
    PublishedPairs(c6, third);
    OlderIsInFront(c6.(config := Published(c6, third), version := c6.version + 1), c6, second, third);
    ReachesConn(rules, actions, tenant, id, c6.(config := Published(c6, third), version := c6.version + 1),
                {} + {k1} + {k2} + {RevKey(tenant, third)});
  }

  lemma FirstSelection(c: Conn, sel: Sel)
    requires c.status == Draft && c.config == map[]
    ensures Published(c, sel).Keys == {SpecId, Revision}
    ensures Staged(Published(c, sel)) == (Some(Text(sel.spec)), Some(Number(sel.rev)))
  {
  }

  lemma OlderIsInFront(after: Conn, c: Conn, older: Sel, sel: Sel)
    requires c.kind.Declarative? && c.status == Draft
             && after == c.(config := Published(c, sel), version := c.version + 1)
    requires PendingPair(c.config) == Ok(Some(older)) && sel.spec != "" && sel.rev >= 1
    ensures PendingIdentity(after) == Some(older)
  {
    StagedAfterPublish(c, sel);
  }

  lemma ReachesConn(rules: Rules, actions: seq<Action>, tenant: string, id: string, c: Conn, keys: set<RevKey>)
    requires Reaches(rules, actions, tenant, id, c, keys)
    ensures id in RunAll(rules, EMPTY, actions).conns && RunAll(rules, EMPTY, actions).conns[id] == c
  {
  }
}
