/** The OpenAPI activation, one database access at a time, among all other management writes. */
module Activation {
  import opened Common
  import opened Management
  import opened Revisions

  /** What the caller sent. The digest is taken as injective: it stands for the analysed content.
      Given are whether the input fits (the credentials their schema, and no write tool twice) and
      whether the connection test passes. */
  datatype Request = Request(
    tenant: string, id: string, sel: Sel, expected: int, analysed: Content,
    credentials: map<string, string>, writeTools: set<string>, inputFits: bool, testPasses: bool)

  datatype Stage = First | AfterCredentials | AfterPolicies | AfterTest

  /** What the use case is about to do next. */
  datatype Phase =
    | ReadRecord(stage: Stage, plan: seq<Policy>)
    | CheckRevision(stage: Stage, record: Conn, plan: seq<Policy>)
    | Plan
    | ReadForCredentials(plan: seq<Policy>)
    | WriteCredentials(plan: seq<Policy>)
    | ReadForPolicies(plan: seq<Policy>)
    | WritePolicies(plan: seq<Policy>)
    | Test(plan: seq<Policy>)
    | ListPolicies(plan: seq<Policy>)
    | FinalRead(plan: seq<Policy>)
    | FinalTools(plan: seq<Policy>)
    | Activate(plan: seq<Policy>)
    | Done(at: Db, others: nat)
    | Failed

  /** `others` counts the other writers' changes to this connection since the first read. */
  datatype World = World(db: Db, phase: Phase, others: nat)

  function PlannedPolicy(t: ToolDecl, writeTools: set<string>): Policy {
    Policy(t.key, !t.isWrite || t.key in writeTools, t.isWrite && t.key in writeTools, 0)
  }

  function PlanFor(tools: seq<ToolDecl>, writeTools: set<string>): seq<Policy> {
    seq(|tools|, i requires 0 <= i < |tools| => PlannedPolicy(tools[i], writeTools))
  }

  predicate WriteToolsOk(tools: seq<ToolDecl>, writeTools: set<string>) {
    forall w :: w in writeTools ==> exists i :: 0 <= i < |tools| && tools[i] == ToolDecl(w, true)
  }

  function ToolKeys(tools: seq<ToolDecl>): set<string> { set i | 0 <= i < |tools| :: tools[i].key }

  function PoliciesOf(db: Db, id: string): map<string, Policy> { if id in db.policies then db.policies[id] else map[] }

  /** The version a stage's record must have for the use case to go on. */
  function Wanted(req: Request, stage: Stage): int {
    match stage
    case First => req.expected
    case AfterCredentials => req.expected + 1
    case AfterPolicies => req.expected + 2
    case AfterTest => req.expected + 2
  }

  function AfterCheck(stage: Stage, plan: seq<Policy>): Phase {
    match stage
    case First => Plan
    case AfterCredentials => ReadForPolicies(plan)
    case AfterPolicies => Test(plan)
    case AfterTest => ListPolicies(plan)
  }

  predicate RecordReady(req: Request, row: Option<Conn>) {
    row.Some? && row.value.kind.Declarative? && PendingIdentity(row.value) == Some(req.sel)
  }

  predicate RevisionReady(rules: Rules, req: Request, db: Db, mode: string) {
    var rev := RevisionOf(db, req.sel, req.tenant, req.id);
    rev.Some? && rules.valid(rev.value.content, mode) && rev.value.published && rev.value.content == req.analysed
  }

  predicate AtVersion(req: Request, db: Db, version: int) {
    var row := Owned(db, req.id, req.tenant);
    row.Some? && row.value.version == version
  }

  /** The use case's own next step. */
  function Own(rules: Rules, req: Request, w: World): World {
    var db, row := w.db, Owned(w.db, req.id, req.tenant);
    match w.phase
    case ReadRecord(stage, plan) =>
      if !RecordReady(req, row) || (stage == First && row.value.version != req.expected) then w.(phase := Failed)
      else w.(phase := CheckRevision(stage, row.value, plan), others := if stage == First then 0 else w.others)
    case CheckRevision(stage, record, plan) =>
      if !RevisionReady(rules, req, db, record.mode) || record.version != Wanted(req, stage) then w.(phase := Failed)
      else w.(phase := AfterCheck(stage, plan))
    case Plan =>
      var rev := RevisionOf(db, req.sel, req.tenant, req.id);
      if rev.None? || !req.inputFits || !WriteToolsOk(rules.tools(rev.value.content), req.writeTools) then
        w.(phase := Failed)
      else w.(phase := ReadForCredentials(PlanFor(rules.tools(rev.value.content), req.writeTools)))
    case ReadForCredentials(plan) =>
      w.(phase := if AtVersion(req, db, req.expected) then WriteCredentials(plan) else Failed)
    case WriteCredentials(plan) =>
      var r := ReplaceCredentials(db, req.id, req.tenant, req.credentials, req.expected);
      if r.Ok? then w.(db := r.value, phase := ReadRecord(AfterCredentials, plan)) else w.(phase := Failed)
    case ReadForPolicies(plan) =>
      w.(phase := if AtVersion(req, db, req.expected + 1) then WritePolicies(plan) else Failed)
    case WritePolicies(plan) =>
      var r := ReplaceToolPolicies(db, req.id, req.tenant, plan, req.expected + 1);
      if r.Ok? then w.(db := r.value, phase := ReadRecord(AfterPolicies, plan)) else w.(phase := Failed)
    case Test(plan) => w.(phase := if req.testPasses then ReadRecord(AfterTest, plan) else Failed)
    case ListPolicies(plan) => w.(phase := if PoliciesOf(db, req.id) == ByTool(plan) then FinalRead(plan) else Failed)
    case FinalRead(plan) =>
      w.(phase := if RecordReady(req, row) && row.value.version == req.expected + 2 then FinalTools(plan) else Failed)
    case FinalTools(plan) =>
      var rev := RevisionOf(db, req.sel, req.tenant, req.id);
      w.(phase := if rev.Some? && PoliciesOf(db, req.id).Keys == ToolKeys(rules.tools(rev.value.content))
                  then Activate(plan) else Failed)
    case Activate(_) =>
      var r := ActivateRevision(rules, db, req.sel, req.tenant, req.id, req.expected + 2);
      if r.Ok? then World(r.value, Done(r.value, w.others), w.others) else w.(phase := Failed)
    case Done(_, _) => w
    case Failed => w
  }

  /** Another writer changed this connection: its version moved, or it is gone. */
  predicate Touched(req: Request, a: Db, b: Db) {
    req.id in a.conns && (req.id !in b.conns || b.conns[req.id].version != a.conns[req.id].version)
  }

  ghost predicate Other(rules: Rules, req: Request, w: World, w': World) {
    exists a ::
      var r := Run(rules, w.db, a);
      r.Ok? && w' == World(r.value, w.phase, w.others + if Touched(req, w.db, r.value) then 1 else 0)
  }

  /** The use case moves, fails (as any check or service outside the tables may make it), or another writer commits. */
  ghost predicate Next(rules: Rules, req: Request, w: World, w': World) {
    w' == Own(rules, req, w) || w' == w.(phase := Failed) || Other(rules, req, w, w')
  }

  ghost predicate Execution(rules: Rules, req: Request, worlds: seq<World>) {
    && worlds != [] && worlds[0].phase == ReadRecord(First, []) && Sound(worlds[0].db)
    && forall i :: 0 <= i < |worlds| - 1 ==> Next(rules, req, worlds[i], worlds[i + 1])
  }

  // ----- what each phase relies on -----

  /** How many of the use case's own writes have committed. */
  function OwnWrites(phase: Phase): int {
    match phase
    case ReadRecord(stage, _) => StageWrites(stage)
    case CheckRevision(stage, _, _) => StageWrites(stage)
    case Plan => 0
    case ReadForCredentials(_) => 0
    case WriteCredentials(_) => 0
    case ReadForPolicies(_) => 1
    case WritePolicies(_) => 1
    case _ => 2
  }

  function StageWrites(stage: Stage): int {
    match stage case First => 0 case AfterCredentials => 1 case _ => 2
  }

  predicate Started(phase: Phase) { !phase.Failed? && !phase.Done? && phase != ReadRecord(First, []) }

  predicate Analysed(phase: Phase) { !(phase.CheckRevision? && phase.stage == First) }

  predicate DigestHolds(req: Request, db: Db) {
    && IsPublished(db.revisions, req.id, req.tenant, req.sel)
    && db.revisions[RevKey(req.tenant, req.sel)].content == req.analysed
  }

  function PlanIn(phase: Phase): Option<seq<Policy>> {
    match phase
    case ReadRecord(stage, plan) => if stage == First then None else Some(plan)
    case CheckRevision(stage, _, plan) => if stage == First then None else Some(plan)
    case Plan => None
    case ReadForCredentials(plan) => Some(plan)
    case WriteCredentials(plan) => Some(plan)
    case ReadForPolicies(plan) => Some(plan)
    case WritePolicies(plan) => Some(plan)
    case Test(plan) => Some(plan)
    case ListPolicies(plan) => Some(plan)
    case FinalRead(plan) => Some(plan)
    case FinalTools(plan) => Some(plan)
    case Activate(plan) => Some(plan)
    case Done(_, _) => None
    case Failed => None
  }

  predicate Tested(phase: Phase) {
    || (phase.ReadRecord? && phase.stage == AfterTest) || (phase.CheckRevision? && phase.stage == AfterTest)
    || phase.ListPolicies? || phase.FinalRead? || phase.FinalTools? || phase.Activate?
  }

  predicate CredsHold(req: Request, db: Db) { req.id in db.creds && db.creds[req.id] == req.credentials }

  predicate PoliciesHold(req: Request, db: Db, plan: seq<Policy>) {
    req.id in db.policies && db.policies[req.id] == ByTool(plan) && DistinctTools(plan)
  }

  predicate ConnHolds(req: Request, c: Conn) {
    c.tenant == req.tenant && c.kind.Declarative? && PendingIdentity(c) == Some(req.sel)
  }

  /** While nobody else has touched the connection, everything read or written so far still holds. */
  predicate Facts(req: Request, db: Db, phase: Phase) {
    && req.id in db.conns && ConnHolds(req, db.conns[req.id])
    && (Analysed(phase) ==> DigestHolds(req, db))
    && (phase.CheckRevision? ==> phase.record == db.conns[req.id])
    && (OwnWrites(phase) >= 1 ==> CredsHold(req, db))
    && (OwnWrites(phase) >= 2 && PlanIn(phase).Some? ==> PoliciesHold(req, db, PlanIn(phase).value))
  }

  function PlanOf(rules: Rules, req: Request): seq<Policy> { PlanFor(rules.tools(req.analysed), req.writeTools) }

  predicate Relies(rules: Rules, req: Request, w: World) {
    && req.id in w.db.used
    && (req.id in w.db.conns ==> w.db.conns[req.id].version == req.expected + OwnWrites(w.phase) + w.others)
    && (req.id !in w.db.conns ==> w.others > 0)
    && (w.phase.CheckRevision? ==> w.phase.record.version >= req.expected + OwnWrites(w.phase))
    && (w.others == 0 ==> Facts(req, w.db, w.phase))
    && (w.others == 0 && PlanIn(w.phase).Some? ==>
          && PlanIn(w.phase).value == PlanOf(rules, req)
          && req.inputFits && WriteToolsOk(rules.tools(req.analysed), req.writeTools))
    && (Tested(w.phase) ==> req.testPasses)
  }

  /** The state in which a successful activation leaves the connection. */
  predicate ExactlyActivated(rules: Rules, req: Request, db: Db) {
    && req.id in db.conns
    && var c := db.conns[req.id];
    && c.version == req.expected + 3 && c.status == Active
    && CurrentPair(c.config) == Ok(Some(req.sel)) && PendingSpecId !in c.config && PendingRevision !in c.config
    && CredsHold(req, db) && PoliciesHold(req, db, PlanOf(rules, req)) && DigestHolds(req, db)
    && req.inputFits && req.testPasses && WriteToolsOk(rules.tools(req.analysed), req.writeTools)
  }

  ghost predicate Invariant(rules: Rules, req: Request, w: World) {
    && Sound(w.db)
    && (Started(w.phase) ==> Relies(rules, req, w))
    && (w.phase.Done? ==> w.phase.others == 0 && ExactlyActivated(rules, req, w.phase.at))
  }

  // ----- other writers -----

  /** Every committed change to a connection's row, credentials or policies moves its version by one,
      and an id that is gone does not come back. */
  lemma ChangesMoveTheVersion(rules: Rules, db: Db, a: Action, id: string)
    requires Recorded(db) && Run(rules, db, a).Ok? && id in db.used
    ensures
      var db' := Run(rules, db, a).value;
      && id in db'.used
      && (id !in db.conns ==> id !in db'.conns)
      && (id in db.conns && id in db'.conns ==>
            || db'.conns[id].version == db.conns[id].version + 1
            || (db'.conns[id] == db.conns[id] && Get(db'.creds, id) == Get(db.creds, id)
                && Get(db'.policies, id) == Get(db.policies, id)))
  {
    hide Run, LegalTargets, HasBinding;
    GoneStaysGone(rules, db, a, id);
    if id in db.conns {
      ConnectionsMoveLegally(rules, db, a, id);
    }
  }

  /** A revision that the connection stages cannot be taken away or altered under it. */
  lemma StagedRevisionStays(rules: Rules, req: Request, db: Db, a: Action)
    requires Run(rules, db, a).Ok? && DigestHolds(req, db)
    requires req.id in db.conns && ConnHolds(req, db.conns[req.id])
    ensures DigestHolds(req, Run(rules, db, a).value)
  {
    var k := RevKey(req.tenant, req.sel);
    StagedIsSelected(db.conns[req.id], req.sel);
    RevisionsNeverChange(rules, db, a, k);
    hide Run, PendingIdentity, IsSelected;
  }

  lemma StagedIsSelected(c: Conn, sel: Sel)
    requires PendingIdentity(c) == Some(sel)
    ensures IsSelected(c.config, sel)
  {
  }

  lemma OtherKeepsInvariant(rules: Rules, req: Request, w: World, a: Action)
    requires Invariant(rules, req, w) && Run(rules, w.db, a).Ok?
    ensures
      var db := Run(rules, w.db, a).value;
      Invariant(rules, req, World(db, w.phase, w.others + if Touched(req, w.db, db) then 1 else 0))
  {
    hide Run, ConnHolds, DigestHolds, ExactlyActivated, PlanOf, ByTool;
    SoundStep(rules, w.db, a);
    var db := Run(rules, w.db, a).value;
    if Started(w.phase) {
      ChangesMoveTheVersion(rules, w.db, a, req.id);
      if w.others == 0 && DigestHolds(req, w.db) {
        StagedRevisionStays(rules, req, w.db, a);
      }
      hide Sound;
    }
  }

  // ----- own steps -----

  lemma ReadKeepsInvariant(rules: Rules, req: Request, w: World)
    requires Invariant(rules, req, w) && w.phase.ReadRecord?
    ensures Invariant(rules, req, Own(rules, req, w))
  {
    hide SelectorsOk, RowsNamed, ExactlyActivated, PlanOf, ByTool, PendingIdentity, RevisionReady;
  }

  lemma CheckKeepsInvariant(rules: Rules, req: Request, w: World)
    requires Invariant(rules, req, w) && w.phase.CheckRevision?
    ensures Invariant(rules, req, Own(rules, req, w))
  {
    hide Sound, ExactlyActivated, PlanOf, ByTool, PendingIdentity;
  }

  lemma PlanKeepsInvariant(rules: Rules, req: Request, w: World)
    requires Invariant(rules, req, w) && w.phase.Plan?
    ensures Invariant(rules, req, Own(rules, req, w))
  {
    hide Sound, ExactlyActivated, ByTool, PendingIdentity, PlanFor, WriteToolsOk;
  }

  /** Reads that only let the use case go on, or stop it. */
  lemma ReadsKeepInvariant(rules: Rules, req: Request, w: World)
    requires Invariant(rules, req, w)
    requires w.phase.ReadForCredentials? || w.phase.ReadForPolicies? || w.phase.Test? || w.phase.ListPolicies?
             || w.phase.FinalRead? || w.phase.FinalTools? || w.phase.Done? || w.phase.Failed?
    ensures Invariant(rules, req, Own(rules, req, w))
  {
    hide Sound, ExactlyActivated, PlanOf, ByTool, ConnHolds, DigestHolds, CredsHold, PoliciesHold;
    hide AtVersion, RecordReady, ToolKeys, PoliciesOf;
  }

  lemma CredentialsKeepInvariant(rules: Rules, req: Request, w: World)
    requires Invariant(rules, req, w) && w.phase.WriteCredentials?
    ensures Invariant(rules, req, Own(rules, req, w))
  {
    hide ExactlyActivated, PlanOf, ByTool, SelectorsOk, RowsNamed, Recorded;
    var r := ReplaceCredentials(w.db, req.id, req.tenant, req.credentials, req.expected);
    if r.Ok? {
      CredentialsKeepSound(w.db, req.id, req.tenant, req.credentials, req.expected);
    }
  }

  lemma PoliciesKeepInvariant(rules: Rules, req: Request, w: World)
    requires Invariant(rules, req, w) && w.phase.WritePolicies?
    ensures Invariant(rules, req, Own(rules, req, w))
  {
    hide ExactlyActivated, PlanOf, ByTool, DistinctTools, SelectorsOk, RowsNamed, Recorded;
    var r := ReplaceToolPolicies(w.db, req.id, req.tenant, w.phase.plan, req.expected + 1);
    if r.Ok? {
      PoliciesKeepSound(w.db, req.id, req.tenant, w.phase.plan, req.expected + 1);
    }
  }

  lemma ActivateKeepsInvariant(rules: Rules, req: Request, w: World)
    requires Invariant(rules, req, w) && w.phase.Activate?
    ensures Invariant(rules, req, Own(rules, req, w))
  {
    hide PlanOf, ByTool, SelectorsOk, RowsNamed, Recorded;
    var r := ActivateRevision(rules, w.db, req.sel, req.tenant, req.id, req.expected + 2);
    if r.Ok? {
      ActivateKeepsSound(rules, w.db, req.sel, req.tenant, req.id, req.expected + 2);
    }
  }

  lemma OwnKeepsInvariant(rules: Rules, req: Request, w: World)
    requires Invariant(rules, req, w)
    ensures Invariant(rules, req, Own(rules, req, w))
  {
    hide Invariant, Own;
    match w.phase
    case ReadRecord(_, _) => ReadKeepsInvariant(rules, req, w);
    case CheckRevision(_, _, _) => CheckKeepsInvariant(rules, req, w);
    case Plan => PlanKeepsInvariant(rules, req, w);
    case WriteCredentials(_) => CredentialsKeepInvariant(rules, req, w);
    case WritePolicies(_) => PoliciesKeepInvariant(rules, req, w);
    case Activate(_) => ActivateKeepsInvariant(rules, req, w);
    case _ => ReadsKeepInvariant(rules, req, w);
  }

  lemma {:induction false} AlwaysInvariant(rules: Rules, req: Request, worlds: seq<World>, i: nat)
    requires Execution(rules, req, worlds) && i < |worlds|
    ensures Invariant(rules, req, worlds[i])
  {
    hide Own, Other;
    if i > 0 {
      AlwaysInvariant(rules, req, worlds, i - 1);
      var w, w' := worlds[i - 1], worlds[i];
      assert Next(rules, req, worlds[i - 1], worlds[i - 1 + 1]);
      OwnKeepsInvariant(rules, req, w);
      if Other(rules, req, w, w') {
        OthersKeepInvariant(rules, req, w, w');
      }
      hide Relies, ExactlyActivated;
    }
  }

  lemma OthersKeepInvariant(rules: Rules, req: Request, w: World, w': World)
    requires Invariant(rules, req, w) && Other(rules, req, w, w')
    ensures Invariant(rules, req, w')
  {
    hide Run, Invariant, Touched;
    var a :| Run(rules, w.db, a).Ok?
             && w' == World(Run(rules, w.db, a).value, w.phase,
                            w.others + if Touched(req, w.db, Run(rules, w.db, a).value) then 1 else 0);
    OtherKeepsInvariant(rules, req, w, a);
  }

  /** The policies are those of the analysed tools and no others: a read tool is enabled, a write tool
      is enabled and may write exactly where it was selected. */
  ghost predicate AllowsExactly(tools: seq<ToolDecl>, writeTools: set<string>, policies: map<string, Policy>) {
    && (forall i :: 0 <= i < |tools| ==>
          && tools[i].key in policies
          && var p := policies[tools[i].key];
          && p.tool == tools[i].key && p.options == 0
          && (p.enabled <==> !tools[i].isWrite || tools[i].key in writeTools)
          && (p.allowWrite <==> tools[i].isWrite && tools[i].key in writeTools))
    && (forall k :: k in policies ==> exists i :: 0 <= i < |tools| && tools[i].key == k)
  }

  lemma PlanAllowsExactly(tools: seq<ToolDecl>, writeTools: set<string>)
    requires DistinctTools(PlanFor(tools, writeTools))
    ensures AllowsExactly(tools, writeTools, ByTool(PlanFor(tools, writeTools)))
  {
    var plan := PlanFor(tools, writeTools);
    var policies := ByTool(plan);
    forall i: nat | i < |tools|
      ensures tools[i].key in policies && policies[tools[i].key] == PlannedPolicy(tools[i], writeTools)
    {
      ByToolHolds(plan, i);
    }
    forall k | k in ByTool(plan) ensures exists i :: 0 <= i < |tools| && tools[i].key == k {
      ByToolNames(plan, k);
      var i :| 0 <= i < |plan| && plan[i].tool == k;
      assert tools[i].key == k;
    }
    hide ByTool;
  }

  /** If an activation succeeds among any other writers, no other change to the connection was
      committed between its first read and its last write, the version is exactly three above the one
      expected, and the connection holds exactly the sent credentials, the planned policies and the
      analysed revision. */
  lemma SuccessfulActivationIsExact(rules: Rules, req: Request, worlds: seq<World>, i: nat)
    requires Execution(rules, req, worlds) && i < |worlds| && worlds[i].phase.Done?
    ensures
      var at := worlds[i].phase.at;
      && worlds[i].phase.others == 0
      && req.id in at.conns
      && var c := at.conns[req.id];
      && c.version == req.expected + 3 && c.status == Active
      && CurrentPair(c.config) == Ok(Some(req.sel)) && PendingSpecId !in c.config && PendingRevision !in c.config
      && req.id in at.creds && at.creds[req.id] == req.credentials
      && req.id in at.policies && at.policies[req.id] == ByTool(PlanFor(rules.tools(req.analysed), req.writeTools))
      && AllowsExactly(rules.tools(req.analysed), req.writeTools, at.policies[req.id])
      && IsPublished(at.revisions, req.id, req.tenant, req.sel)
      && at.revisions[RevKey(req.tenant, req.sel)].content == req.analysed
  {
    hide CurrentPair, ByTool, PlanFor, Execution, AllowsExactly, DistinctTools;
    AlwaysInvariant(rules, req, worlds, i);
    assert DistinctTools(PlanOf(rules, req));
    PlanAllowsExactly(rules.tools(req.analysed), req.writeTools);
    hide Sound;
  }

  /** All the use case ever writes are these three transactions, each in its own phase. */
  lemma OwnStepsCommitOnlyTheirTransactions(rules: Rules, req: Request, w: World)
    ensures
      var db := Own(rules, req, w).db;
      || db == w.db
      || (w.phase.WriteCredentials?
          && Ok(db) == ReplaceCredentials(w.db, req.id, req.tenant, req.credentials, req.expected))
      || (w.phase.WritePolicies?
          && Ok(db) == ReplaceToolPolicies(w.db, req.id, req.tenant, w.phase.plan, req.expected + 1))
      || (w.phase.Activate?
          && Ok(db) == ActivateRevision(rules, w.db, req.sel, req.tenant, req.id, req.expected + 2)
          && Own(rules, req, w).phase == Done(db, w.others))
  {
    hide RecordReady, RevisionReady, WriteToolsOk, PlanFor, AtVersion, ByTool, ToolKeys;
  }

  /** In the tables' own terms: the current selector names the published analysed revision and none is
      pending; and the selection named write tools only, the input fitted and the test passed. */
  lemma ActivationInTheTables(rules: Rules, req: Request, worlds: seq<World>, i: nat)
    requires Execution(rules, req, worlds) && i < |worlds| && worlds[i].phase.Done?
    ensures
      var at, tools, k := worlds[i].phase.at, rules.tools(req.analysed), RevKey(req.tenant, req.sel);
      && (forall w :: w in req.writeTools ==> ToolDecl(w, true) in tools)
      && req.inputFits && req.testPasses
      && k in at.revisions && at.revisions[k] == RevRow(req.id, true, req.analysed)
      && req.id in at.conns
      && var config := at.conns[req.id].config;
      && SpecId in config && config[SpecId] == Text(req.sel.spec)
      && Revision in config && config[Revision] == Number(req.sel.rev)
      && PendingSpecId !in config && PendingRevision !in config
  {
    hide ByTool, PlanFor, Execution, Sound, DistinctTools;
    AlwaysInvariant(rules, req, worlds, i);
  }

  // ----- and it does succeed where nobody interferes -----

  function Steps(rules: Rules, req: Request, w: World, n: nat): World
    decreases n
  {
    if n == 0 then w else Steps(rules, req, Own(rules, req, w), n - 1)
  }

  predicate DistinctKeys(tools: seq<ToolDecl>) {
    forall i, j :: 0 <= i < j < |tools| ==> tools[i].key != tools[j].key
  }

  /** The connection still stages the analysed revision, at this version. */
  predicate StagesAt(rules: Rules, req: Request, db: Db, version: int) {
    var row := Owned(db, req.id, req.tenant);
    && RecordReady(req, row) && row.value.version == version && RevisionReady(rules, req, db, row.value.mode)
  }

  /** What the use case can check before its first write. */
  predicate Ready(rules: Rules, req: Request, db: Db) {
    && StagesAt(rules, req, db, req.expected)
    && req.inputFits && WriteToolsOk(rules.tools(req.analysed), req.writeTools)
  }

  /** What only the writes themselves check. */
  predicate Writable(rules: Rules, req: Request, db: Db) {
    && DistinctKeys(rules.tools(req.analysed)) && req.tenant in db.live && req.id in db.conns
    && Changeable(db.conns[req.id])
  }

  lemma StepsTo(rules: Rules, req: Request, w: World, n: nat)
    requires n > 0
    ensures Steps(rules, req, w, n) == Steps(rules, req, Own(rules, req, w), n - 1)
  {
  }

  lemma {:induction false} FailedStays(rules: Rules, req: Request, w: World, n: nat)
    requires w.phase.Failed?
    ensures Steps(rules, req, w, n) == w
    decreases n
  {
    if n > 0 {
      FailedStays(rules, req, w, n - 1);
      assert Own(rules, req, w) == w;
    }
  }

  lemma FirstSteps(rules: Rules, req: Request, db: Db)
    requires Ready(rules, req, db)
    ensures
      var w0 := World(db, ReadRecord(First, []), 0);
      Steps(rules, req, w0, 18) == Steps(rules, req, World(db, WriteCredentials(PlanOf(rules, req)), 0), 14)
  {
    hide Steps, PlanFor, WriteToolsOk, PendingIdentity;
    var w0 := World(db, ReadRecord(First, []), 0);
    var w1 := World(db, CheckRevision(First, Owned(db, req.id, req.tenant).value, []), 0);
    assert Own(rules, req, w0) == w1;
    assert Own(rules, req, w1) == World(db, Plan, 0);
    assert Own(rules, req, World(db, Plan, 0)) == World(db, ReadForCredentials(PlanOf(rules, req)), 0);
    StepsTo(rules, req, w0, 18);
    StepsTo(rules, req, w1, 17);
    StepsTo(rules, req, World(db, Plan, 0), 16);
    StepsTo(rules, req, World(db, ReadForCredentials(PlanOf(rules, req)), 0), 15);
  }

  function WithCredentials(req: Request, db: Db): Db
    requires req.id in db.conns
  {
    Bump(db.(creds := db.creds[req.id := req.credentials]), req.id, db.conns[req.id])
  }

  function WithPolicies(req: Request, db: Db, plan: seq<Policy>): Db
    requires req.id in db.conns
  {
    Bump(db.(policies := db.policies[req.id := ByTool(plan)]), req.id, db.conns[req.id])
  }

  lemma CredentialSteps(rules: Rules, req: Request, db: Db, plan: seq<Policy>)
    requires StagesAt(rules, req, db, req.expected)
    ensures Steps(rules, req, World(db, WriteCredentials(plan), 0), 14)
         == Steps(rules, req, World(WithCredentials(req, db), WritePolicies(plan), 0), 10)
    ensures StagesAt(rules, req, WithCredentials(req, db), req.expected + 1)
    ensures Writable(rules, req, db) <==> Writable(rules, req, WithCredentials(req, db))
  {
    hide Steps, DistinctKeys;
    var db1 := WithCredentials(req, db);
    StepsTo(rules, req, World(db, WriteCredentials(plan), 0), 14);
    StepsTo(rules, req, World(db1, ReadRecord(AfterCredentials, plan), 0), 13);
    StepsTo(rules, req, World(db1, CheckRevision(AfterCredentials, Owned(db1, req.id, req.tenant).value, plan), 0), 12);
    StepsTo(rules, req, World(db1, ReadForPolicies(plan), 0), 11);
  }

  lemma PolicySteps(rules: Rules, req: Request, db: Db, plan: seq<Policy>)
    requires StagesAt(rules, req, db, req.expected + 1) && DistinctTools(plan)
    requires ByTool(plan).Keys == ToolKeys(rules.tools(req.analysed)) && req.testPasses
    ensures Steps(rules, req, World(db, WritePolicies(plan), 0), 10)
         == Steps(rules, req, World(WithPolicies(req, db, plan), Activate(plan), 0), 1)
    ensures StagesAt(rules, req, WithPolicies(req, db, plan), req.expected + 2)
    ensures Writable(rules, req, db) <==> Writable(rules, req, WithPolicies(req, db, plan))
  {
    hide Steps, ByTool, DistinctTools, ToolKeys, PendingIdentity, DistinctKeys;
    var db2 := WithPolicies(req, db, plan);
    var row := Owned(db2, req.id, req.tenant).value;
    assert row == db.conns[req.id].(version := req.expected + 2);
    SamePending(db.conns[req.id], row);
    StepsTo(rules, req, World(db, WritePolicies(plan), 0), 10);
    StepsTo(rules, req, World(db2, ReadRecord(AfterPolicies, plan), 0), 9);
    StepsTo(rules, req, World(db2, CheckRevision(AfterPolicies, row, plan), 0), 8);
    StepsTo(rules, req, World(db2, Test(plan), 0), 7);
    StepsTo(rules, req, World(db2, ReadRecord(AfterTest, plan), 0), 6);
    StepsTo(rules, req, World(db2, CheckRevision(AfterTest, row, plan), 0), 5);
    StepsTo(rules, req, World(db2, ListPolicies(plan), 0), 4);
    StepsTo(rules, req, World(db2, FinalRead(plan), 0), 3);
    StepsTo(rules, req, World(db2, FinalTools(plan), 0), 2);
  }

  lemma SamePending(a: Conn, b: Conn)
    requires a.kind == b.kind && a.status == b.status && a.config == b.config
    ensures PendingIdentity(a) == PendingIdentity(b)
  {
  }

  lemma PlanNamesTheTools(tools: seq<ToolDecl>, writeTools: set<string>)
    ensures ByTool(PlanFor(tools, writeTools)).Keys == ToolKeys(tools)
    ensures DistinctTools(PlanFor(tools, writeTools)) <==> DistinctKeys(tools)
  {
    var plan := PlanFor(tools, writeTools);
    forall t: string ensures t in ByTool(plan) <==> exists i :: 0 <= i < |plan| && plan[i].tool == t {
      ByToolNames(plan, t);
    }
    hide ByTool;
    assert |plan| == |tools| && forall i :: 0 <= i < |tools| ==> plan[i].tool == tools[i].key;
    hide PlanFor;
    if DistinctTools(plan) {
      forall i, j | 0 <= i < j < |tools| ensures tools[i].key != tools[j].key {
        assert plan[i].tool != plan[j].tool;
      }
    }
  }

  lemma PolicyFailure(rules: Rules, req: Request, db: Db, plan: seq<Policy>)
    requires !DistinctTools(plan)
    ensures Steps(rules, req, World(db, WritePolicies(plan), 0), 10).phase.Failed?
  {
    hide Steps, DistinctTools, ByTool;
    var w := World(db, WritePolicies(plan), 0);
    StepsTo(rules, req, w, 10);
    FailedStays(rules, req, Own(rules, req, w), 9);
  }

  lemma TestFailure(rules: Rules, req: Request, db: Db, plan: seq<Policy>)
    requires StagesAt(rules, req, db, req.expected + 1) && DistinctTools(plan) && !req.testPasses
    ensures Steps(rules, req, World(db, WritePolicies(plan), 0), 10).phase.Failed?
  {
    hide Steps, ByTool, DistinctTools, PendingIdentity;
    var db2 := WithPolicies(req, db, plan);
    var row := Owned(db2, req.id, req.tenant).value;
    assert row == db.conns[req.id].(version := req.expected + 2);
    SamePending(db.conns[req.id], row);
    StepsTo(rules, req, World(db, WritePolicies(plan), 0), 10);
    StepsTo(rules, req, World(db2, ReadRecord(AfterPolicies, plan), 0), 9);
    StepsTo(rules, req, World(db2, CheckRevision(AfterPolicies, row, plan), 0), 8);
    StepsTo(rules, req, World(db2, Test(plan), 0), 7);
    FailedStays(rules, req, World(db2, Failed, 0), 6);
  }

  /** Whatever its first checks refuse fails before anything is written. */
  lemma NotReadyFails(rules: Rules, req: Request, db: Db)
    requires !Ready(rules, req, db)
    ensures Steps(rules, req, World(db, ReadRecord(First, []), 0), 18) == World(db, Failed, 0)
  {
    hide Steps, PlanFor, WriteToolsOk, PendingIdentity;
    var w0 := World(db, ReadRecord(First, []), 0);
    StepsTo(rules, req, w0, 18);
    var w1 := Own(rules, req, w0);
    StepsTo(rules, req, w1, 17);
    var w2 := Own(rules, req, w1);
    StepsTo(rules, req, w2, 16);
    var w3 := Own(rules, req, w2);
    assert w3 == World(db, Failed, 0);
    FailedStays(rules, req, w3, 15);
  }

  lemma LastStep(rules: Rules, req: Request, db: Db, plan: seq<Policy>)
    requires StagesAt(rules, req, db, req.expected + 2) && DistinctKeys(rules.tools(req.analysed))
    ensures Steps(rules, req, World(db, Activate(plan), 0), 1).phase.Done? <==> Writable(rules, req, db)
  {
    hide DistinctKeys;
    var w := World(db, Activate(plan), 0);
    assert Steps(rules, req, w, 1) == Steps(rules, req, Own(rules, req, w), 0) == Own(rules, req, w);
  }

  lemma StagesAtIsOwned(rules: Rules, req: Request, db: Db, version: int)
    requires StagesAt(rules, req, db, version)
    ensures req.id in db.conns
  {
  }

  /** This text names a revision's document, and this value its number. */
  predicate Names(config: Config, spec: ConfigKey, rev: ConfigKey, sel: Sel) {
    && spec in config && config[spec] == Text(sel.spec) && rev in config && config[rev] == Number(sel.rev)
    && sel.spec != "" && sel.rev >= 1
  }

  /** The configuration stages a revision: as the pending one, or, where no document is pending, as the
      current one. */
  predicate Stages(config: Config, sel: Sel) {
    if PendingSpecId in config && config[PendingSpecId].Text? && config[PendingSpecId].s != ""
    then Names(config, PendingSpecId, PendingRevision, sel)
    else Names(config, SpecId, Revision, sel)
  }

  /** What an activation asks of the tables and of its input, each condition of the source once. */
  predicate MaySucceed(rules: Rules, req: Request, db: Db) {
    var k, tools := RevKey(req.tenant, req.sel), rules.tools(req.analysed);
    && req.tenant in db.live && req.id in db.conns
    && var c := db.conns[req.id];
    && c.tenant == req.tenant && c.kind == Declarative && c.version == req.expected
    && (c.status == Draft || c.status == Disabled) && Stages(c.config, req.sel)
    && k in db.revisions && db.revisions[k] == RevRow(req.id, true, req.analysed) && rules.valid(req.analysed, c.mode)
    && (forall w :: w in req.writeTools ==> ToolDecl(w, true) in tools)
    && (forall i, j :: 0 <= i < j < |tools| ==> tools[i].key != tools[j].key)
    && req.inputFits && req.testPasses
  }

  lemma MaySucceedExactly(rules: Rules, req: Request, db: Db)
    ensures MaySucceed(rules, req, db) <==> Ready(rules, req, db) && Writable(rules, req, db) && req.testPasses
  {
    var tools := rules.tools(req.analysed);
    assert WriteToolsOk(tools, req.writeTools) <==> forall w :: w in req.writeTools ==> ToolDecl(w, true) in tools;
    if req.id in db.conns {
      StagesExactly(db.conns[req.id], req.sel);
    }
    hide Stages, PendingIdentity, WriteToolsOk;
  }

  lemma StagesExactly(c: Conn, sel: Sel)
    ensures PendingIdentity(c) == Some(sel) <==> c.kind == Declarative && c.status != Active && Stages(c.config, sel)
  {
  }

  /** An undisturbed activation succeeds exactly when it passes its first checks, its tools have
      distinct keys, the tenant is live, the connection is a draft or disabled and its test passes. */
  lemma UndisturbedActivationSucceedsExactly(rules: Rules, req: Request, db: Db)
    ensures Steps(rules, req, World(db, ReadRecord(First, []), 0), 18).phase.Done? <==> MaySucceed(rules, req, db)
  {
    hide Steps, Ready, Writable, MaySucceed;
    MaySucceedExactly(rules, req, db);
    if Ready(rules, req, db) {
      ReadyActivationSucceedsExactly(rules, req, db);
    } else {
      NotReadyFails(rules, req, db);
    }
  }

  lemma ReadyActivationSucceedsExactly(rules: Rules, req: Request, db: Db)
    requires Ready(rules, req, db)
    ensures Steps(rules, req, World(db, ReadRecord(First, []), 0), 18).phase.Done?
            <==> Writable(rules, req, db) && req.testPasses
  {
    var tools, plan := rules.tools(req.analysed), PlanOf(rules, req);
    PlanNamesTheTools(tools, req.writeTools);
    WritableHasDistinctKeys(rules, req, db);
    hide Steps, PlanFor, ByTool, ToolKeys, StagesAt, Writable, DistinctTools, DistinctKeys, WriteToolsOk, Own;
    FirstSteps(rules, req, db);
    StagesAtIsOwned(rules, req, db, req.expected);
    CredentialSteps(rules, req, db, plan);
    var db1 := WithCredentials(req, db);
    StagesAtIsOwned(rules, req, db1, req.expected + 1);
    if !DistinctTools(plan) {
      PolicyFailure(rules, req, db1, plan);
    } else if req.testPasses {
      PolicySteps(rules, req, db1, plan);
      LastStep(rules, req, WithPolicies(req, db1, plan), plan);
    } else {
      TestFailure(rules, req, db1, plan);
    }
  }

  lemma WritableHasDistinctKeys(rules: Rules, req: Request, db: Db)
    ensures Writable(rules, req, db) ==> DistinctKeys(rules.tools(req.analysed))
  {
  }
}
