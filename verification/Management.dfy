/** The management tables, and what each transaction does to them. */
module Management {
  import opened Common

  datatype Status = Draft | Active | Disabled | Error

  datatype Kind = Declarative | Native(key: string)

  datatype ConfigKey = SpecId | Revision | PendingSpecId | PendingRevision | OtherKey(name: string)

  datatype ConfigValue = Text(s: string) | Number(n: int) | OtherValue(tag: nat)

  type Config = map<ConfigKey, ConfigValue>

  /** A declarative revision, named within its tenant. */
  datatype Sel = Sel(spec: string, rev: int)

  datatype Conn = Conn(
    tenant: string, kind: Kind, name: string, status: Status, mode: string, config: Config, version: int)

  datatype RevKey = RevKey(tenant: string, sel: Sel)

  type Content = nat

  datatype RevRow = RevRow(conn: string, published: bool, content: Content)

  datatype Policy = Policy(tool: string, enabled: bool, allowWrite: bool, options: nat)

  datatype ServiceStatus = SDraft | SActive | SDisabled

  datatype Service = Service(tenant: string, status: ServiceStatus, version: int)

  datatype BindingStatus = BActive | BDisabled | BBroken

  datatype Binding = Binding(service: string, conn: string, tool: string, alias: string, status: BindingStatus)

  /** One binding of a snapshot, with its id. */
  datatype Row = Row(id: string, binding: Binding)

  datatype ToolDecl = ToolDecl(key: string, isWrite: bool)

  /** What is left open: the revision validator, the tools of a compiled revision, and casefolding. */
  datatype Rules = Rules(
    valid: (Content, string) -> bool,
    tools: Content -> seq<ToolDecl>,
    fold: string -> string)

  /** The tables; and, for stating properties only, every id ever given out and the configuration
      committed at every version. */
  datatype Db = Db(
    live: set<string>,
    conns: map<string, Conn>,
    creds: map<string, map<string, string>>,
    policies: map<string, map<string, Policy>>,
    revisions: map<RevKey, RevRow>,
    services: map<string, Service>,
    bindings: map<string, Binding>,
    used: set<string>,
    history: map<(string, int), Config>)

  datatype Failure = NotFound | Conflict | Invalid | InUse | NotOwned

  type Outcome = Result<Db, Failure>

  function Get<K, V>(m: map<K, V>, k: K): Option<V> { if k in m then Some(m[k]) else None }

  function LegalTargets(s: Status): set<Status> {
    match s
    case Draft => {Draft, Active, Disabled}
    case Active => {Active, Disabled, Error}
    case Disabled => {Disabled, Draft, Active}
    case Error => {Error, Draft, Active, Disabled}
  }

  /** The connection row of this tenant, where there is one. */
  function Owned(db: Db, id: string, tenant: string): Option<Conn> {
    if id in db.conns && db.conns[id].tenant == tenant then Some(db.conns[id]) else None
  }

  /** Writes a connection row and bumps its version. */
  function Bump(db: Db, id: string, c: Conn): Db {
    var next := c.(version := c.version + 1);
    db.(conns := db.conns[id := next], history := db.history[(id, next.version) := next.config])
  }

  // ----- revision selectors -----

  predicate UsableText(v: Option<ConfigValue>) { v.Some? && v.value.Text? && v.value.s != "" }

  predicate UsableNumber(v: Option<ConfigValue>) { v.Some? && v.value.Number? && v.value.n > 0 }

  /** The selector that counts while a connection is not active: the pending one, or the current one. */
  function Staged(config: Config): (Option<ConfigValue>, Option<ConfigValue>) {
    if UsableText(Get(config, PendingSpecId)) then (Get(config, PendingSpecId), Get(config, PendingRevision))
    else (Get(config, SpecId), Get(config, Revision))
  }

  function PendingIdentity(c: Conn): Option<Sel> {
    var (spec, rev) := Staged(c.config);
    if !c.kind.Declarative? || c.status == Active || !UsableText(spec) || !UsableNumber(rev) then None
    else Some(Sel(spec.value.s, rev.value.n))
  }

  /** One selector pair: absent, well-formed, or damaged. */
  function PairOf(spec: Option<ConfigValue>, rev: Option<ConfigValue>): Result<Option<Sel>, Failure> {
    if spec.None? && rev.None? then Ok(None)
    else if UsableText(spec) && UsableNumber(rev) then Ok(Some(Sel(spec.value.s, rev.value.n)))
    else Err(InUse)
  }

  function CurrentPair(config: Config): Result<Option<Sel>, Failure> {
    PairOf(Get(config, SpecId), Get(config, Revision))
  }

  function PendingPair(config: Config): Result<Option<Sel>, Failure> {
    PairOf(Get(config, PendingSpecId), Get(config, PendingRevision))
  }

  /** A damaged selector counts as selected. */
  predicate IsSelected(config: Config, sel: Sel) {
    || CurrentPair(config).Err? || PendingPair(config).Err?
    || CurrentPair(config).value == Some(sel) || PendingPair(config).value == Some(sel)
  }

  // ----- connections -----

  /** What the use case sends: the first version of a draft or active row, and a declarative one bare. */
  predicate IsNew(c: Conn, credentials: map<string, string>) {
    && c.version == 1 && (c.status == Draft || c.status == Active)
    && (c.kind.Declarative? ==> c.status == Draft && c.config == map[] && credentials == map[])
  }

  /** The use case's checks and the insert of a new connection under a fresh id. */
  function CreateConnection(db: Db, id: string, c: Conn, credentials: map<string, string>): Outcome {
    if !IsNew(c, credentials) || c.tenant !in db.live || id in db.used || "" in credentials then Err(Invalid)
    else
      Ok(db.(conns := db.conns[id := c], creds := db.creds[id := credentials],
             used := db.used + {id}, history := db.history[(id, 1) := c.config]))
  }

  function UpdateConnection(
    db: Db, id: string, tenant: string, name: string, mode: string, config: Config, status: Option<Status>,
    expected: int): Outcome
  {
    if tenant !in db.live then Err(Invalid)
    else
      var row := Owned(db, id, tenant);
      if row.None? then Err(NotFound)
      else
        var c := row.value;
        var next := if status.Some? then status.value else c.status;
        if c.version != expected then Err(Conflict)
        else if c.kind.Declarative? && c.status != Active && next == Active then Err(Invalid)
        else if next !in LegalTargets(c.status) then Err(Invalid)
        else Ok(Bump(db, id, c.(name := name, mode := mode, config := config, status := next)))
  }

  /** The update use case: a declarative configuration must be sent back as it was read at the
      expected version, and is never activated this way. */
  function UpdateUseCase(
    db: Db, id: string, tenant: string, name: string, mode: string, config: Config, status: Option<Status>,
    expected: int): Outcome
  {
    if id in db.conns && db.conns[id].kind.Declarative?
       && (status == Some(Active) || Get(db.history, (id, expected)) != Some(config)) then Err(Invalid)
    else UpdateConnection(db, id, tenant, name, mode, config, status, expected)
  }

  function DisableConnection(db: Db, id: string, tenant: string): Outcome {
    var row := Owned(db, id, tenant);
    if row.None? then Err(NotFound)
    else if Disabled !in LegalTargets(row.value.status) then Err(Invalid)
    else Ok(Bump(db, id, row.value.(status := Disabled)))
  }

  predicate HasBinding(db: Db, id: string) { exists b :: b in db.bindings && db.bindings[b].conn == id }

  function DeleteConnection(db: Db, id: string, tenant: string): Outcome {
    if Owned(db, id, tenant).None? then Err(NotFound)
    else if HasBinding(db, id) then Err(InUse)
    else Ok(db.(conns := db.conns - {id}))
  }

  function ReplaceCredentials(
    db: Db, id: string, tenant: string, credentials: map<string, string>, expected: int): Outcome
  {
    if id !in db.conns then Err(NotFound)
    else if db.conns[id].version != expected then Err(Conflict)
    else if db.conns[id].tenant != tenant then Err(NotFound)
    else Ok(Bump(db.(creds := db.creds[id := credentials]), id, db.conns[id]))
  }

  function ByTool(policies: seq<Policy>): map<string, Policy> {
    if policies == [] then map[]
    else
      var last := policies[|policies| - 1];
      ByTool(policies[..|policies| - 1])[last.tool := last]
  }

  lemma {:induction false} ByToolNames(list: seq<Policy>, tool: string)
    ensures tool in ByTool(list) <==> exists i :: 0 <= i < |list| && list[i].tool == tool
  {
    if list != [] {
      var n := |list| - 1;
      ByToolNames(list[..n], tool);
      assert list == list[..n] + [list[n]];
      if tool in ByTool(list[..n]) {
        var i :| 0 <= i < n && list[..n][i].tool == tool;
        assert list[i].tool == tool;
      }
    }
  }

  /** Where no tool is named twice, each policy stands under its own tool. */
  lemma {:induction false} ByToolHolds(list: seq<Policy>, i: nat)
    requires DistinctTools(list) && i < |list|
    ensures list[i].tool in ByTool(list) && ByTool(list)[list[i].tool] == list[i]
  {
    var n := |list| - 1;
    if i < n {
      ByToolHolds(list[..n], i);
    }
  }

  predicate DistinctTools(policies: seq<Policy>) {
    forall i, j :: 0 <= i < j < |policies| ==> policies[i].tool != policies[j].tool
  }

  function ReplaceToolPolicies(db: Db, id: string, tenant: string, policies: seq<Policy>, expected: int): Outcome {
    if id !in db.conns then Err(NotFound)
    else if db.conns[id].version != expected then Err(Conflict)
    else if db.conns[id].tenant != tenant then Err(NotFound)
    else if !DistinctTools(policies) then Err(Invalid)
    else Ok(Bump(db.(policies := db.policies[id := ByTool(policies)]), id, db.conns[id]))
  }

  // ----- declarative revisions -----

  predicate Changeable(c: Conn) { c.kind.Declarative? && (c.status == Draft || c.status == Disabled) }

  /** Imports always save a draft. */
  function SaveRevision(
    rules: Rules, db: Db, sel: Sel, tenant: string, id: string, content: Content, expected: int): Outcome
  {
    if sel.spec == "" || sel.rev < 1 then Err(Invalid)
    else
      var row := Owned(db, id, tenant);
      if row.None? then Err(Invalid)
      else if row.value.version != expected then Err(Conflict)
      else if !Changeable(row.value) || !rules.valid(content, row.value.mode) then Err(Invalid)
      else if RevKey(tenant, sel) in db.revisions then Err(Invalid)
      else Ok(db.(revisions := db.revisions[RevKey(tenant, sel) := RevRow(id, false, content)]))
  }

  /** The row of a revision of exactly this connection. */
  function RevisionOf(db: Db, sel: Sel, tenant: string, id: string): Option<RevRow> {
    var row := Get(db.revisions, RevKey(tenant, sel));
    if row.Some? && row.value.conn == id then row else None
  }

  /** Publishing selects a draft's revision at once, and leaves another's pending. */
  function Published(c: Conn, sel: Sel): Config {
    if c.status == Draft then c.config[SpecId := Text(sel.spec)][Revision := Number(sel.rev)]
    else c.config[PendingSpecId := Text(sel.spec)][PendingRevision := Number(sel.rev)]
  }

  function PublishRevision(rules: Rules, db: Db, sel: Sel, tenant: string, id: string, expected: int): Outcome {
    var row := Owned(db, id, tenant);
    if row.None? then Err(NotFound)
    else if row.value.version != expected then Err(Conflict)
    else if !Changeable(row.value) then Err(Invalid)
    else
      var c, rev := row.value, RevisionOf(db, sel, tenant, id);
      if rev.None? then Err(NotFound)
      else if !rules.valid(rev.value.content, c.mode) then Err(Invalid)
      else
        var revisions := db.revisions[RevKey(tenant, sel) := rev.value.(published := true)];
        Ok(Bump(db.(revisions := revisions), id, c.(config := Published(c, sel))))
  }

  /** Activation selects the revision and leaves nothing pending. */
  function Activated(config: Config, sel: Sel): Config {
    config[SpecId := Text(sel.spec)][Revision := Number(sel.rev)] - {PendingSpecId, PendingRevision}
  }

  function ActivateRevision(rules: Rules, db: Db, sel: Sel, tenant: string, id: string, expected: int): Outcome {
    if tenant !in db.live then Err(Invalid)
    else
      var row := Owned(db, id, tenant);
      if row.None? then Err(NotFound)
      else if row.value.version != expected then Err(Conflict)
      else if !Changeable(row.value) then Err(Invalid)
      else if Staged(row.value.config) != (Some(Text(sel.spec)), Some(Number(sel.rev))) then Err(Invalid)
      else
        var c, rev := row.value, RevisionOf(db, sel, tenant, id);
        if rev.None? || !rev.value.published then Err(NotFound)
        else if !rules.valid(rev.value.content, c.mode) then Err(Invalid)
        else
          Ok(Bump(db, id, c.(config := Activated(c.config, sel), status := Active)))
  }

  /** Some binding of the connection uses a tool of this content. */
  predicate BoundTo(rules: Rules, db: Db, id: string, content: Content) {
    exists b :: b in db.bindings && db.bindings[b].conn == id
      && exists i :: 0 <= i < |rules.tools(content)| && rules.tools(content)[i].key == db.bindings[b].tool
  }

  function DeleteRevision(rules: Rules, db: Db, sel: Sel, tenant: string, id: string): Outcome {
    var c, rev := Owned(db, id, tenant), RevisionOf(db, sel, tenant, id);
    if rev.None? then Err(NotFound)
    else if c.None? then Err(InUse)
    else if rev.value.published
            && (!c.value.kind.Declarative? || IsSelected(c.value.config, sel)
                || BoundTo(rules, db, id, rev.value.content))
      then Err(InUse)
    else Ok(db.(revisions := db.revisions - {RevKey(tenant, sel)}))
  }

  // ----- services -----

  function CreateService(db: Db, service: string, tenant: string): Outcome {
    if tenant !in db.live || service in db.used then Err(Invalid)
    else Ok(db.(services := db.services[service := Service(tenant, SDraft, 1)], used := db.used + {service}))
  }

  function LegalServiceTargets(s: ServiceStatus): set<ServiceStatus> {
    match s
    case SDraft => {SActive, SDisabled}
    case SActive => {SDisabled}
    case SDisabled => {SDraft, SActive}
  }

  function UpdateServiceStatus(db: Db, service: string, tenant: string, status: ServiceStatus, expected: int): Outcome {
    if expected < 1 || (status == SActive && tenant !in db.live) then Err(Invalid)
    else if service !in db.services || db.services[service].tenant != tenant then Err(NotOwned)
    else
      var s := db.services[service];
      if s.version != expected then Err(Conflict)
      else if status !in LegalServiceTargets(s.status) then Err(Invalid)
      else Ok(db.(services := db.services[service := s.(status := status, version := s.version + 1)]))
  }

  /** Two rows that one service must not hold together. */
  predicate Clash(rules: Rules, a: Row, b: Row) {
    || rules.fold(a.id) == rules.fold(b.id)
    || rules.fold(a.binding.alias) == rules.fold(b.binding.alias)
    || (rules.fold(a.binding.conn) == rules.fold(b.binding.conn)
        && rules.fold(a.binding.tool) == rules.fold(b.binding.tool))
  }

  predicate ValidSnapshot(rules: Rules, service: string, snapshot: seq<Row>) {
    && (forall i :: 0 <= i < |snapshot| ==> snapshot[i].binding.service == service)
    && (forall i, j :: 0 <= i < j < |snapshot| ==> !Clash(rules, snapshot[i], snapshot[j]))
  }

  predicate ConnectionsOwned(db: Db, snapshot: seq<Row>, tenant: string) {
    forall i :: 0 <= i < |snapshot| ==> Owned(db, snapshot[i].binding.conn, tenant).Some?
  }

  /** Only domain validation breaks a binding, and a broken one is restored to active first. */
  predicate LegalBindingStatus(before: Option<BindingStatus>, after: BindingStatus) {
    && (after == BBroken ==> before == Some(BBroken))
    && (before == Some(BBroken) ==> after != BDisabled)
  }

  function BindingStatusOf(db: Db, service: string, id: string): Option<BindingStatus> {
    if id in db.bindings && db.bindings[id].service == service then Some(db.bindings[id].status) else None
  }

  predicate LegalStatuses(db: Db, service: string, snapshot: seq<Row>) {
    forall i :: 0 <= i < |snapshot| ==>
      LegalBindingStatus(BindingStatusOf(db, service, snapshot[i].id), snapshot[i].binding.status)
  }

  function WithoutService(bindings: map<string, Binding>, service: string): map<string, Binding> {
    map b | b in bindings && bindings[b].service != service :: bindings[b]
  }

  function WithRows(bindings: map<string, Binding>, rows: seq<Row>): map<string, Binding> {
    if rows == [] then bindings
    else
      var last := rows[|rows| - 1];
      WithRows(bindings, rows[..|rows| - 1])[last.id := last.binding]
  }

  predicate FreeIn(table: map<string, Binding>, rows: seq<Row>) {
    forall i :: 0 <= i < |rows| ==> rows[i].id !in table
  }

  /** A binding id of another service would violate the primary key. */
  predicate IdsFree(db: Db, service: string, snapshot: seq<Row>) {
    FreeIn(WithoutService(db.bindings, service), snapshot)
  }

  /** Why a replacement is refused before it writes, if it is. */
  function BindingsRefused(
    rules: Rules, db: Db, service: string, tenant: string, snapshot: seq<Row>, expected: int): Option<Failure>
  {
    if expected < 1 || !ValidSnapshot(rules, service, snapshot) then Some(Invalid)
    else if !ConnectionsOwned(db, snapshot, tenant) then Some(NotOwned)
    else if service !in db.services || db.services[service].tenant != tenant then Some(NotOwned)
    else if db.services[service].version != expected then Some(Conflict)
    else if db.services[service].status == SDisabled || !LegalStatuses(db, service, snapshot) then Some(Invalid)
    else None
  }

  function ReplaceBindings(
    rules: Rules, db: Db, service: string, tenant: string, snapshot: seq<Row>, expected: int): Outcome
  {
    var refused := BindingsRefused(rules, db, service, tenant, snapshot, expected);
    if refused.Some? then Err(refused.value)
    else if !IdsFree(db, service, snapshot) then Err(Invalid)
    else
      var s := db.services[service];
      Ok(db.(bindings := WithRows(WithoutService(db.bindings, service), snapshot),
             services := db.services[service := s.(version := s.version + 1)]))
  }

  function SetTenantLive(db: Db, tenant: string, live: bool): Db {
    db.(live := if live then db.live + {tenant} else db.live - {tenant})
  }

  function Retired(c: Conn, tenant: string): Conn {
    if c.tenant == tenant && c.status != Disabled then c.(status := Disabled, version := c.version + 1) else c
  }

  function RetiredService(s: Service, tenant: string): Service {
    if s.tenant == tenant && s.status != SDisabled then s.(status := SDisabled, version := s.version + 1) else s
  }

  /** Removes a tenant: all its connections and services are disabled in one transaction. */
  function RetireTenant(db: Db, tenant: string): Db {
    var conns := map id | id in db.conns :: Retired(db.conns[id], tenant);
    db.(live := db.live - {tenant},
        conns := conns,
        services := map s | s in db.services :: RetiredService(db.services[s], tenant),
        history := db.history + map id | id in db.conns :: (id, conns[id].version) := db.conns[id].config)
  }

  // ----- runs -----

  datatype Action =
    | DoCreate(id: string, conn: Conn, credentials: map<string, string>)
    | DoUpdate(id: string, tenant: string, name: string, mode: string, config: Config, status: Option<Status>,
               expected: int)
    | DoDisable(id: string, tenant: string)
    | DoDelete(id: string, tenant: string)
    | DoCredentials(id: string, tenant: string, credentials: map<string, string>, expected: int)
    | DoPolicies(id: string, tenant: string, policies: seq<Policy>, expected: int)
    | DoSave(sel: Sel, tenant: string, id: string, content: Content, expected: int)
    | DoPublish(sel: Sel, tenant: string, id: string, expected: int)
    | DoActivate(sel: Sel, tenant: string, id: string, expected: int)
    | DoDeleteRevision(sel: Sel, tenant: string, id: string)
    | DoCreateService(service: string, tenant: string)
    | DoServiceStatus(service: string, tenant: string, target: ServiceStatus, expected: int)
    | DoBindings(service: string, tenant: string, snapshot: seq<Row>, expected: int)
    | DoTenant(tenant: string, live: bool)
    | DoRetire(tenant: string)

  function Run(rules: Rules, db: Db, a: Action): Outcome {
    match a
    case DoCreate(id, conn, credentials) => CreateConnection(db, id, conn, credentials)
    case DoUpdate(id, tenant, name, mode, config, status, expected) =>
      UpdateUseCase(db, id, tenant, name, mode, config, status, expected)
    case DoDisable(id, tenant) => DisableConnection(db, id, tenant)
    case DoDelete(id, tenant) => DeleteConnection(db, id, tenant)
    case DoCredentials(id, tenant, credentials, expected) => ReplaceCredentials(db, id, tenant, credentials, expected)
    case DoPolicies(id, tenant, policies, expected) => ReplaceToolPolicies(db, id, tenant, policies, expected)
    case DoSave(sel, tenant, id, content, expected) => SaveRevision(rules, db, sel, tenant, id, content, expected)
    case DoPublish(sel, tenant, id, expected) => PublishRevision(rules, db, sel, tenant, id, expected)
    case DoActivate(sel, tenant, id, expected) => ActivateRevision(rules, db, sel, tenant, id, expected)
    case DoDeleteRevision(sel, tenant, id) => DeleteRevision(rules, db, sel, tenant, id)
    case DoCreateService(service, tenant) => CreateService(db, service, tenant)
    case DoServiceStatus(service, tenant, target, expected) =>
      UpdateServiceStatus(db, service, tenant, target, expected)
    case DoBindings(service, tenant, snapshot, expected) =>
      ReplaceBindings(rules, db, service, tenant, snapshot, expected)
    case DoTenant(tenant, live) => Ok(SetTenantLive(db, tenant, live))
    case DoRetire(tenant) => Ok(RetireTenant(db, tenant))
  }

  const EMPTY := Db({}, map[], map[], map[], map[], map[], map[], {}, map[])

  /** The tables after the actions, each of which either commits as a whole or changes nothing. */
  function RunAll(rules: Rules, db: Db, actions: seq<Action>): Db {
    if actions == [] then db
    else
      var before := RunAll(rules, db, actions[..|actions| - 1]);
      var r := Run(rules, before, actions[|actions| - 1]);
      if r.Ok? then r.value else before
  }
}
