/** Connector manifests: their validation, and why a validated one passes again unchanged. */
module Manifests {
  import opened Common
  import opened JsonTree

  datatype Operation = Read | Write | OtherOperation

  datatype Mode = Direct | Stored | Hybrid | OtherMode

  /** `typed` stands for the checks of field types that the model's own types leave out. */
  datatype Tool = Tool(
    toolKey: string, mcpName: string, description: string, inputSchema: Json, outputSchema: Option<Json>,
    operation: Operation, timeoutMs: int, cacheTtl: Option<int>, typed: bool)

  datatype Spec = Spec(
    key: string, tools: seq<Tool>, supportsSync: bool, version: string,
    configSchema: Json, credentialSchema: Json, modes: seq<Mode>, typed: bool)

  /** The character and version heuristics, of which nothing is assumed. */
  datatype Rules = Rules(control: Control, isVersion: string -> bool)

  const RESERVED_KEY := "http_declarative"
  const MAX_DESCRIPTION: nat := 2048

  predicate Lower(c: char) { 'a' <= c <= 'z' }

  predicate Letter(c: char) { Lower(c) || 'A' <= c <= 'Z' }

  predicate Digit(c: char) { '0' <= c <= '9' }

  predicate IsConnectorKey(s: string) {
    && 0 < |s| <= 64 && Lower(s[0])
    && forall i :: 0 < i < |s| ==> Lower(s[i]) || Digit(s[i]) || s[i] in "_-"
  }

  predicate IsToolIdentifier(s: string) {
    && 0 < |s| <= 128 && Letter(s[0])
    && forall i :: 0 < i < |s| ==> Letter(s[i]) || Digit(s[i]) || s[i] in "_.-"
  }

  // ----- manifests -----

  function ToolIds(t: Tool): set<string> { {t.toolKey, t.mcpName} }

  function Ids(tools: seq<Tool>): set<string> {
    if tools == [] then {} else Ids(tools[..|tools| - 1]) + ToolIds(tools[|tools| - 1])
  }

  predicate ToolFieldsOk(rules: Rules, t: Tool) {
    && t.typed && IsToolIdentifier(t.toolKey) && IsToolIdentifier(t.mcpName) && t.operation != OtherOperation
    && 0 < |t.description| <= MAX_DESCRIPTION && !rules.control(t.description)
    && t.timeoutMs > 0 && (t.cacheTtl.Some? ==> t.cacheTtl.value >= 0)
    && t.inputSchema.JMap? && (t.outputSchema.Some? ==> t.outputSchema.value.JMap?)
  }

  function FrozenTool(rules: Rules, t: Tool): Option<Tool> {
    if !ToolFieldsOk(rules, t) then None
    else
      var input := FreezeTree(rules.control, t.inputSchema);
      var output := if t.outputSchema.Some? then FreezeTree(rules.control, t.outputSchema.value) else None;
      if input.None? || (t.outputSchema.Some? && output.None?) then None
      else Some(t.(inputSchema := input.value, outputSchema := output))
  }

  /** Every tool frozen, where no identifier is used by two of them. */
  function FrozenTools(rules: Rules, tools: seq<Tool>): Option<seq<Tool>> {
    if tools == [] then Some([])
    else
      var front, last := tools[..|tools| - 1], tools[|tools| - 1];
      var done, tool := FrozenTools(rules, front), FrozenTool(rules, last);
      if done.None? || tool.None? || ToolIds(last) * Ids(front) != {} then None else Some(done.value + [tool.value])
  }

  predicate HeaderOk(rules: Rules, s: Spec, requireVersion: bool) {
    && s.typed && IsConnectorKey(s.key) && (requireVersion ==> rules.isVersion(s.version))
    && s.configSchema.JMap? && s.credentialSchema.JMap?
    && s.modes != [] && OtherMode !in s.modes
    && forall i, j :: 0 <= i < j < |s.modes| ==> s.modes[i] != s.modes[j]
  }

  /** The immutable validated metadata, or nothing for an invalid manifest. */
  function Validated(rules: Rules, s: Spec, requireVersion: bool): Option<Spec> {
    if !HeaderOk(rules, s, requireVersion) then None
    else
      var tools := FrozenTools(rules, s.tools);
      var config := FreezeTree(rules.control, s.configSchema);
      var credential := FreezeTree(rules.control, s.credentialSchema);
      if tools.None? || config.None? || credential.None? then None
      else Some(s.(tools := tools.value, configSchema := config.value, credentialSchema := credential.value))
  }

  method Freeze(rules: Rules, v: Json) returns (r: Option<Json>)
    ensures r == FreezeTree(rules.control, v)
  {
    hide Acceptable, Size, Frozen;
    var freezer := new Freezer(rules.control);
    r := freezer.Freeze(v, 0);
  }

  method ValidateManifest(rules: Rules, s: Spec, requireVersion: bool) returns (r: Option<Spec>)
    ensures r == Validated(rules, s, requireVersion)
  {
    hide HeaderOk, ToolFieldsOk, FreezeTree;
    if !HeaderOk(rules, s, requireVersion) {
      return None;
    }
    var identifiers: set<string> := {};
    var frozen: seq<Tool> := [];
    var i := 0;
    while i < |s.tools|
      invariant 0 <= i <= |s.tools|
      invariant identifiers == Ids(s.tools[..i]) && FrozenTools(rules, s.tools[..i]) == Some(frozen)
    {
      var tool := s.tools[i];
      assert s.tools[..i + 1][..i] == s.tools[..i];
      if !ToolFieldsOk(rules, tool) || ToolIds(tool) * identifiers != {} {
        ToolsFailTogether(rules, s.tools, i + 1);
        return None;
      }
      identifiers := identifiers + ToolIds(tool);
      var input := Freeze(rules, tool.inputSchema);
      var output: Option<Json> := None;
      if tool.outputSchema.Some? {
        output := Freeze(rules, tool.outputSchema.value);
      }
      if input.None? || (tool.outputSchema.Some? && output.None?) {
        ToolsFailTogether(rules, s.tools, i + 1);
        return None;
      }
      frozen := frozen + [tool.(inputSchema := input.value, outputSchema := output)];
      i := i + 1;
    }
    assert s.tools[..i] == s.tools;
    var config := Freeze(rules, s.configSchema);
    var credential := Freeze(rules, s.credentialSchema);
    if config.None? || credential.None? {
      return None;
    }
    return Some(s.(tools := frozen, configSchema := config.value, credentialSchema := credential.value));
  }

  lemma {:induction false} ToolsFailTogether(rules: Rules, tools: seq<Tool>, n: nat)
    requires n <= |tools| && FrozenTools(rules, tools[..n]).None?
    ensures FrozenTools(rules, tools).None?
    decreases |tools| - n
  {
    if n < |tools| {
      assert tools[..n + 1][..n] == tools[..n];
      ToolsFailTogether(rules, tools, n + 1);
    } else {
      assert tools[..n] == tools;
    }
  }

  lemma FrozenToolFacts(rules: Rules, t: Tool)
    requires FrozenTool(rules, t).Some?
    ensures
      var f := FrozenTool(rules, t).value;
      FrozenTool(rules, f) == Some(f) && ToolIds(f) == ToolIds(t)
  {
    FreezingIsIdempotent(rules.control, t.inputSchema);
    if t.outputSchema.Some? {
      FreezingIsIdempotent(rules.control, t.outputSchema.value);
    }
    hide Acceptable, Size;
  }

  lemma {:induction false} FrozenToolsFacts(rules: Rules, tools: seq<Tool>)
    requires FrozenTools(rules, tools).Some?
    ensures
      var f := FrozenTools(rules, tools).value;
      FrozenTools(rules, f) == Some(f) && Ids(f) == Ids(tools)
  {
    hide FrozenTool, ToolIds;
    if tools != [] {
      var n := |tools| - 1;
      FrozenToolsFacts(rules, tools[..n]);
      FrozenToolFacts(rules, tools[n]);
      var f := FrozenTools(rules, tools).value;
      assert f[..|f| - 1] == FrozenTools(rules, tools[..n]).value;
    }
  }

  /** A validated manifest passes again, unchanged, and claims the same names. */
  lemma ValidationIsIdempotent(rules: Rules, s: Spec, requireVersion: bool)
    requires Validated(rules, s, requireVersion).Some?
    ensures
      var v := Validated(rules, s, requireVersion).value;
      Validated(rules, v, requireVersion) == Some(v) && v.key == s.key && Ids(v.tools) == Ids(s.tools)
  {
    hide FreezeTree, FrozenTools, Ids;
    FrozenToolsFacts(rules, s.tools);
    FreezingIsIdempotent(rules.control, s.configSchema);
    FreezingIsIdempotent(rules.control, s.credentialSchema);
    FrozenMapIsMap(rules.control, s.configSchema);
    FrozenMapIsMap(rules.control, s.credentialSchema);
  }

  lemma FrozenMapIsMap(control: Control, v: Json)
    requires v.JMap? && FreezeTree(control, v).Some?
    ensures FreezeTree(control, v).value.JMap?
  {
  }

  // ----- what validation accepts, and what it keeps -----

  /** The identifiers of a list of tools are the keys and the names of its tools. */
  lemma {:induction false} IdsAreTheNames(tools: seq<Tool>, id: string)
    ensures id in Ids(tools) <==>
            exists i :: 0 <= i < |tools| && (tools[i].toolKey == id || tools[i].mcpName == id)
  {
    if tools != [] {
      var n := |tools| - 1;
      IdsAreTheNames(tools[..n], id);
      assert tools == tools[..n] + [tools[n]];
      if i :| 0 <= i < n && (tools[..n][i].toolKey == id || tools[..n][i].mcpName == id) {
        assert tools[i] == tools[..n][i];
      }
    }
  }

  /** Two tools share no identifier. */
  predicate Apart(a: Tool, b: Tool) {
    && a.toolKey != b.toolKey && a.toolKey != b.mcpName
    && a.mcpName != b.toolKey && a.mcpName != b.mcpName
  }

  lemma LastIsApart(tools: seq<Tool>, last: Tool)
    ensures ToolIds(last) * Ids(tools) == {} <==> forall i :: 0 <= i < |tools| ==> Apart(tools[i], last)
  {
    IdsAreTheNames(tools, last.toolKey);
    IdsAreTheNames(tools, last.mcpName);
    hide Ids;
    if ToolIds(last) * Ids(tools) == {} {
      assert last.toolKey in ToolIds(last) && last.mcpName in ToolIds(last);
      forall i | 0 <= i < |tools| ensures Apart(tools[i], last) {
        assert last.toolKey !in ToolIds(last) * Ids(tools) && last.mcpName !in ToolIds(last) * Ids(tools);
      }
    }
  }

  lemma {:induction false} ToolsPassExactly(rules: Rules, tools: seq<Tool>)
    ensures FrozenTools(rules, tools).Some? <==>
            && (forall i :: 0 <= i < |tools| ==> FrozenTool(rules, tools[i]).Some?)
            && (forall i, j :: 0 <= i < j < |tools| ==> Apart(tools[i], tools[j]))
    ensures FrozenTools(rules, tools).Some? ==>
            && |FrozenTools(rules, tools).value| == |tools|
            && forall i :: 0 <= i < |tools| ==> Some(FrozenTools(rules, tools).value[i]) == FrozenTool(rules, tools[i])
  {
    hide FrozenTool, Apart, Ids, ToolIds;
    if tools != [] {
      var n := |tools| - 1;
      var front := tools[..n];
      ToolsPassExactly(rules, front);
      LastIsApart(front, tools[n]);
      assert forall i :: 0 <= i < n ==> tools[i] == front[i];
      assert (forall i, j :: 0 <= i < j < |tools| ==> Apart(tools[i], tools[j])) <==>
             && (forall i, j :: 0 <= i < j < n ==> Apart(front[i], front[j]))
             && (forall i :: 0 <= i < n ==> Apart(front[i], tools[n]));
    }
  }

  /** A schema as it is kept: a read-only map that shows what was sent. */
  ghost predicate Shows(kept: Json, sent: Json) {
    kept.JMap? && Immutable(kept) && SameTree(sent, kept) && (Plain(sent) ==> Thawed(kept) == sent)
  }

  lemma FrozenShows(control: Control, v: Json)
    requires v.JMap? && FreezeTree(control, v).Some?
    ensures Shows(FreezeTree(control, v).value, v)
  {
    hide SameTree, Immutable;
    FrozenIsAnImmutableCopy(v);
    if Plain(v) {
      ThawUndoesFreeze(v);
    }
  }

  /** What is kept of a tool: everything as sent, with its schemas frozen. */
  ghost predicate KeepsTool(kept: Tool, sent: Tool) {
    && kept.toolKey == sent.toolKey && kept.mcpName == sent.mcpName && kept.description == sent.description
    && kept.operation == sent.operation && kept.timeoutMs == sent.timeoutMs && kept.cacheTtl == sent.cacheTtl
    && Shows(kept.inputSchema, sent.inputSchema)
    && (kept.outputSchema.Some? <==> sent.outputSchema.Some?)
    && (sent.outputSchema.Some? ==> Shows(kept.outputSchema.value, sent.outputSchema.value))
  }

  lemma ToolIsKept(rules: Rules, t: Tool)
    requires FrozenTool(rules, t).Some?
    ensures KeepsTool(FrozenTool(rules, t).value, t)
  {
    hide FreezeTree, Shows, Plain;
    FrozenShows(rules.control, t.inputSchema);
    if t.outputSchema.Some? {
      FrozenShows(rules.control, t.outputSchema.value);
    }
  }

  /** Validation changes nothing but the form of the schemas: key, version, modes and sync support are
      those sent, and the tools correspond one by one. */
  lemma ValidationKeepsTheManifest(rules: Rules, s: Spec, requireVersion: bool)
    requires Validated(rules, s, requireVersion).Some?
    ensures
      var v := Validated(rules, s, requireVersion).value;
      && v.key == s.key && v.supportsSync == s.supportsSync && v.version == s.version && v.modes == s.modes
      && Shows(v.configSchema, s.configSchema) && Shows(v.credentialSchema, s.credentialSchema)
      && |v.tools| == |s.tools| && forall i :: 0 <= i < |s.tools| ==> KeepsTool(v.tools[i], s.tools[i])
  {
    hide FreezeTree, Shows, KeepsTool, FrozenTools, FrozenTool;
    ToolsPassExactly(rules, s.tools);
    FrozenShows(rules.control, s.configSchema);
    FrozenShows(rules.control, s.credentialSchema);
    var v := Validated(rules, s, requireVersion).value;
    forall i | 0 <= i < |s.tools| ensures KeepsTool(v.tools[i], s.tools[i]) {
      ToolIsKept(rules, s.tools[i]);
    }
  }

  /** A text of bounded length whose first character is a letter and whose others are letters, digits
      or of the given marks; a connector key has lower-case letters only. */
  predicate IsNameOf(s: string, most: nat, upper: bool, marks: string) {
    && 1 <= |s| <= most
    && forall i :: 0 <= i < |s| ==>
         || 'a' <= s[i] <= 'z'
         || (upper && 'A' <= s[i] <= 'Z')
         || (i > 0 && ('0' <= s[i] <= '9' || s[i] in marks))
  }

  /** What a tool must be, each check of the source once. */
  predicate ToolMayPass(rules: Rules, t: Tool) {
    && t.typed
    && IsNameOf(t.toolKey, 128, true, "_.-") && IsNameOf(t.mcpName, 128, true, "_.-")
    && (t.operation == Read || t.operation == Write)
    && 1 <= |t.description| <= 2048 && !rules.control(t.description)
    && t.timeoutMs >= 1 && (t.cacheTtl == None || t.cacheTtl.value >= 0)
    && t.inputSchema.JMap? && FreezeTree(rules.control, t.inputSchema).Some?
    && (t.outputSchema == None
        || (t.outputSchema.value.JMap? && FreezeTree(rules.control, t.outputSchema.value).Some?))
  }

  lemma ToolPassesExactly(rules: Rules, t: Tool)
    ensures FrozenTool(rules, t).Some? <==> ToolMayPass(rules, t)
  {
    hide FreezeTree;
  }

  /** A manifest is accepted exactly under these checks. */
  lemma ValidatesExactly(rules: Rules, s: Spec, requireVersion: bool)
    ensures Validated(rules, s, requireVersion).Some? <==>
            && s.typed && IsNameOf(s.key, 64, false, "_-") && (requireVersion ==> rules.isVersion(s.version))
            && s.configSchema.JMap? && FreezeTree(rules.control, s.configSchema).Some?
            && s.credentialSchema.JMap? && FreezeTree(rules.control, s.credentialSchema).Some?
            && |s.modes| >= 1 && (forall m :: m in s.modes ==> m == Direct || m == Stored || m == Hybrid)
            && (forall i, j :: 0 <= i < j < |s.modes| ==> s.modes[i] != s.modes[j])
            && (forall i :: 0 <= i < |s.tools| ==> ToolMayPass(rules, s.tools[i]))
            && (forall i, j :: 0 <= i < j < |s.tools| ==> Apart(s.tools[i], s.tools[j]))
  {
    hide FreezeTree, FrozenTools, FrozenTool, ToolMayPass, Apart;
    ToolsPassExactly(rules, s.tools);
    forall i | 0 <= i < |s.tools| ensures FrozenTool(rules, s.tools[i]).Some? <==> ToolMayPass(rules, s.tools[i]) {
      ToolPassesExactly(rules, s.tools[i]);
    }
  }
}
