/** The registry of connectors, whose keys and tool identifiers share one namespace. */
module Registry {
  import opened Common
  import opened Manifests

  type Connector = int

  type Specs = map<string, Spec>

  /** Connector keys and tool identifiers already taken. */
  datatype Names = Names(keys: set<string>, ids: set<string>)

  function Grow(ns: Names, s: Spec): Names { Names(ns.keys + {s.key}, ns.ids + Ids(s.tools)) }

  /** A manifest that cannot be registered anywhere: a reserved key, or a tool named like its own connector. */
  predicate Unfit(s: Spec) { s.key == RESERVED_KEY || s.key in Ids(s.tools) }

  predicate Collides(s: Spec, ns: Names) {
    s.key in ns.keys || s.key in ns.ids || Ids(s.tools) * ns.keys != {} || Ids(s.tools) * ns.ids != {}
  }

  predicate Fits(s: Spec, ns: Names) { !Unfit(s) && !Collides(s, ns) }

  /** A manifest fits exactly when its key is not the reserved one nor taken, as a key or as a tool's
      identifier, and no identifier of its tools is, nor is its own key. */
  lemma FitsExactly(s: Spec, ns: Names)
    ensures Fits(s, ns) <==>
            && s.key != "http_declarative" && s.key !in ns.keys && s.key !in ns.ids
            && forall i :: 0 <= i < |s.tools| ==>
                 && s.tools[i].toolKey !in ns.keys + ns.ids + {s.key}
                 && s.tools[i].mcpName !in ns.keys + ns.ids + {s.key}
  {
    hide Ids;
    forall i | 0 <= i < |s.tools| ensures s.tools[i].toolKey in Ids(s.tools) && s.tools[i].mcpName in Ids(s.tools) {
      IdsAreTheNames(s.tools, s.tools[i].toolKey);
      IdsAreTheNames(s.tools, s.tools[i].mcpName);
    }
    forall id | id in Ids(s.tools)
      ensures exists i :: 0 <= i < |s.tools| && (s.tools[i].toolKey == id || s.tools[i].mcpName == id)
    {
      IdsAreTheNames(s.tools, id);
    }
    if Fits(s, ns) {
      FittingNames(s, ns);
    }
    assert Ids(s.tools) * ns.keys != {} ==> exists id :: id in Ids(s.tools) && id in ns.keys;
    assert Ids(s.tools) * ns.ids != {} ==> exists id :: id in Ids(s.tools) && id in ns.ids;
  }

  function NamesOf(s: Spec): Names { Names({s.key}, Ids(s.tools)) }

  lemma CollidesWithGrown(s: Spec, ns: Names, other: Spec)
    ensures Collides(s, Grow(ns, other)) <==> Collides(s, ns) || Collides(s, NamesOf(other))
  {
    hide Ids;
    var ids, more := Ids(s.tools), Grow(ns, other);
    assert ids * more.keys == ids * ns.keys + ids * NamesOf(other).keys;
    assert ids * more.ids == ids * ns.ids + ids * NamesOf(other).ids;
  }

  // ----- batches -----

  /** Validates a whole batch; nothing if any manifest is invalid or collides. */
  function BatchOf(rules: Rules, base: Names, specs: seq<Spec>): Option<(seq<Spec>, Names)> {
    if specs == [] then Some(([], base))
    else
      var rest := BatchOf(rules, base, specs[..|specs| - 1]);
      var v := Validated(rules, specs[|specs| - 1], true);
      if rest.None? || v.None? || !Fits(v.value, rest.value.1) then None
      else Some((rest.value.0 + [v.value], Grow(rest.value.1, v.value)))
  }

  datatype Split = Split(accepted: seq<(nat, Spec)>, rejected: seq<nat>, names: Names)

  /** Takes each manifest in turn that is valid and collides with nothing taken before. */
  function SplitOf(rules: Rules, base: Names, specs: seq<Spec>): Split {
    if specs == [] then Split([], [], base)
    else
      var n := |specs| - 1;
      var rest := SplitOf(rules, base, specs[..n]);
      var v := Validated(rules, specs[n], true);
      if v.None? || !Fits(v.value, rest.names) then rest.(rejected := rest.rejected + [n])
      else Split(rest.accepted + [(n, v.value)], rest.rejected, Grow(rest.names, v.value))
  }

  function Snapshots(accepted: seq<(nat, Spec)>): seq<Spec> {
    seq(|accepted|, i requires 0 <= i < |accepted| => accepted[i].1)
  }

  /** What the greedy selection accepts always passes as a batch, and unchanged. */
  lemma {:induction false} AcceptedBatchPasses(rules: Rules, base: Names, specs: seq<Spec>)
    ensures
      var split := SplitOf(rules, base, specs);
      BatchOf(rules, base, Snapshots(split.accepted)) == Some((Snapshots(split.accepted), split.names))
  {
    hide Validated, Fits, Grow;
    if specs != [] {
      var n := |specs| - 1;
      AcceptedBatchPasses(rules, base, specs[..n]);
      var rest, split := SplitOf(rules, base, specs[..n]), SplitOf(rules, base, specs);
      if split.accepted != rest.accepted {
        var snapshots, v := Snapshots(split.accepted), Validated(rules, specs[n], true).value;
        ValidationIsIdempotent(rules, specs[n], true);
        assert snapshots == Snapshots(rest.accepted) + [v] && snapshots[..|snapshots| - 1] == Snapshots(rest.accepted);
      }
    } else {
      assert Snapshots([]) == [];
    }
  }

  ghost predicate IsAccepted(split: Split, i: int) { exists a :: 0 <= a < |split.accepted| && split.accepted[a].0 == i }

  /** A valid manifest collides with the base or with an earlier accepted one. */
  ghost predicate CollidesEarlier(split: Split, base: Names, i: int, v: Spec) {
    || Collides(v, base)
    || exists a :: 0 <= a < |split.accepted| && split.accepted[a].0 < i && Collides(v, NamesOf(split.accepted[a].1))
  }

  lemma {:induction false} CollidesWithTaken(rules: Rules, base: Names, specs: seq<Spec>, v: Spec)
    ensures
      var split := SplitOf(rules, base, specs);
      && (forall a :: 0 <= a < |split.accepted| ==> split.accepted[a].0 < |specs|)
      && (Collides(v, split.names) <==> CollidesEarlier(split, base, |specs|, v))
  {
    hide Validated, Fits, Collides, Grow, NamesOf;
    if specs != [] {
      var n := |specs| - 1;
      CollidesWithTaken(rules, base, specs[..n], v);
      var rest, split := SplitOf(rules, base, specs[..n]), SplitOf(rules, base, specs);
      if split.accepted != rest.accepted {
        var m := |rest.accepted|;
        CollidesWithGrown(v, rest.names, split.accepted[m].1);
        assert forall a :: 0 <= a < m ==> split.accepted[a] == rest.accepted[a];
      }
    }
  }

  /** A manifest is accepted exactly when it is valid, fit, and collides neither with the base nor
      with an earlier accepted one; all others are rejected, each once. */
  lemma {:induction false} SelectionIsGreedy(rules: Rules, base: Names, specs: seq<Spec>, i: nat)
    requires i < |specs|
    ensures
      var split := SplitOf(rules, base, specs);
      var v := Validated(rules, specs[i], true);
      && (IsAccepted(split, i) <==> v.Some? && !Unfit(v.value) && !CollidesEarlier(split, base, i, v.value))
      && (i in split.rejected <==> !IsAccepted(split, i))
      && |split.accepted| + |split.rejected| == |specs|
      && (forall a :: 0 <= a < |split.accepted| && split.accepted[a].0 == i ==> v == Some(split.accepted[a].1))
    decreases |specs|
  {
    hide Validated, Collides, Unfit, Grow, NamesOf;
    var n := |specs| - 1;
    var rest, split := SplitOf(rules, base, specs[..n]), SplitOf(rules, base, specs);
    var v := Validated(rules, specs[i], true);
    SplitCounts(rules, base, specs);
    SplitCounts(rules, base, specs[..n]);
    assert forall a :: 0 <= a < |rest.accepted| ==> split.accepted[a] == rest.accepted[a];
    if i < n {
      SelectionIsGreedy(rules, base, specs[..n], i);
      assert IsAccepted(split, i) <==> IsAccepted(rest, i);
      assert v.Some? ==> (CollidesEarlier(split, base, i, v.value) <==> CollidesEarlier(rest, base, i, v.value));
    } else if v.Some? {
      CollidesWithTaken(rules, base, specs[..n], v.value);
      assert CollidesEarlier(split, base, i, v.value) <==> CollidesEarlier(rest, base, i, v.value);
      if Fits(v.value, rest.names) {
        assert split.accepted[|rest.accepted|].0 == i;
      }
    }
  }

  lemma {:induction false} SplitCounts(rules: Rules, base: Names, specs: seq<Spec>)
    ensures
      var split := SplitOf(rules, base, specs);
      && |split.accepted| + |split.rejected| == |specs|
      && (forall a :: 0 <= a < |split.accepted| ==> split.accepted[a].0 < |specs|)
      && (forall r :: 0 <= r < |split.rejected| ==> split.rejected[r] < |specs|)
  {
    hide Validated, Fits, Grow;
    if specs != [] {
      SplitCounts(rules, base, specs[..|specs| - 1]);
    }
  }

  /** A batch passes exactly when the greedy selection would reject nothing of it. */
  lemma {:induction false} BatchPassesExactly(rules: Rules, base: Names, specs: seq<Spec>)
    ensures
      var split := SplitOf(rules, base, specs);
      BatchOf(rules, base, specs) ==
      if split.rejected == [] then Some((Snapshots(split.accepted), split.names)) else None
  {
    hide Validated, Fits, Grow;
    if specs != [] {
      var n := |specs| - 1;
      BatchPassesExactly(rules, base, specs[..n]);
      var rest, split := SplitOf(rules, base, specs[..n]), SplitOf(rules, base, specs);
      if split.accepted != rest.accepted {
        assert Snapshots(split.accepted) == Snapshots(rest.accepted) + [Validated(rules, specs[n], true).value];
      }
    } else {
      assert Snapshots([]) == [];
    }
  }

  // ----- the registry -----

  /** `identities` maps exactly the tool identifiers of the registered manifests, each to its owner. */
  ghost predicate OwnedExactly(specs: Specs, identities: map<string, string>) {
    && (forall k, id :: k in specs && id in Ids(specs[k].tools) ==> id in identities && identities[id] == k)
    && (forall id :: id in identities ==> identities[id] in specs && id in Ids(specs[identities[id]].tools))
  }

  /** Keys and identifiers are disjoint, every identifier has one owner, nothing reserved is taken. */
  ghost predicate Sound(
    connectors: map<string, Connector>, specs: Specs, identities: map<string, string>, discovered: set<string>)
  {
    && connectors.Keys == specs.Keys && discovered <= specs.Keys
    && (forall k :: k in specs ==> specs[k].key == k)
    && OwnedExactly(specs, identities)
    && specs.Keys !! identities.Keys
    && RESERVED_KEY !in specs
  }

  function Owned(s: Spec): map<string, string> { map id | id in Ids(s.tools) :: s.key }

  function Kept(identities: map<string, string>, stale: set<string>): map<string, string> {
    map id | id in identities && identities[id] !in stale :: identities[id]
  }

  function Taken(specs: Specs, identities: map<string, string>): Names { Names(specs.Keys, identities.Keys) }

  lemma FittingNames(s: Spec, ns: Names)
    requires Fits(s, ns)
    ensures s.key !in ns.keys && s.key !in ns.ids && s.key !in Ids(s.tools) && s.key != RESERVED_KEY
    ensures forall id :: id in Ids(s.tools) ==> id !in ns.keys && id !in ns.ids
  {
    hide Ids;
    assert forall id :: id in Ids(s.tools) && id in ns.keys ==> id in Ids(s.tools) * ns.keys;
    assert forall id :: id in Ids(s.tools) && id in ns.ids ==> id in Ids(s.tools) * ns.ids;
  }

  lemma AddingKeepsSound(
    connectors: map<string, Connector>, specs: Specs, identities: map<string, string>, discovered: set<string>,
    c: Connector, s: Spec, isDiscovered: bool)
    requires Sound(connectors, specs, identities, discovered) && Fits(s, Taken(specs, identities))
    ensures Sound(connectors[s.key := c], specs[s.key := s], identities + Owned(s),
                  if isDiscovered then discovered + {s.key} else discovered)
    ensures Taken(specs[s.key := s], identities + Owned(s)) == Grow(Taken(specs, identities), s)
  {
    hide Ids, Fits;
    FittingNames(s, Taken(specs, identities));
  }

  lemma DroppingKeepsSound(
    connectors: map<string, Connector>, specs: Specs, identities: map<string, string>, discovered: set<string>)
    requires Sound(connectors, specs, identities, discovered)
    ensures Sound(connectors - discovered, specs - discovered, Kept(identities, discovered), {})
  {
    hide Ids;
  }

  /** The manifests after a batch was added to the base. */
  function WithBatch(specs: Specs, batch: seq<Spec>): Specs {
    if batch == [] then specs
    else WithBatch(specs, batch[..|batch| - 1])[batch[|batch| - 1].key := batch[|batch| - 1]]
  }

  function BatchKeys(batch: seq<Spec>): set<string> {
    if batch == [] then {} else BatchKeys(batch[..|batch| - 1]) + {batch[|batch| - 1].key}
  }

  predicate DistinctSpecs(batch: seq<Spec>) {
    forall i, j :: 0 <= i < j < |batch| ==> batch[i].key != batch[j].key
  }

  lemma {:induction false} BatchHasDistinctKeys(rules: Rules, base: Names, specs: seq<Spec>)
    requires BatchOf(rules, base, specs).Some?
    ensures
      var b := BatchOf(rules, base, specs).value;
      DistinctSpecs(b.0) && forall i :: 0 <= i < |b.0| ==> b.0[i].key in b.1.keys
  {
    hide Validated, Ids;
    if specs != [] {
      BatchHasDistinctKeys(rules, base, specs[..|specs| - 1]);
    }
  }

  predicate InBatch(batch: seq<Spec>, k: string) { exists i :: 0 <= i < |batch| && batch[i].key == k }

  /** Each manifest of the batch under its key with its connector, and everything else as before. */
  ghost predicate HoldsBatch(
    specs: Specs, connectors: map<string, Connector>, items: seq<(Connector, Spec)>, batch: seq<Spec>,
    specs': Specs, connectors': map<string, Connector>)
    requires |items| == |batch|
  {
    && (forall i :: 0 <= i < |batch| ==>
          && batch[i].key in specs' && specs'[batch[i].key] == batch[i]
          && batch[i].key in connectors' && connectors'[batch[i].key] == items[i].0)
    && (forall k :: !InBatch(batch, k) ==> Same(specs, specs', k) && Same(connectors, connectors', k))
  }

  predicate Same<T(==)>(m: map<string, T>, m': map<string, T>, k: string) {
    (k in m <==> k in m') && (k in m ==> m[k] == m'[k])
  }

  lemma {:induction false} BatchMemberIsHeld(
    specs: Specs, connectors: map<string, Connector>, items: seq<(Connector, Spec)>, batch: seq<Spec>, i: nat)
    requires i < |items| == |batch| && DistinctSpecs(batch)
    ensures
      var s, c := WithBatch(specs, batch), WithConnectors(connectors, items, batch);
      && batch[i].key in s && s[batch[i].key] == batch[i]
      && batch[i].key in c && c[batch[i].key] == items[i].0
    decreases |batch|
  {
    var n := |batch| - 1;
    if i < n {
      BatchMemberIsHeld(specs, connectors, items[..n], batch[..n], i);
    }
  }

  lemma {:induction false} OthersStay(
    specs: Specs, connectors: map<string, Connector>, items: seq<(Connector, Spec)>, batch: seq<Spec>, k: string)
    requires |items| == |batch| && !InBatch(batch, k)
    ensures Same(specs, WithBatch(specs, batch), k) && Same(connectors, WithConnectors(connectors, items, batch), k)
    decreases |batch|
  {
    if batch != [] {
      var n := |batch| - 1;
      assert batch[n].key != k;
      OthersStay(specs, connectors, items[..n], batch[..n], k);
    }
  }

  lemma {:induction false} BatchKeysExactly(batch: seq<Spec>, k: string)
    ensures k in BatchKeys(batch) <==> InBatch(batch, k)
  {
    if batch != [] {
      var n := |batch| - 1;
      BatchKeysExactly(batch[..n], k);
      assert batch == batch[..n] + [batch[n]];
      if InBatch(batch[..n], k) {
        var i :| 0 <= i < n && batch[..n][i].key == k;
        assert batch[i].key == k;
      }
    }
  }

  lemma BatchIsHeld(
    specs: Specs, connectors: map<string, Connector>, items: seq<(Connector, Spec)>, batch: seq<Spec>)
    requires |items| == |batch| && DistinctSpecs(batch)
    ensures
      HoldsBatch(specs, connectors, items, batch, WithBatch(specs, batch), WithConnectors(connectors, items, batch))
  {
    hide WithBatch, WithConnectors, InBatch, DistinctSpecs;
    forall i: nat | i < |batch|
      ensures
        var s, c := WithBatch(specs, batch), WithConnectors(connectors, items, batch);
        && batch[i].key in s && s[batch[i].key] == batch[i]
        && batch[i].key in c && c[batch[i].key] == items[i].0
    {
      BatchMemberIsHeld(specs, connectors, items, batch, i);
    }
    forall k | !InBatch(batch, k)
      ensures Same(specs, WithBatch(specs, batch), k) && Same(connectors, WithConnectors(connectors, items, batch), k)
    {
      OthersStay(specs, connectors, items, batch, k);
    }
  }

  class ConnectorRegistry {
    const rules: Rules
    var connectors: map<string, Connector>
    var specs: Specs
    var identities: map<string, string>
    var discovered: set<string>

    ghost predicate Valid()
      reads this
    {
      Sound(connectors, specs, identities, discovered)
    }

    /** What stays when earlier package discoveries are dropped. */
    function Base(): (base: Names)
      reads this
      ensures forall k :: k in base.keys <==> k in specs && k !in discovered
      ensures forall id :: id in base.ids <==> id in identities && identities[id] !in discovered
    {
      Names(specs.Keys - discovered, Kept(identities, discovered).Keys)
    }

    constructor (rules: Rules)
      ensures Valid() && specs == map[] && discovered == {} && this.rules == rules
    {
      this.rules := rules;
      connectors, specs, identities, discovered := map[], map[], map[], {};
    }

    /** Registers a connector, or changes nothing. */
    method Register(c: Connector, spec: Spec, requireVersion: bool, isDiscovered: bool) returns (ok: bool)
      requires Valid()
      modifies this
      ensures Valid()
      ensures
        var v := Validated(rules, spec, requireVersion);
        && (ok <==> v.Some? && Fits(v.value, old(Taken(specs, identities))))
        && (ok <==>
              && v.Some? && v.value.key != "http_declarative"
              && v.value.key !in old(specs) && v.value.key !in old(identities)
              && forall i :: 0 <= i < |v.value.tools| ==>
                   && v.value.tools[i].toolKey !in old(specs.Keys + identities.Keys) + {v.value.key}
                   && v.value.tools[i].mcpName !in old(specs.Keys + identities.Keys) + {v.value.key})
        && (ok ==> && specs == old(specs)[v.value.key := v.value]
                   && connectors == old(connectors)[v.value.key := c]
                   && discovered == old(discovered) + if isDiscovered then {v.value.key} else {})
      ensures !ok ==> unchanged(this)
    {
      hide Sound, Ids, Fits;
      var v := ValidateManifest(rules, spec, requireVersion);
      if v.Some? {
        FitsExactly(v.value, Taken(specs, identities));
      }
      if v.None? || !Fits(v.value, Names(connectors.Keys, identities.Keys)) {
        assert connectors.Keys == specs.Keys by { SoundKeys(connectors, specs, identities, discovered); }
        return false;
      }
      SoundKeys(connectors, specs, identities, discovered);
      AddingKeepsSound(connectors, specs, identities, discovered, c, v.value, isDiscovered);
      connectors, specs := connectors[v.value.key := c], specs[v.value.key := v.value];
      identities := identities + Owned(v.value);
      if isDiscovered {
        discovered := discovered + {v.value.key};
      }
      return true;
    }

    method ClearDiscovered()
      requires Valid()
      modifies this
      ensures Valid() && discovered == {}
      ensures specs == old(specs) - old(discovered) && connectors == old(connectors) - old(discovered)
    {
      hide Sound;
      DroppingKeepsSound(connectors, specs, identities, discovered);
      connectors, specs := connectors - discovered, specs - discovered;
      identities, discovered := Kept(identities, discovered), {};
    }

    /** Preflights a whole batch against what would stay; nothing is changed. */
    method ValidateDiscoveredBatch(batch: seq<Spec>) returns (r: Option<seq<Spec>>)
      requires Valid()
      ensures r == var b := BatchOf(rules, Base(), batch); if b.Some? then Some(b.value.0) else None
    {
      hide Sound, Fits, Validated, Ids, Kept;
      var names := Base();
      var snapshots: seq<Spec> := [];
      var i := 0;
      while i < |batch|
        invariant 0 <= i <= |batch|
        invariant BatchOf(rules, Base(), batch[..i]) == Some((snapshots, names))
      {
        assert batch[..i + 1][..i] == batch[..i];
        var v := ValidateManifest(rules, batch[i], true);
        if v.None? || !Fits(v.value, names) {
          BatchFailsTogether(rules, Base(), batch, i + 1);
          return None;
        }
        names, snapshots := Grow(names, v.value), snapshots + [v.value];
        i := i + 1;
      }
      assert batch[..i] == batch;
      return Some(snapshots);
    }

    /** Selects a subset that fits together, without changing anything. */
    method PartitionDiscoveredBatch(batch: seq<Spec>) returns (accepted: seq<(nat, Spec)>, rejected: seq<nat>)
      requires Valid()
      ensures var split := SplitOf(rules, Base(), batch); accepted == split.accepted && rejected == split.rejected
    {
      hide Sound, Fits, Validated, Ids, Kept;
      var names := Base();
      accepted, rejected := [], [];
      for i := 0 to |batch|
        invariant SplitOf(rules, Base(), batch[..i]) == Split(accepted, rejected, names)
      {
        assert batch[..i + 1][..i] == batch[..i];
        var v := ValidateManifest(rules, batch[i], true);
        if v.None? || !Fits(v.value, names) {
          rejected := rejected + [i];
        } else {
          names, accepted := Grow(names, v.value), accepted + [(i, v.value)];
        }
      }
      assert batch[..|batch|] == batch;
    }

    /** Replaces all package discoveries by a batch that passes as a whole, or changes nothing. */
    method ReplaceDiscovered(items: seq<(Connector, Spec)>) returns (ok: bool)
      requires Valid()
      modifies this
      ensures Valid()
      ensures
        var b := BatchOf(rules, old(Base()), SpecsOf(items));
        && (ok <==> b.Some?)
        && (ok ==> && specs == WithBatch(old(specs) - old(discovered), b.value.0)
                   && connectors == WithConnectors(old(connectors) - old(discovered), items, b.value.0)
                   && discovered == BatchKeys(b.value.0)
                   && |b.value.0| == |items| && (forall k :: k in discovered <==> InBatch(b.value.0, k))
                   && HoldsBatch(old(specs) - old(discovered), old(connectors) - old(discovered), items, b.value.0,
                                 specs, connectors))
      ensures !ok ==> unchanged(this)
    {
      hide Sound, Fits, Validated, Ids, Kept, BatchOf, HoldsBatch, DistinctSpecs, InBatch;
      var snapshots := ValidateDiscoveredBatch(SpecsOf(items));
      if snapshots.None? {
        return false;
      }
      ghost var base, all := Base(), SpecsOf(items);
      BatchLength(rules, base, all);
      BatchOfNothing(rules, base);
      DroppingKeepsSound(connectors, specs, identities, discovered);
      var nextConnectors, nextSpecs := connectors - discovered, specs - discovered;
      var nextIdentities, nextDiscovered := Kept(identities, discovered), {};
      ghost var baseSpecs, baseConnectors := nextSpecs, nextConnectors;
      assert Taken(nextSpecs, nextIdentities) == base;
      var i := 0;
      while i < |items|
        invariant 0 <= i <= |items| == |snapshots.value|
        invariant Sound(nextConnectors, nextSpecs, nextIdentities, nextDiscovered)
        invariant BatchOf(rules, base, all[..i]) == Some((snapshots.value[..i], Taken(nextSpecs, nextIdentities)))
        invariant nextSpecs == WithBatch(baseSpecs, snapshots.value[..i])
        invariant nextConnectors == WithConnectors(baseConnectors, items[..i], snapshots.value[..i])
        invariant nextDiscovered == BatchKeys(snapshots.value[..i])
      {
        var s := snapshots.value[i];
        BatchStep(rules, base, all, i, snapshots.value, Taken(nextSpecs, nextIdentities));
        OneMore(baseSpecs, baseConnectors, items, snapshots.value, i);
        AddingKeepsSound(nextConnectors, nextSpecs, nextIdentities, nextDiscovered, items[i].0, s, true);
        nextConnectors, nextSpecs := nextConnectors[s.key := items[i].0], nextSpecs[s.key := s];
        nextIdentities, nextDiscovered := nextIdentities + Owned(s), nextDiscovered + {s.key};
        i := i + 1;
      }
      assert items[..i] == items && snapshots.value[..i] == snapshots.value;
      BatchHasDistinctKeys(rules, base, all);
      BatchIsHeld(baseSpecs, baseConnectors, items, snapshots.value);
      forall k ensures k in nextDiscovered <==> InBatch(snapshots.value, k) {
        BatchKeysExactly(snapshots.value, k);
      }
      connectors, specs, identities, discovered := nextConnectors, nextSpecs, nextIdentities, nextDiscovered;
      return true;
    }
  }

  function SpecsOf(items: seq<(Connector, Spec)>): seq<Spec> {
    seq(|items|, i requires 0 <= i < |items| => items[i].1)
  }

  function WithConnectors(
    connectors: map<string, Connector>, items: seq<(Connector, Spec)>, batch: seq<Spec>): map<string, Connector>
  {
    if batch == [] || |items| != |batch| then connectors
    else
      var n := |batch| - 1;
      WithConnectors(connectors, items[..n], batch[..n])[batch[n].key := items[n].0]
  }

  lemma {:induction false} BatchFailsTogether(rules: Rules, base: Names, specs: seq<Spec>, n: nat)
    requires n <= |specs| && BatchOf(rules, base, specs[..n]).None?
    ensures BatchOf(rules, base, specs).None?
    decreases |specs| - n
  {
    if n < |specs| {
      assert specs[..n + 1][..n] == specs[..n];
      BatchFailsTogether(rules, base, specs, n + 1);
    } else {
      assert specs[..n] == specs;
    }
  }

  lemma {:induction false} BatchLength(rules: Rules, base: Names, specs: seq<Spec>)
    requires BatchOf(rules, base, specs).Some?
    ensures |BatchOf(rules, base, specs).value.0| == |specs|
  {
    if specs != [] {
      BatchLength(rules, base, specs[..|specs| - 1]);
    }
  }

  /** The snapshots of a prefix are a prefix of the snapshots. */
  lemma {:induction false} BatchPrefix(rules: Rules, base: Names, specs: seq<Spec>, n: nat)
    requires n <= |specs| && BatchOf(rules, base, specs).Some?
    ensures
      var b := BatchOf(rules, base, specs[..n]);
      b.Some? && |b.value.0| == n <= |BatchOf(rules, base, specs).value.0|
      && b.value.0 == BatchOf(rules, base, specs).value.0[..n]
    decreases |specs| - n
  {
    hide Validated, Fits, Grow;
    BatchLength(rules, base, specs);
    if n == |specs| {
      assert specs[..n] == specs;
    } else {
      var m := |specs| - 1;
      BatchPrefix(rules, base, specs[..m], n);
      assert specs[..m][..n] == specs[..n];
    }
  }

  lemma BatchStep(rules: Rules, base: Names, specs: seq<Spec>, i: nat, batch: seq<Spec>, names: Names)
    requires i < |specs| == |batch|
    requires BatchOf(rules, base, specs).Some? && BatchOf(rules, base, specs).value.0 == batch
    requires BatchOf(rules, base, specs[..i]) == Some((batch[..i], names))
    ensures Fits(batch[i], names)
    ensures BatchOf(rules, base, specs[..i + 1]) == Some((batch[..i + 1], Grow(names, batch[i])))
  {
    hide Validated, Fits, Grow;
    BatchPrefix(rules, base, specs, i + 1);
    assert specs[..i + 1][..i] == specs[..i];
    assert batch[..i + 1][i] == batch[i];
  }

  lemma OneMore(
    specs: Specs, connectors: map<string, Connector>, items: seq<(Connector, Spec)>, batch: seq<Spec>, i: nat)
    requires i < |items| == |batch|
    ensures WithBatch(specs, batch[..i + 1]) == WithBatch(specs, batch[..i])[batch[i].key := batch[i]]
    ensures WithConnectors(connectors, items[..i + 1], batch[..i + 1])
            == WithConnectors(connectors, items[..i], batch[..i])[batch[i].key := items[i].0]
    ensures BatchKeys(batch[..i + 1]) == BatchKeys(batch[..i]) + {batch[i].key}
  {
    assert batch[..i + 1][..i] == batch[..i] && items[..i + 1][..i] == items[..i];
  }

  lemma BatchOfNothing(rules: Rules, base: Names)
    ensures BatchOf(rules, base, []) == Some(([], base))
  {
  }

  lemma SoundKeys(
    connectors: map<string, Connector>, specs: Specs, identities: map<string, string>, discovered: set<string>)
    requires Sound(connectors, specs, identities, discovered)
    ensures connectors.Keys == specs.Keys
  {
  }
}