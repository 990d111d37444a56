/** Freezing a bounded JSON tree, and thawing it again. */
module JsonTree {
  import opened Common

  datatype Key = Name(text: string) | NotText

  datatype Field = Field(key: Key, value: Json)

  /** A finite tree of values; `readOnly` marks a frozen mapping; a float is in range when it is
      finite and at most 1e308 in magnitude. */
  datatype Json =
    | JNull | JBool(b: bool) | JInt(n: int) | JFloat(bits: nat, inRange: bool) | JStr(text: string)
    | JMap(fields: seq<Field>, readOnly: bool) | JList(items: seq<Json>) | JTuple(items: seq<Json>)
    | JOther(tag: nat)

  const MAX_DEPTH: nat := 24
  const MAX_NODES: nat := 4096
  const MAX_KEY: nat := 256
  const MAX_TEXT: nat := 16384
  const MIN_INTEGER: int := -0x8000_0000_0000_0000
  const MAX_INTEGER: int := 0x7fff_ffff_ffff_ffff

  /** Which texts hold control characters is left open. */
  type Control = string -> bool

  predicate LeafOk(control: Control, v: Json) {
    match v
    case JNull => true
    case JBool(_) => true
    case JInt(n) => MIN_INTEGER <= n <= MAX_INTEGER
    case JFloat(_, inRange) => inRange
    case JStr(text) => |text| <= MAX_TEXT && !control(text)
    case _ => false
  }

  predicate KeyOk(control: Control, k: Key) {
    k.Name? && 0 < |k.text| <= MAX_KEY && !control(k.text)
  }

  /** Every node is of an accepted kind and not too deep. */
  predicate Acceptable(control: Control, v: Json, depth: nat)
    decreases v
  {
    depth <= MAX_DEPTH &&
    match v
    case JMap(fields, _) =>
      forall i :: 0 <= i < |fields| ==> KeyOk(control, fields[i].key) && Acceptable(control, fields[i].value, depth + 1)
    case JList(items) => forall i :: 0 <= i < |items| ==> Acceptable(control, items[i], depth + 1)
    case JTuple(items) => forall i :: 0 <= i < |items| ==> Acceptable(control, items[i], depth + 1)
    case _ => LeafOk(control, v)
  }

  function FieldsSize(fields: seq<Field>): nat
    decreases fields
  {
    if fields == [] then 0
    else
      var last := fields[|fields| - 1];
      assert last.value < last;
      FieldsSize(fields[..|fields| - 1]) + Size(last.value)
  }

  function ItemsSize(items: seq<Json>): nat
    decreases items
  {
    if items == [] then 0 else ItemsSize(items[..|items| - 1]) + Size(items[|items| - 1])
  }

  function Size(v: Json): (n: nat)
    ensures n >= 1
    decreases v
  {
    match v
    case JMap(fields, _) => 1 + FieldsSize(fields)
    case JList(items) => 1 + ItemsSize(items)
    case JTuple(items) => 1 + ItemsSize(items)
    case _ => 1
  }

  function FrozenFields(fields: seq<Field>): seq<Field>
    decreases fields
  {
    if fields == [] then []
    else
      var last := fields[|fields| - 1];
      assert last.value < last;
      FrozenFields(fields[..|fields| - 1]) + [Field(last.key, Frozen(last.value))]
  }

  function FrozenItems(items: seq<Json>): seq<Json>
    decreases items
  {
    if items == [] then [] else FrozenItems(items[..|items| - 1]) + [Frozen(items[|items| - 1])]
  }

  /** The detached copy: mappings read-only, lists and tuples both tuples. */
  function Frozen(v: Json): Json
    decreases v
  {
    match v
    case JMap(fields, _) => JMap(FrozenFields(fields), true)
    case JList(items) => JTuple(FrozenItems(items))
    case JTuple(items) => JTuple(FrozenItems(items))
    case _ => v
  }

  function FreezeTree(control: Control, v: Json): Option<Json> {
    if Acceptable(control, v, 0) && Size(v) <= MAX_NODES then Some(Frozen(v)) else None
  }

  // ----- the counting walk computes exactly this -----

  /** One freezing of one tree. The counter is shared by all recursive calls. */
  class Freezer {
    const control: Control
    var nodes: nat

    constructor (control: Control)
      ensures this.control == control && nodes == 0
    {
      this.control := control;
      nodes := 0;
    }

    method Freeze(v: Json, depth: nat) returns (r: Option<Json>)
      requires nodes <= MAX_NODES
      modifies this
      ensures r == if Acceptable(control, v, depth) && old(nodes) + Size(v) <= MAX_NODES then Some(Frozen(v)) else None
      ensures r.Some? ==> nodes == old(nodes) + Size(v)
      decreases v
    {
      hide LeafOk, KeyOk, FieldsSize, ItemsSize, FrozenFields, FrozenItems;
      nodes := nodes + 1;
      if nodes > MAX_NODES || depth > MAX_DEPTH {
        return None;
      }
      match v
      case JMap(fields, _) =>
        var frozen := FreezeFields(fields, depth + 1);
        return if frozen.Some? then Some(JMap(frozen.value, true)) else None;
      case JList(items) =>
        var frozen := FreezeItems(items, depth + 1);
        return if frozen.Some? then Some(JTuple(frozen.value)) else None;
      case JTuple(items) =>
        var frozen := FreezeItems(items, depth + 1);
        return if frozen.Some? then Some(JTuple(frozen.value)) else None;
      case _ =>
        return if LeafOk(control, v) then Some(v) else None;
    }

    method FreezeFields(fields: seq<Field>, depth: nat) returns (r: Option<seq<Field>>)
      requires nodes <= MAX_NODES
      modifies this
      ensures
        r == if (forall i :: 0 <= i < |fields| ==>
                 KeyOk(control, fields[i].key) && Acceptable(control, fields[i].value, depth))
                && old(nodes) + FieldsSize(fields) <= MAX_NODES then Some(FrozenFields(fields)) else None
      ensures r.Some? ==> nodes == old(nodes) + FieldsSize(fields)
      decreases fields
    {
      hide Acceptable, Size, Frozen, KeyOk;
      var frozen: seq<Field> := [];
      var i := 0;
      while i < |fields|
        invariant 0 <= i <= |fields|
        invariant forall j :: 0 <= j < i ==>
                  KeyOk(control, fields[j].key) && Acceptable(control, fields[j].value, depth)
        invariant nodes == old(nodes) + FieldsSize(fields[..i]) <= MAX_NODES
        invariant frozen == FrozenFields(fields[..i])
      {
        assert fields[..i + 1][..i] == fields[..i];
        FieldsSizeGrows(fields, i + 1);
        if !KeyOk(control, fields[i].key) {
          return None;
        }
        assert fields[i].value < fields[i];
        var item := Freeze(fields[i].value, depth);
        if item.None? {
          return None;
        }
        frozen := frozen + [Field(fields[i].key, item.value)];
        i := i + 1;
      }
      assert fields[..i] == fields;
      return Some(frozen);
    }

    method FreezeItems(items: seq<Json>, depth: nat) returns (r: Option<seq<Json>>)
      requires nodes <= MAX_NODES
      modifies this
      ensures
        r == if (forall i :: 0 <= i < |items| ==> Acceptable(control, items[i], depth))
                && old(nodes) + ItemsSize(items) <= MAX_NODES then Some(FrozenItems(items)) else None
      ensures r.Some? ==> nodes == old(nodes) + ItemsSize(items)
      decreases items
    {
      hide Acceptable, Size, Frozen;
      var frozen: seq<Json> := [];
      var i := 0;
      while i < |items|
        invariant 0 <= i <= |items|
        invariant forall j :: 0 <= j < i ==> Acceptable(control, items[j], depth)
        invariant nodes == old(nodes) + ItemsSize(items[..i]) <= MAX_NODES
        invariant frozen == FrozenItems(items[..i])
      {
        assert items[..i + 1][..i] == items[..i];
        ItemsSizeGrows(items, i + 1);
        var item := Freeze(items[i], depth);
        if item.None? {
          return None;
        }
        frozen := frozen + [item.value];
        i := i + 1;
      }
      assert items[..i] == items;
      return Some(frozen);
    }
  }

  lemma {:induction false} FieldsSizeGrows(fields: seq<Field>, n: nat)
    requires n <= |fields|
    ensures FieldsSize(fields[..n]) <= FieldsSize(fields)
    decreases |fields| - n
  {
    if n < |fields| {
      assert fields[..n + 1][..n] == fields[..n];
      FieldsSizeGrows(fields, n + 1);
    } else {
      assert fields[..n] == fields;
    }
  }

  lemma {:induction false} ItemsSizeGrows(items: seq<Json>, n: nat)
    requires n <= |items|
    ensures ItemsSize(items[..n]) <= ItemsSize(items)
    decreases |items| - n
  {
    if n < |items| {
      assert items[..n + 1][..n] == items[..n];
      ItemsSizeGrows(items, n + 1);
    } else {
      assert items[..n] == items;
    }
  }

  // ----- freezing twice is freezing once -----

  lemma FieldsSnoc(front: seq<Field>, last: Field)
    ensures FieldsSize(front + [last]) == FieldsSize(front) + Size(last.value)
    ensures FrozenFields(front + [last]) == FrozenFields(front) + [Field(last.key, Frozen(last.value))]
    ensures ThawedFields(front + [last]) == ThawedFields(front) + [Field(last.key, Thawed(last.value))]
  {
    hide Size, Frozen, Thawed;
    assert (front + [last])[..|front|] == front;
  }

  lemma ItemsSnoc(front: seq<Json>, last: Json)
    ensures ItemsSize(front + [last]) == ItemsSize(front) + Size(last)
    ensures FrozenItems(front + [last]) == FrozenItems(front) + [Frozen(last)]
    ensures ThawedItems(front + [last]) == ThawedItems(front) + [Thawed(last)]
  {
    hide Size, Frozen, Thawed;
    assert (front + [last])[..|front|] == front;
  }

  lemma NothingToFreeze()
    ensures FieldsSize([]) == 0 && FrozenFields([]) == [] && ThawedFields([]) == []
    ensures ItemsSize([]) == 0 && FrozenItems([]) == [] && ThawedItems([]) == []
  {
  }

  lemma {:induction false} FrozenFieldsFacts(control: Control, fields: seq<Field>, depth: nat)
    ensures
      var frozen := FrozenFields(fields);
      && |frozen| == |fields|
      && FieldsSize(frozen) == FieldsSize(fields)
      && FrozenFields(frozen) == frozen
      && (forall i :: 0 <= i < |fields| ==>
            && frozen[i].key == fields[i].key
            && (Acceptable(control, frozen[i].value, depth) <==> Acceptable(control, fields[i].value, depth)))
    decreases fields
  {
    hide Acceptable, Size, Frozen, Thawed, FieldsSize, FrozenFields, ThawedFields, ItemsSize, FrozenItems, ThawedItems;
    if fields == [] {
      NothingToFreeze();
    } else {
      var n := |fields| - 1;
      var front, last := fields[..n], fields[n];
      assert last.value < last && fields == front + [last];
      FrozenFieldsFacts(control, front, depth);
      FrozenFacts(control, last.value, depth);
      FieldsSnoc(front, last);
      FieldsSnoc(FrozenFields(front), Field(last.key, Frozen(last.value)));
      var frozen := FrozenFields(fields);
      forall i | 0 <= i < |fields|
        ensures frozen[i].key == fields[i].key
        ensures Acceptable(control, frozen[i].value, depth) <==> Acceptable(control, fields[i].value, depth)
      {
        assert i < n ==> frozen[i] == FrozenFields(front)[i] && fields[i] == front[i];
      }
    }
  }

  lemma {:induction false} FrozenItemsFacts(control: Control, items: seq<Json>, depth: nat)
    ensures
      var frozen := FrozenItems(items);
      && |frozen| == |items|
      && ItemsSize(frozen) == ItemsSize(items)
      && FrozenItems(frozen) == frozen
      && (forall i :: 0 <= i < |items| ==>
            (Acceptable(control, frozen[i], depth) <==> Acceptable(control, items[i], depth)))
    decreases items
  {
    hide Acceptable, Size, Frozen, Thawed, FieldsSize, FrozenFields, ThawedFields, ItemsSize, FrozenItems, ThawedItems;
    if items == [] {
      NothingToFreeze();
    } else {
      var n := |items| - 1;
      var front, last := items[..n], items[n];
      assert items == front + [last];
      FrozenItemsFacts(control, front, depth);
      FrozenFacts(control, last, depth);
      ItemsSnoc(front, last);
      ItemsSnoc(FrozenItems(front), Frozen(last));
      var frozen := FrozenItems(items);
      forall i | 0 <= i < |items|
        ensures Acceptable(control, frozen[i], depth) <==> Acceptable(control, items[i], depth)
      {
        assert i < n ==> frozen[i] == FrozenItems(front)[i] && items[i] == front[i];
      }
    }
  }

  lemma {:induction false} FrozenFacts(control: Control, v: Json, depth: nat)
    ensures Frozen(Frozen(v)) == Frozen(v)
    ensures Size(Frozen(v)) == Size(v)
    ensures Acceptable(control, Frozen(v), depth) <==> Acceptable(control, v, depth)
    decreases v
  {
    hide LeafOk, KeyOk, FieldsSize, ItemsSize, FrozenFields, FrozenItems;
    match v
    case JMap(fields, _) => FrozenFieldsFacts(control, fields, depth + 1);
    case JList(items) => FrozenItemsFacts(control, items, depth + 1);
    case JTuple(items) => FrozenItemsFacts(control, items, depth + 1);
    case _ =>
  }

  /** A frozen tree passes again, and unchanged. */
  lemma FreezingIsIdempotent(control: Control, v: Json)
    requires FreezeTree(control, v).Some?
    ensures FreezeTree(control, FreezeTree(control, v).value) == FreezeTree(control, v)
  {
    FrozenFacts(control, v, 0);
  }

  // ----- thawing -----

  function ThawedFields(fields: seq<Field>): seq<Field>
    decreases fields
  {
    if fields == [] then []
    else
      var last := fields[|fields| - 1];
      assert last.value < last;
      ThawedFields(fields[..|fields| - 1]) + [Field(last.key, Thawed(last.value))]
  }

  function ThawedItems(items: seq<Json>): seq<Json>
    decreases items
  {
    if items == [] then [] else ThawedItems(items[..|items| - 1]) + [Thawed(items[|items| - 1])]
  }

  /** The public copy. A list, which a frozen tree never holds, is left as it is. */
  function Thawed(v: Json): Json
    decreases v
  {
    match v
    case JMap(fields, _) => JMap(ThawedFields(fields), false)
    case JTuple(items) => JList(ThawedItems(items))
    case _ => v
  }

  /** A tree as a JSON document gives it: plain dictionaries and lists only. */
  predicate Plain(v: Json)
    decreases v
  {
    match v
    case JMap(fields, readOnly) => !readOnly && forall i :: 0 <= i < |fields| ==> Plain(fields[i].value)
    case JList(items) => forall i :: 0 <= i < |items| ==> Plain(items[i])
    case JTuple(_) => false
    case _ => true
  }

  lemma {:induction false} ThawedFrozenFields(fields: seq<Field>)
    requires forall i :: 0 <= i < |fields| ==> Plain(fields[i].value)
    ensures ThawedFields(FrozenFields(fields)) == fields
    decreases fields
  {
    hide Plain, Size, Frozen, Thawed, FieldsSize, FrozenFields, ThawedFields;
    if fields == [] {
      NothingToFreeze();
    } else {
      var n := |fields| - 1;
      var front, last := fields[..n], fields[n];
      assert last.value < last && fields == front + [last];
      ThawedFrozenFields(front);
      ThawUndoesFreeze(last.value);
      FieldsSnoc(front, last);
      FieldsSnoc(FrozenFields(front), Field(last.key, Frozen(last.value)));
    }
  }

  lemma {:induction false} ThawedFrozenItems(items: seq<Json>)
    requires forall i :: 0 <= i < |items| ==> Plain(items[i])
    ensures ThawedItems(FrozenItems(items)) == items
    decreases items
  {
    hide Plain, Size, Frozen, Thawed, ItemsSize, FrozenItems, ThawedItems;
    if items == [] {
      NothingToFreeze();
    } else {
      var n := |items| - 1;
      var front, last := items[..n], items[n];
      assert items == front + [last];
      ThawedFrozenItems(front);
      ThawUndoesFreeze(last);
      ItemsSnoc(front, last);
      ItemsSnoc(FrozenItems(front), Frozen(last));
    }
  }

  /** What a connector declared as plain JSON is what the public copy shows. */
  lemma {:induction false} ThawUndoesFreeze(v: Json)
    requires Plain(v)
    ensures Thawed(Frozen(v)) == v
    decreases v
  {
    hide FrozenFields, FrozenItems, ThawedFields, ThawedItems;
    match v
    case JMap(fields, _) => ThawedFrozenFields(fields);
    case JList(items) => ThawedFrozenItems(items);
    case _ =>
  }

  // ----- which trees are frozen, and into what -----

  function FieldNodes(fields: seq<Field>, depth: nat): seq<(nat, Json)>
    decreases fields
  {
    if fields == [] then []
    else
      var last := fields[|fields| - 1];
      assert last.value < last;
      FieldNodes(fields[..|fields| - 1], depth) + Nodes(last.value, depth)
  }

  function ItemNodes(items: seq<Json>, depth: nat): seq<(nat, Json)>
    decreases items
  {
    if items == [] then []
    else ItemNodes(items[..|items| - 1], depth) + Nodes(items[|items| - 1], depth)
  }

  /** Every node of a tree with its depth. */
  function Nodes(v: Json, depth: nat): seq<(nat, Json)>
    decreases v
  {
    match v
    case JMap(fields, _) => [(depth, v)] + FieldNodes(fields, depth + 1)
    case JList(items) => [(depth, v)] + ItemNodes(items, depth + 1)
    case JTuple(items) => [(depth, v)] + ItemNodes(items, depth + 1)
    case _ => [(depth, v)]
  }

  /** What one node must be, each check of the source once. */
  predicate NodeMayPass(control: Control, depth: nat, v: Json) {
    && depth <= 24
    && (v.JInt? ==> -0x8000_0000_0000_0000 <= v.n <= 0x7fff_ffff_ffff_ffff)
    && (v.JFloat? ==> v.inRange)
    && (v.JStr? ==> |v.text| <= 16384 && !control(v.text))
    && (v.JMap? ==> forall i :: 0 <= i < |v.fields| ==>
          && v.fields[i].key.Name? && 1 <= |v.fields[i].key.text| <= 256 && !control(v.fields[i].key.text))
    && !v.JOther?
  }

  predicate AllMayPass(control: Control, nodes: seq<(nat, Json)>) {
    forall i :: 0 <= i < |nodes| ==> NodeMayPass(control, nodes[i].0, nodes[i].1)
  }

  lemma AllMayPassJoin(control: Control, a: seq<(nat, Json)>, b: seq<(nat, Json)>)
    ensures AllMayPass(control, a + b) <==> AllMayPass(control, a) && AllMayPass(control, b)
  {
    hide NodeMayPass;
    if AllMayPass(control, a + b) {
      assert forall i :: 0 <= i < |a| ==> (a + b)[i] == a[i];
      assert forall i :: 0 <= i < |b| ==> (a + b)[|a| + i] == b[i];
    }
  }

  predicate FieldsAcceptable(control: Control, fields: seq<Field>, depth: nat) {
    forall i :: 0 <= i < |fields| ==> Acceptable(control, fields[i].value, depth)
  }

  predicate ItemsAcceptable(control: Control, items: seq<Json>, depth: nat) {
    forall i :: 0 <= i < |items| ==> Acceptable(control, items[i], depth)
  }

  lemma {:induction false} FieldNodesPass(control: Control, fields: seq<Field>, depth: nat)
    ensures |FieldNodes(fields, depth)| == FieldsSize(fields)
    ensures AllMayPass(control, FieldNodes(fields, depth)) <==> FieldsAcceptable(control, fields, depth)
    decreases fields
  {
    hide Acceptable, AllMayPass, Nodes, Size;
    if fields == [] {
      assert AllMayPass(control, []) by { NoNodes(control); }
    } else {
      var n := |fields| - 1;
      var front, last := fields[..n], fields[n];
      assert last.value < last && fields == front + [last];
      FieldNodesPass(control, front, depth);
      NodesPass(control, last.value, depth);
      AllMayPassJoin(control, FieldNodes(front, depth), Nodes(last.value, depth));
    }
  }

  lemma {:induction false} ItemNodesPass(control: Control, items: seq<Json>, depth: nat)
    ensures |ItemNodes(items, depth)| == ItemsSize(items)
    ensures AllMayPass(control, ItemNodes(items, depth)) <==> ItemsAcceptable(control, items, depth)
    decreases items
  {
    hide Acceptable, AllMayPass, Nodes, Size;
    if items == [] {
      assert AllMayPass(control, []) by { NoNodes(control); }
    } else {
      var n := |items| - 1;
      var front, last := items[..n], items[n];
      assert items == front + [last];
      ItemNodesPass(control, front, depth);
      NodesPass(control, last, depth);
      AllMayPassJoin(control, ItemNodes(front, depth), Nodes(last, depth));
    }
  }

  lemma NoNodes(control: Control)
    ensures AllMayPass(control, [])
  {
  }

  lemma OneNode(control: Control, depth: nat, v: Json)
    ensures AllMayPass(control, [(depth, v)]) <==> NodeMayPass(control, depth, v)
  {
    hide NodeMayPass;
    if AllMayPass(control, [(depth, v)]) {
      assert [(depth, v)][0] == (depth, v);
    }
  }

  lemma {:induction false} NodesPass(control: Control, v: Json, depth: nat)
    ensures |Nodes(v, depth)| == Size(v)
    ensures AllMayPass(control, Nodes(v, depth)) <==> Acceptable(control, v, depth)
    decreases v
  {
    hide AllMayPass, FieldNodes, ItemNodes, FieldsSize, ItemsSize;
    OneNode(control, depth, v);
    match v
    case JMap(fields, _) =>
      FieldNodesPass(control, fields, depth + 1);
      AllMayPassJoin(control, [(depth, v)], FieldNodes(fields, depth + 1));
    case JList(items) =>
      ItemNodesPass(control, items, depth + 1);
      AllMayPassJoin(control, [(depth, v)], ItemNodes(items, depth + 1));
    case JTuple(items) =>
      ItemNodesPass(control, items, depth + 1);
      AllMayPassJoin(control, [(depth, v)], ItemNodes(items, depth + 1));
    case _ =>
  }

  /** A tree is frozen exactly when it has at most 4096 nodes and each of them may pass at its depth. */
  lemma FreezesExactly(control: Control, v: Json)
    ensures FreezeTree(control, v).Some? <==>
            |Nodes(v, 0)| <= 4096 && AllMayPass(control, Nodes(v, 0))
  {
    hide Acceptable, Size, Nodes, AllMayPass;
    NodesPass(control, v, 0);
  }

  /** The same tree, but for the form of its containers. */
  predicate SameTree(v: Json, w: Json)
    decreases v
  {
    match v
    case JMap(fields, _) =>
      && w.JMap? && |w.fields| == |fields|
      && forall i :: 0 <= i < |fields| ==>
           w.fields[i].key == fields[i].key && SameTree(fields[i].value, w.fields[i].value)
    case JList(items) =>
      && (w.JList? || w.JTuple?) && |w.items| == |items|
      && forall i :: 0 <= i < |items| ==> SameTree(items[i], w.items[i])
    case JTuple(items) =>
      && (w.JList? || w.JTuple?) && |w.items| == |items|
      && forall i :: 0 <= i < |items| ==> SameTree(items[i], w.items[i])
    case _ => v == w
  }

  /** No mapping that may be written to, and no list, at any depth. */
  predicate Immutable(v: Json)
    decreases v
  {
    match v
    case JMap(fields, readOnly) => readOnly && forall i :: 0 <= i < |fields| ==> Immutable(fields[i].value)
    case JList(_) => false
    case JTuple(items) => forall i :: 0 <= i < |items| ==> Immutable(items[i])
    case _ => true
  }

  lemma {:induction false} FrozenFieldsAreCopies(fields: seq<Field>)
    ensures |FrozenFields(fields)| == |fields|
    ensures forall i :: 0 <= i < |fields| ==>
              && FrozenFields(fields)[i].key == fields[i].key
              && SameTree(fields[i].value, FrozenFields(fields)[i].value) && Immutable(FrozenFields(fields)[i].value)
    decreases fields
  {
    hide SameTree, Immutable, Size, Frozen, Thawed, FieldsSize, FrozenFields, ThawedFields;
    if fields == [] {
      NothingToFreeze();
    } else {
      var n := |fields| - 1;
      var front, last := fields[..n], fields[n];
      assert last.value < last && fields == front + [last];
      FrozenFieldsAreCopies(front);
      FrozenIsAnImmutableCopy(last.value);
      FieldsSnoc(front, last);
    }
  }

  lemma {:induction false} FrozenItemsAreCopies(items: seq<Json>)
    ensures |FrozenItems(items)| == |items|
    ensures forall i :: 0 <= i < |items| ==>
              SameTree(items[i], FrozenItems(items)[i]) && Immutable(FrozenItems(items)[i])
    decreases items
  {
    hide SameTree, Immutable, Size, Frozen, Thawed, ItemsSize, FrozenItems, ThawedItems;
    if items == [] {
      NothingToFreeze();
    } else {
      var n := |items| - 1;
      var front, last := items[..n], items[n];
      assert items == front + [last];
      FrozenItemsAreCopies(front);
      FrozenIsAnImmutableCopy(last);
      ItemsSnoc(front, last);
    }
  }

  /** Freezing loses nothing, and leaves nothing that can be written to. */
  lemma {:induction false} FrozenIsAnImmutableCopy(v: Json)
    ensures SameTree(v, Frozen(v)) && Immutable(Frozen(v))
    decreases v
  {
    hide FrozenFields, FrozenItems;
    match v
    case JMap(fields, _) => FrozenFieldsAreCopies(fields);
    case JList(items) => FrozenItemsAreCopies(items);
    case JTuple(items) => FrozenItemsAreCopies(items);
    case _ =>
  }
}
