/** What the data cache keeps: the admission check, the stored copy, and canonical arguments. */
module CacheValues {
  import opened Common

  datatype Key = StrKey(name: string) | OtherKey(tag: nat)

  datatype Field = Field(key: Key, value: Value)

  /** A Python value as the cache sees it. Floats are compared by their bits. */
  datatype Value =
    | Null
    | Bool(b: bool)
    | Int(n: int)
    | Float(bits: nat, finite: bool)
    | Str(text: string)
    | Bytes(data: seq<nat>)
    | Dict(fields: seq<Field>)
    | List(items: seq<Value>)
    | Tuple(items: seq<Value>)
    | Other(tag: nat)

  /** The name and text heuristics, of which nothing is assumed. */
  datatype Screen = Screen(badKey: string -> bool, badText: string -> bool)

  const MAX_DEPTH: nat := 8
  const MAX_ITEMS: nat := 200
  const MAX_TEXT: nat := 2048
  const OMITTED := Str("[omitted]")

  predicate PlainKey(p: Screen, k: Key) { k.StrKey? && !p.badKey(k.name) }

  predicate Sensitive(p: Screen, v: Value, depth: nat)
    decreases v
  {
    depth > MAX_DEPTH ||
    match v
    case Null => false
    case Bool(_) => false
    case Int(_) => false
    case Float(_, finite) => !finite
    case Str(text) => p.badText(text)
    case Bytes(_) => true
    case Dict(fields) =>
      || |fields| > MAX_ITEMS
      || exists i :: 0 <= i < |fields|
           && (!PlainKey(p, fields[i].key) || Sensitive(p, fields[i].value, depth + 1))
    case List(items) => |items| > MAX_ITEMS || exists i :: 0 <= i < |items| && Sensitive(p, items[i], depth + 1)
    case Tuple(items) => |items| > MAX_ITEMS || exists i :: 0 <= i < |items| && Sensitive(p, items[i], depth + 1)
    case Other(_) => true
  }

  function Cut(text: string): string {
    if |text| <= MAX_TEXT then text else text[..MAX_TEXT]
  }

  function SafeFields(p: Screen, fields: seq<Field>, depth: nat): seq<Field>
    decreases fields
  {
    if fields == [] then []
    else
      var f := fields[0];
      assert f.value < f;
      if !PlainKey(p, f.key) then SafeFields(p, fields[1..], depth)
      else [Field(f.key, SafeValue(p, f.value, depth))] + SafeFields(p, fields[1..], depth)
  }

  function SafeItems(p: Screen, items: seq<Value>, depth: nat): seq<Value>
    decreases items
  {
    if items == [] then [] else [SafeValue(p, items[0], depth)] + SafeItems(p, items[1..], depth)
  }

  /** The stored copy. */
  function SafeValue(p: Screen, v: Value, depth: nat): Value
    decreases v
  {
    if depth > MAX_DEPTH then OMITTED
    else
      match v
      case Null => v
      case Bool(_) => v
      case Int(_) => v
      case Float(_, finite) => if finite then v else OMITTED
      case Str(text) => Str(Cut(text))
      case Dict(fields) => if |fields| > MAX_ITEMS then OMITTED else Dict(SafeFields(p, fields, depth + 1))
      case List(items) => if |items| > MAX_ITEMS then OMITTED else List(SafeItems(p, items, depth + 1))
      case Tuple(items) => if |items| > MAX_ITEMS then OMITTED else List(SafeItems(p, items, depth + 1))
      case Bytes(_) => OMITTED
      case Other(_) => OMITTED
  }

  /** `w` is `v` with no key or element lost, in the same order: only long strings are cut and
      tuples become lists. */
  predicate KeepsAll(v: Value, w: Value)
    decreases v
  {
    match v
    case Str(text) =>
      w.Str? && w.text <= text && (|text| <= 2048 ==> w.text == text) && (|text| > 2048 ==> |w.text| == 2048)
    case Dict(fields) =>
      w.Dict? && |w.fields| == |fields|
      && forall i :: 0 <= i < |fields| ==>
           w.fields[i].key == fields[i].key && KeepsAll(fields[i].value, w.fields[i].value)
    case List(items) =>
      w.List? && |w.items| == |items| && forall i :: 0 <= i < |items| ==> KeepsAll(items[i], w.items[i])
    case Tuple(items) =>
      w.List? && |w.items| == |items| && forall i :: 0 <= i < |items| ==> KeepsAll(items[i], w.items[i])
    case _ => w == v
  }

  lemma {:induction false} FieldsKept(p: Screen, fields: seq<Field>, depth: nat)
    requires forall i :: 0 <= i < |fields| ==> PlainKey(p, fields[i].key) && !Sensitive(p, fields[i].value, depth)
    ensures
      var kept := SafeFields(p, fields, depth);
      && |kept| == |fields|
      && forall i :: 0 <= i < |fields| ==>
           kept[i].key == fields[i].key && KeepsAll(fields[i].value, kept[i].value)
    decreases fields
  {
    if fields != [] {
      assert fields[0].value < fields[0];
      AdmittedValueIsKept(p, fields[0].value, depth);
      FieldsKept(p, fields[1..], depth);
      var kept, rest := SafeFields(p, fields, depth), SafeFields(p, fields[1..], depth);
      forall i | 0 < i < |fields|
        ensures kept[i].key == fields[i].key && KeepsAll(fields[i].value, kept[i].value)
      {
        assert kept[i] == rest[i - 1] && fields[i] == fields[1..][i - 1];
      }
    }
  }

  lemma {:induction false} ItemsKept(p: Screen, items: seq<Value>, depth: nat)
    requires forall i :: 0 <= i < |items| ==> !Sensitive(p, items[i], depth)
    ensures
      var kept := SafeItems(p, items, depth);
      && |kept| == |items|
      && forall i :: 0 <= i < |items| ==> KeepsAll(items[i], kept[i])
    decreases items
  {
    if items != [] {
      AdmittedValueIsKept(p, items[0], depth);
      ItemsKept(p, items[1..], depth);
      var kept, rest := SafeItems(p, items, depth), SafeItems(p, items[1..], depth);
      forall i | 0 < i < |items|
        ensures KeepsAll(items[i], kept[i])
      {
        assert kept[i] == rest[i - 1] && items[i] == items[1..][i - 1];
      }
    }
  }

  /** The stored copy of an admitted value loses nothing. */
  lemma {:induction false} AdmittedValueIsKept(p: Screen, v: Value, depth: nat)
    requires !Sensitive(p, v, depth)
    ensures KeepsAll(v, SafeValue(p, v, depth))
    decreases v
  {
    match v
    case Dict(fields) => FieldsKept(p, fields, depth + 1);
    case List(items) => ItemsKept(p, items, depth + 1);
    case Tuple(items) => ItemsKept(p, items, depth + 1);
    case _ =>
  }

  // ----- which values are admitted -----

  function FieldNodes(fields: seq<Field>, depth: nat): seq<(nat, Value)>
    decreases fields
  {
    if fields == [] then []
    else
      var f := fields[0];
      assert f.value < f;
      Nodes(f.value, depth) + FieldNodes(fields[1..], depth)
  }

  function ItemNodes(items: seq<Value>, depth: nat): seq<(nat, Value)>
    decreases items
  {
    if items == [] then [] else Nodes(items[0], depth) + ItemNodes(items[1..], depth)
  }

  /** Every part of a value with its depth. */
  function Nodes(v: Value, depth: nat): seq<(nat, Value)>
    decreases v
  {
    match v
    case Dict(fields) => [(depth, v)] + FieldNodes(fields, depth + 1)
    case List(items) => [(depth, v)] + ItemNodes(items, depth + 1)
    case Tuple(items) => [(depth, v)] + ItemNodes(items, depth + 1)
    case _ => [(depth, v)]
  }

  /** What one part must be, each check of the source once. Texts are screened in stored values only. */
  predicate MayBeKept(p: Screen, screened: bool, depth: nat, v: Value) {
    && depth <= 8
    && (v.Float? ==> v.finite)
    && (screened && v.Str? ==> !p.badText(v.text))
    && !v.Bytes? && !v.Other?
    && (v.Dict? ==> |v.fields| <= 200 && forall i :: 0 <= i < |v.fields| ==>
          v.fields[i].key.StrKey? && !p.badKey(v.fields[i].key.name))
    && (v.List? || v.Tuple? ==> |v.items| <= 200)
  }

  predicate AllMayBeKept(p: Screen, screened: bool, nodes: seq<(nat, Value)>) {
    forall i :: 0 <= i < |nodes| ==> MayBeKept(p, screened, nodes[i].0, nodes[i].1)
  }

  lemma AllJoin(p: Screen, screened: bool, a: seq<(nat, Value)>, b: seq<(nat, Value)>)
    ensures AllMayBeKept(p, screened, a + b) <==> AllMayBeKept(p, screened, a) && AllMayBeKept(p, screened, b)
  {
    hide MayBeKept;
    if AllMayBeKept(p, screened, a + b) {
      assert forall i :: 0 <= i < |a| ==> (a + b)[i] == a[i];
      assert forall i :: 0 <= i < |b| ==> (a + b)[|a| + i] == b[i];
    }
  }

  lemma AllOfOne(p: Screen, screened: bool, depth: nat, v: Value)
    ensures AllMayBeKept(p, screened, [(depth, v)]) <==> MayBeKept(p, screened, depth, v)
    ensures AllMayBeKept(p, screened, [])
  {
    hide MayBeKept;
    if AllMayBeKept(p, screened, [(depth, v)]) {
      assert [(depth, v)][0] == (depth, v);
    }
  }

  predicate NoneSensitive(p: Screen, items: seq<Value>, depth: nat) {
    forall i :: 0 <= i < |items| ==> !Sensitive(p, items[i], depth)
  }

  predicate NoFieldSensitive(p: Screen, fields: seq<Field>, depth: nat) {
    forall i :: 0 <= i < |fields| ==> !Sensitive(p, fields[i].value, depth)
  }

  lemma {:induction false} FieldsAdmitted(p: Screen, fields: seq<Field>, depth: nat)
    ensures NoFieldSensitive(p, fields, depth) <==> AllMayBeKept(p, true, FieldNodes(fields, depth))
    decreases fields
  {
    hide Sensitive, AllMayBeKept, Nodes;
    AllOfOne(p, true, 0, Null);
    if fields != [] {
      assert fields[0].value < fields[0];
      AdmittedExactly(p, fields[0].value, depth);
      FieldsAdmitted(p, fields[1..], depth);
      AllJoin(p, true, Nodes(fields[0].value, depth), FieldNodes(fields[1..], depth));
      assert NoFieldSensitive(p, fields, depth) <==>
             !Sensitive(p, fields[0].value, depth) && NoFieldSensitive(p, fields[1..], depth) by {
        assert forall i :: 0 < i < |fields| ==> fields[i] == fields[1..][i - 1];
      }
    }
  }

  lemma {:induction false} ItemsAdmitted(p: Screen, items: seq<Value>, depth: nat)
    ensures NoneSensitive(p, items, depth) <==> AllMayBeKept(p, true, ItemNodes(items, depth))
    decreases items
  {
    hide Sensitive, AllMayBeKept, Nodes;
    AllOfOne(p, true, 0, Null);
    if items != [] {
      AdmittedExactly(p, items[0], depth);
      ItemsAdmitted(p, items[1..], depth);
      AllJoin(p, true, Nodes(items[0], depth), ItemNodes(items[1..], depth));
      assert NoneSensitive(p, items, depth) <==>
             !Sensitive(p, items[0], depth) && NoneSensitive(p, items[1..], depth) by {
        assert forall i :: 0 < i < |items| ==> items[i] == items[1..][i - 1];
      }
    }
  }

  /** A value is free of anything sensitive exactly when each of its parts may be kept at its depth. */
  lemma {:induction false} AdmittedExactly(p: Screen, v: Value, depth: nat)
    ensures !Sensitive(p, v, depth) <==> AllMayBeKept(p, true, Nodes(v, depth))
    decreases v
  {
    hide AllMayBeKept, FieldNodes, ItemNodes;
    AllOfOne(p, true, depth, v);
    match v
    case Dict(fields) =>
      FieldsAdmitted(p, fields, depth + 1);
      AllJoin(p, true, [(depth, v)], FieldNodes(fields, depth + 1));
    case List(items) =>
      ItemsAdmitted(p, items, depth + 1);
      AllJoin(p, true, [(depth, v)], ItemNodes(items, depth + 1));
    case Tuple(items) =>
      ItemsAdmitted(p, items, depth + 1);
      AllJoin(p, true, [(depth, v)], ItemNodes(items, depth + 1));
    case _ =>
  }

  /** No sensitive key, no long text, no raw bytes and no wide or foreign container at any depth. */
  predicate Bounded(p: Screen, w: Value)
    decreases w
  {
    match w
    case Null => true
    case Bool(_) => true
    case Int(_) => true
    case Float(_, finite) => finite
    case Str(text) => |text| <= MAX_TEXT
    case Dict(fields) =>
      |fields| <= MAX_ITEMS
      && forall i :: 0 <= i < |fields| ==> PlainKey(p, fields[i].key) && Bounded(p, fields[i].value)
    case List(items) => |items| <= MAX_ITEMS && forall i :: 0 <= i < |items| ==> Bounded(p, items[i])
    case _ => false
  }

  lemma {:induction false} SafeFieldsAreBounded(p: Screen, fields: seq<Field>, depth: nat)
    ensures
      var kept := SafeFields(p, fields, depth);
      && |kept| <= |fields|
      && forall i :: 0 <= i < |kept| ==> PlainKey(p, kept[i].key) && Bounded(p, kept[i].value)
    decreases fields
  {
    if fields != [] {
      SafeFieldsAreBounded(p, fields[1..], depth);
      if PlainKey(p, fields[0].key) {
        assert fields[0].value < fields[0];
        SafeValueIsBounded(p, fields[0].value, depth);
      }
    }
  }

  lemma {:induction false} SafeItemsAreBounded(p: Screen, items: seq<Value>, depth: nat)
    ensures
      var kept := SafeItems(p, items, depth);
      && |kept| == |items|
      && forall i :: 0 <= i < |kept| ==> Bounded(p, kept[i])
    decreases items
  {
    if items != [] {
      SafeItemsAreBounded(p, items[1..], depth);
      SafeValueIsBounded(p, items[0], depth);
    }
  }

  /** Whatever it is given, the stored copy is bounded and free of sensitive keys. */
  lemma {:induction false} SafeValueIsBounded(p: Screen, v: Value, depth: nat)
    ensures Bounded(p, SafeValue(p, v, depth))
    decreases v
  {
    if depth <= MAX_DEPTH {
      match v
      case Dict(fields) => SafeFieldsAreBounded(p, fields, depth + 1);
      case List(items) => SafeItemsAreBounded(p, items, depth + 1);
      case Tuple(items) => SafeItemsAreBounded(p, items, depth + 1);
      case _ =>
    }
  }

  // ----- canonical arguments -----

  /** Arguments up to the order of their keys and the tuple/list distinction. */
  datatype Canon =
    | CNull | CBool(b: bool) | CInt(n: int) | CFloat(bits: nat) | CStr(text: string)
    | CMap(entries: map<string, Canon>) | CList(items: seq<Canon>)

  function CanonFields(p: Screen, fields: seq<Field>, depth: nat): Option<map<string, Canon>>
    decreases fields
  {
    if fields == [] then Some(map[])
    else
      var last := fields[|fields| - 1];
      assert last.value < last;
      if !PlainKey(p, last.key) then None
      else
        var rest := CanonFields(p, fields[..|fields| - 1], depth);
        var child := Canonical(p, last.value, depth);
        if rest.None? || child.None? then None else Some(rest.value[last.key.name := child.value])
  }

  function CanonItems(p: Screen, items: seq<Value>, depth: nat): Option<seq<Canon>>
    decreases items, 0
  {
    if items == [] then Some([])
    else
      var child := Canonical(p, items[0], depth);
      var rest := CanonItems(p, items[1..], depth);
      if child.None? || rest.None? then None else Some([child.value] + rest.value)
  }

  /** None where the arguments cannot be part of a cache key. */
  function Canonical(p: Screen, v: Value, depth: nat): Option<Canon>
    decreases v
  {
    if depth > MAX_DEPTH then None
    else
      match v
      case Null => Some(CNull)
      case Bool(b) => Some(CBool(b))
      case Int(n) => Some(CInt(n))
      case Float(bits, finite) => if finite then Some(CFloat(bits)) else None
      case Str(text) => Some(CStr(text))
      case Dict(fields) =>
        if |fields| > MAX_ITEMS then None
        else
          var entries := CanonFields(p, fields, depth + 1);
          if entries.Some? then Some(CMap(entries.value)) else None
      case List(items) => CanonList(p, items, depth)
      case Tuple(items) => CanonList(p, items, depth)
      case Bytes(_) => None
      case Other(_) => None
  }

  function CanonList(p: Screen, items: seq<Value>, depth: nat): Option<Canon>
    decreases items, 1
  {
    if |items| > MAX_ITEMS then None
    else
      var list := CanonItems(p, items, depth + 1);
      if list.Some? then Some(CList(list.value)) else None
  }

  predicate DistinctKeys(fields: seq<Field>) {
    forall i, j :: 0 <= i < j < |fields| ==> fields[i].key != fields[j].key
  }

  predicate HasKey(fields: seq<Field>, k: Key) { exists i :: 0 <= i < |fields| && fields[i].key == k }

  /** `m` holds exactly the canonical fields, in no order. */
  ghost predicate Holds(p: Screen, fields: seq<Field>, depth: nat, m: map<string, Canon>) {
    && (forall i :: 0 <= i < |fields| ==>
          && fields[i].key.StrKey? && fields[i].key.name in m
          && Canonical(p, fields[i].value, depth) == Some(m[fields[i].key.name]))
    && (forall k :: k in m ==> HasKey(fields, StrKey(k)))
  }

  lemma {:induction false} CanonFieldsHold(p: Screen, fields: seq<Field>, depth: nat)
    requires DistinctKeys(fields)
    ensures CanonFields(p, fields, depth).Some? ==> Holds(p, fields, depth, CanonFields(p, fields, depth).value)
    decreases fields
  {
    hide Canonical;
    if fields != [] && CanonFields(p, fields, depth).Some? {
      var front, last := fields[..|fields| - 1], fields[|fields| - 1];
      CanonFieldsHold(p, front, depth);
      var m := CanonFields(p, fields, depth).value;
      assert m == CanonFields(p, front, depth).value[last.key.name := m[last.key.name]];
      hide CanonFields;
      forall i | 0 <= i < |front|
        ensures fields[i] == front[i] && fields[i].key != last.key
      {
      }
      forall k | k in m ensures HasKey(fields, StrKey(k)) {
        if k == last.key.name {
          assert fields[|fields| - 1].key == StrKey(k);
        } else {
          var i :| 0 <= i < |front| && front[i].key == StrKey(k);
          assert fields[i].key == StrKey(k);
        }
      }
    }
  }

  /** Python dictionaries have distinct keys, at every depth. */
  predicate WellFormed(v: Value)
    decreases v
  {
    match v
    case Dict(fields) => DistinctKeys(fields) && forall i :: 0 <= i < |fields| ==> WellFormed(fields[i].value)
    case List(items) => forall i :: 0 <= i < |items| ==> WellFormed(items[i])
    case Tuple(items) => forall i :: 0 <= i < |items| ==> WellFormed(items[i])
    case _ => true
  }

  predicate IsList(v: Value) { v.List? || v.Tuple? }

  predicate SameKeys(a: seq<Field>, b: seq<Field>) {
    && (forall i :: 0 <= i < |a| ==> HasKey(b, a[i].key))
    && (forall j :: 0 <= j < |b| ==> HasKey(a, b[j].key))
  }

  predicate SameValues(a: seq<Field>, b: seq<Field>)
    decreases a, 0
  {
    forall i, j :: 0 <= i < |a| && 0 <= j < |b| && a[i].key == b[j].key ==>
      assert a[i].value < a[i];
      SameArguments(a[i].value, b[j].value)
  }

  /** The same arguments, whatever the order of dictionary keys, and tuples taken for lists. */
  predicate SameArguments(v: Value, w: Value)
    decreases v
  {
    match v
    case Dict(fields) =>
      w.Dict? && SameKeys(fields, w.fields) && SameValues(fields, w.fields)
    case List(items) =>
      IsList(w) && |items| == |w.items| && forall i :: 0 <= i < |items| ==> SameArguments(items[i], w.items[i])
    case Tuple(items) =>
      IsList(w) && |items| == |w.items| && forall i :: 0 <= i < |items| ==> SameArguments(items[i], w.items[i])
    case _ => v == w
  }

  lemma {:induction false} CanonItemsByIndex(p: Screen, items: seq<Value>, depth: nat)
    ensures
      var list := CanonItems(p, items, depth);
      list.Some? ==>
        && |list.value| == |items|
        && forall i :: 0 <= i < |items| ==> Canonical(p, items[i], depth) == Some(list.value[i])
    decreases items
  {
    hide Canonical;
    if items != [] {
      CanonItemsByIndex(p, items[1..], depth);
    }
  }

  lemma {:induction false} ListsShareAKeyExactly(p: Screen, a: seq<Value>, b: seq<Value>, depth: nat)
    requires CanonItems(p, a, depth).Some? && CanonItems(p, b, depth).Some?
    requires forall i :: 0 <= i < |a| ==> WellFormed(a[i])
    requires forall i :: 0 <= i < |b| ==> WellFormed(b[i])
    ensures CanonItems(p, a, depth) == CanonItems(p, b, depth)
            <==> |a| == |b| && forall i :: 0 <= i < |a| ==> SameArguments(a[i], b[i])
    decreases a, 0
  {
    CanonItemsByIndex(p, a, depth);
    CanonItemsByIndex(p, b, depth);
    var x, y := CanonItems(p, a, depth).value, CanonItems(p, b, depth).value;
    hide Canonical, CanonItems, SameArguments, WellFormed;
    if |a| == |b| {
      forall i | 0 <= i < |a| ensures SameArguments(a[i], b[i]) <==> x[i] == y[i] {
        ArgumentsShareAKeyExactly(p, a[i], b[i], depth);
      }
      assert x == y <==> forall i :: 0 <= i < |a| ==> x[i] == y[i];
    }
  }

  lemma KeyNames(p: Screen, fields: seq<Field>, depth: nat, m: map<string, Canon>, k: string)
    requires Holds(p, fields, depth, m)
    ensures k in m <==> HasKey(fields, StrKey(k))
  {
    hide Canonical;
  }

  lemma SameKeysExactly(
    p: Screen, a: seq<Field>, b: seq<Field>, depth: nat, x: map<string, Canon>, y: map<string, Canon>)
    requires Holds(p, a, depth, x) && Holds(p, b, depth, y)
    ensures x.Keys == y.Keys <==> SameKeys(a, b)
  {
    hide Canonical;
    assert forall i :: 0 <= i < |a| ==> a[i].key.StrKey? && a[i].key.name in x;
    assert forall j :: 0 <= j < |b| ==> b[j].key.StrKey? && b[j].key.name in y;
    forall k: string ensures (k in x <==> HasKey(a, StrKey(k))) && (k in y <==> HasKey(b, StrKey(k))) {
      KeyNames(p, a, depth, x, k);
      KeyNames(p, b, depth, y, k);
    }
    hide Holds;
    if x.Keys == y.Keys {
      hide HasKey;
      assert forall k: string :: k in x <==> k in y;
      assert forall i :: 0 <= i < |a| ==> HasKey(b, StrKey(a[i].key.name));
      assert forall j :: 0 <= j < |b| ==> HasKey(a, StrKey(b[j].key.name));
    }
  }

  lemma {:induction false} SameValuesExactly(
    p: Screen, a: seq<Field>, b: seq<Field>, depth: nat, x: map<string, Canon>, y: map<string, Canon>)
    requires Holds(p, a, depth, x) && Holds(p, b, depth, y)
    requires forall i :: 0 <= i < |a| ==> WellFormed(a[i].value)
    requires forall j :: 0 <= j < |b| ==> WellFormed(b[j].value)
    ensures SameValues(a, b) <==> forall k :: k in x && k in y ==> x[k] == y[k]
    decreases a, 0
  {
    hide Canonical, WellFormed, SameArguments;
    forall i, j | 0 <= i < |a| && 0 <= j < |b| && a[i].key == b[j].key
      ensures SameArguments(a[i].value, b[j].value) <==> x[a[i].key.name] == y[b[j].key.name]
    {
      assert a[i].value < a[i];
      ArgumentsShareAKeyExactly(p, a[i].value, b[j].value, depth);
    }
    if SameValues(a, b) {
      forall k | k in x && k in y ensures x[k] == y[k] {
        var i :| 0 <= i < |a| && a[i].key == StrKey(k);
        var j :| 0 <= j < |b| && b[j].key == StrKey(k);
      }
    }
  }

  lemma {:induction false} DictsShareAKeyExactly(p: Screen, a: seq<Field>, b: seq<Field>, depth: nat)
    requires CanonFields(p, a, depth).Some? && CanonFields(p, b, depth).Some?
    requires WellFormed(Dict(a)) && WellFormed(Dict(b))
    ensures CanonFields(p, a, depth) == CanonFields(p, b, depth) <==> SameArguments(Dict(a), Dict(b))
    decreases a, 1
  {
    hide Canonical, CanonFields, HasKey, Holds, SameKeys, SameValues, PlainKey;
    CanonFieldsHold(p, a, depth);
    CanonFieldsHold(p, b, depth);
    var x, y := CanonFields(p, a, depth).value, CanonFields(p, b, depth).value;
    assert forall i :: 0 <= i < |a| ==> WellFormed(a[i].value);
    assert forall j :: 0 <= j < |b| ==> WellFormed(b[j].value);
    hide WellFormed;
    SameKeysExactly(p, a, b, depth, x, y);
    SameValuesExactly(p, a, b, depth, x, y);
    assert SameArguments(Dict(a), Dict(b)) <==> SameKeys(a, b) && SameValues(a, b);
    hide SameArguments;
    assert x == y <==> x.Keys == y.Keys && forall k :: k in x && k in y ==> x[k] == y[k];
  }

  /** Two calls share a cache key exactly when their arguments are the same. */
  lemma {:induction false} ArgumentsShareAKeyExactly(p: Screen, v: Value, w: Value, depth: nat)
    requires WellFormed(v) && WellFormed(w)
    requires Canonical(p, v, depth).Some? && Canonical(p, w, depth).Some?
    ensures Canonical(p, v, depth) == Canonical(p, w, depth) <==> SameArguments(v, w)
    decreases v
  {
    if v.Dict? && w.Dict? {
      DictsShareAKeyExactly(p, v.fields, w.fields, depth + 1);
    } else if IsList(v) && IsList(w) {
      ListsShareAKeyExactly(p, v.items, w.items, depth + 1);
    }
  }

  lemma {:induction false} CanonFieldsExactly(p: Screen, fields: seq<Field>, depth: nat)
    ensures CanonFields(p, fields, depth).Some? <==>
            && (forall i :: 0 <= i < |fields| ==> PlainKey(p, fields[i].key))
            && (forall i :: 0 <= i < |fields| ==> Canonical(p, fields[i].value, depth).Some?)
    decreases fields
  {
    hide Canonical, PlainKey;
    if fields != [] {
      CanonFieldsExactly(p, fields[..|fields| - 1], depth);
    }
  }

  predicate AllCanonical(p: Screen, items: seq<Value>, depth: nat) {
    forall i :: 0 <= i < |items| ==> Canonical(p, items[i], depth).Some?
  }

  predicate FieldsCanonical(p: Screen, fields: seq<Field>, depth: nat) {
    forall i :: 0 <= i < |fields| ==> Canonical(p, fields[i].value, depth).Some?
  }

  lemma {:induction false} CanonItemsExactly(p: Screen, items: seq<Value>, depth: nat)
    ensures CanonItems(p, items, depth).Some? <==> AllCanonical(p, items, depth)
    decreases items
  {
    hide Canonical;
    if items != [] {
      CanonItemsExactly(p, items[1..], depth);
      assert AllCanonical(p, items, depth)
             <==> Canonical(p, items[0], depth).Some? && AllCanonical(p, items[1..], depth) by {
        assert forall i :: 0 < i < |items| ==> items[i] == items[1..][i - 1];
      }
    }
  }

  lemma {:induction false} FieldsCacheable(p: Screen, fields: seq<Field>, depth: nat)
    ensures FieldsCanonical(p, fields, depth) <==> AllMayBeKept(p, false, FieldNodes(fields, depth))
    decreases fields
  {
    hide Canonical, AllMayBeKept, Nodes;
    AllOfOne(p, false, 0, Null);
    if fields != [] {
      assert fields[0].value < fields[0];
      CacheableExactly(p, fields[0].value, depth);
      FieldsCacheable(p, fields[1..], depth);
      AllJoin(p, false, Nodes(fields[0].value, depth), FieldNodes(fields[1..], depth));
      assert FieldsCanonical(p, fields, depth) <==>
             Canonical(p, fields[0].value, depth).Some? && FieldsCanonical(p, fields[1..], depth) by {
        assert forall i :: 0 < i < |fields| ==> fields[i] == fields[1..][i - 1];
      }
    }
  }

  lemma {:induction false} ItemsCacheable(p: Screen, items: seq<Value>, depth: nat)
    ensures AllCanonical(p, items, depth) <==> AllMayBeKept(p, false, ItemNodes(items, depth))
    decreases items
  {
    hide Canonical, AllMayBeKept, Nodes;
    AllOfOne(p, false, 0, Null);
    if items != [] {
      CacheableExactly(p, items[0], depth);
      ItemsCacheable(p, items[1..], depth);
      AllJoin(p, false, Nodes(items[0], depth), ItemNodes(items[1..], depth));
      assert AllCanonical(p, items, depth)
             <==> Canonical(p, items[0], depth).Some? && AllCanonical(p, items[1..], depth) by {
        assert forall i :: 0 < i < |items| ==> items[i] == items[1..][i - 1];
      }
    }
  }

  /** Arguments can be part of a cache key exactly when each of their parts may be kept, whatever their
      texts say. */
  lemma {:induction false} CacheableExactly(p: Screen, v: Value, depth: nat)
    ensures Canonical(p, v, depth).Some? <==> AllMayBeKept(p, false, Nodes(v, depth))
    decreases v
  {
    hide AllMayBeKept, FieldNodes, ItemNodes, CanonFields, CanonItems;
    AllOfOne(p, false, depth, v);
    match v
    case Dict(fields) =>
      CanonFieldsExactly(p, fields, depth + 1);
      FieldsCacheable(p, fields, depth + 1);
      AllJoin(p, false, [(depth, v)], FieldNodes(fields, depth + 1));
    case List(items) =>
      CanonItemsExactly(p, items, depth + 1);
      ItemsCacheable(p, items, depth + 1);
      AllJoin(p, false, [(depth, v)], ItemNodes(items, depth + 1));
    case Tuple(items) =>
      CanonItemsExactly(p, items, depth + 1);
      ItemsCacheable(p, items, depth + 1);
      AllJoin(p, false, [(depth, v)], ItemNodes(items, depth + 1));
    case _ =>
  }
}
