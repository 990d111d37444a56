/** Results, and the sequence vocabulary the other modules share. */
module Common {

  datatype Option<+T> = None | Some(value: T)

  datatype Result<+T, +E> = Ok(value: T) | Err(error: E)

  ghost predicate NoDup<T>(s: seq<T>) {
    forall i, j :: 0 <= i < j < |s| ==> s[i] != s[j]
  }

  function Elements<T(==,!new)>(s: seq<T>): (r: set<T>)
    ensures forall x :: x in r <==> x in s
  {
    set x | x in s
  }

  function Flatten<T>(ss: seq<seq<T>>): seq<T> {
    if ss == [] then [] else ss[0] + Flatten(ss[1..])
  }

  lemma {:induction false} FlattenSnoc<T>(ss: seq<seq<T>>, last: seq<T>)
    ensures Flatten(ss + [last]) == Flatten(ss) + last
  {
    if ss == [] {
      assert Flatten([last]) == last + Flatten([]);
    } else {
      FlattenSnoc(ss[1..], last);
      assert (ss + [last])[1..] == ss[1..] + [last];
    }
  }

  /** The first occurrence of every element, in order. */
  function Dedup<T(==,!new)>(s: seq<T>): (r: seq<T>)
    ensures NoDup(r)
    ensures forall x :: x in r <==> x in s
    ensures |r| <= |s|
  {
    if s == [] then []
    else
      var front, x := s[..|s| - 1], s[|s| - 1];
      assert s == front + [x];
      if x in front then Dedup(front) else Dedup(front) + [x]
  }

  lemma DedupSnoc<T(!new)>(s: seq<T>, x: T)
    ensures Dedup(s + [x]) == if x in s then Dedup(s) else Dedup(s) + [x]
  {
    assert (s + [x])[..|s|] == s;
  }

  /** Removing duplicates of the tail first changes nothing. */
  lemma {:induction false} DedupAbsorbs<T(!new)>(base: seq<T>, s: seq<T>)
    ensures Dedup(base + Dedup(s)) == Dedup(base + s)
  {
    if s != [] {
      var front, x := s[..|s| - 1], s[|s| - 1];
      assert s == front + [x];
      DedupAbsorbs(base, front);
      DedupSnoc(front, x);
      assert base + s == (base + front) + [x];
      DedupSnoc(base + front, x);
      if x !in front {
        assert base + Dedup(s) == (base + Dedup(front)) + [x];
        DedupSnoc(base + Dedup(front), x);
      }
    }
  }

  lemma {:induction false} DedupOfDistinct<T(!new)>(s: seq<T>)
    requires NoDup(s)
    ensures Dedup(s) == s
  {
    if s != [] {
      var front, x := s[..|s| - 1], s[|s| - 1];
      assert s == front + [x];
      DedupOfDistinct(front);
      DedupSnoc(front, x);
    }
  }

  lemma NoDupSnoc<T>(s: seq<T>, x: T)
    requires NoDup(s) && x !in s
    ensures NoDup(s + [x])
  {
  }

  lemma OneIsDistinct<T>(x: T)
    ensures NoDup([x])
  {
  }

  lemma NoneAreDistinct<T>()
    ensures NoDup<T>([])
  {
  }

  lemma NoDupPrefix<T>(s: seq<T>, t: seq<T>)
    requires NoDup(s + t)
    ensures NoDup(s)
  {
    assert forall i | 0 <= i < |s| :: s[i] == (s + t)[i];
  }

  lemma NoDupJoin<T>(a: seq<T>, b: seq<T>)
    requires NoDup(a) && NoDup(b) && forall x | x in b :: x !in a
    ensures NoDup(a + b)
  {
    forall i, j | 0 <= i < j < |a + b|
      ensures (a + b)[i] != (a + b)[j]
    {
      if i < |a| <= j {
        assert b[j - |a|] in b;
      }
    }
  }
}
