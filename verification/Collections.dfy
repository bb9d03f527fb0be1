/** Sequence vocabulary shared by the models: distinctness, first-occurrence
    deduplication and element-wise rewriting. */
module Collections {

  datatype Option<+T> = None | Some(value: T)

  predicate Distinct<T(==)>(s: seq<T>) {
    forall i, j :: 0 <= i < j < |s| ==> s[i] != s[j]
  }

  function Elements<T(==)>(s: seq<T>): (r: set<T>) {
    set x | x in s
  }

  lemma PopElements<T>(s: seq<T>)
    requires s != []
    ensures Elements(s) == Elements(s[..|s| - 1]) + {s[|s| - 1]}
  {
    assert s == s[..|s| - 1] + [s[|s| - 1]];
  }

  /** A loop that moves elements from the rest to the part done. */
  lemma MovedOver<T>(done: seq<T>, s: seq<T>, i: nat)
    requires i < |s| && done + s[i..] == s
    ensures (done + [s[i]]) + s[i + 1..] == s
  {
    assert s[i..] == [s[i]] + s[i + 1..];
  }

  lemma MovedAll<T>(done: seq<T>, s: seq<T>)
    requires done + s[|s|..] == s
    ensures done == s
  {
  }

  lemma PrefixGrows<T>(s: seq<T>, i: nat)
    requires i < |s|
    ensures s[..i + 1] == s[..i] + [s[i]]
  {
  }

  lemma WholePrefix<T>(s: seq<T>)
    ensures s[..|s|] == s
  {
  }

  lemma DistinctGrows<T>(s: seq<T>, x: T)
    requires Distinct(s) && x !in s
    ensures Distinct(s + [x])
  {
    var t := s + [x];
    assert forall i :: 0 <= i < |s| ==> t[i] == s[i];
  }

  /** The elements of a set, in some order. */
  method Enumerate<T(==)>(s: set<T>) returns (q: seq<T>)
    ensures forall x :: x in q <==> x in s
  {
    q := [];
    var left := s;
    while left != {}
      invariant left <= s && forall x :: x in q <==> x in s - left
    {
      var x :| x in left;
      left := left - {x};
      q := q + [x];
    }
  }

  /** Every element rewritten, in order. */
  function Mapped<T, U>(s: seq<T>, f: T -> U): (r: seq<U>)
    ensures |r| == |s|
    ensures forall i :: 0 <= i < |s| ==> r[i] == f(s[i])
  {
    seq(|s|, i requires 0 <= i < |s| => f(s[i]))
  }

  /** The sequence without the elements that already occurred earlier in it. */
  function Dedup<T(==)>(s: seq<T>): (r: seq<T>) {
    if s == [] then []
    else
      var n := |s| - 1;
      if s[n] in s[..n] then Dedup(s[..n]) else Dedup(s[..n]) + [s[n]]
  }

  lemma {:induction false} DedupKeepsElements<T>(s: seq<T>)
    ensures Distinct(Dedup(s))
    ensures forall x :: x in Dedup(s) <==> x in s
  {
    if s != [] {
      var n := |s| - 1;
      DedupKeepsElements(s[..n]);
      assert s == s[..n] + [s[n]];
    }
  }

  lemma {:induction false} DedupOfDistinct<T>(s: seq<T>)
    requires Distinct(s)
    ensures Dedup(s) == s
  {
    if s != [] {
      var n := |s| - 1;
      DedupOfDistinct(s[..n]);
      assert s == s[..n] + [s[n]];
    }
  }

  /** A rewriting that is injective on the elements merges none of them. */
  lemma MappedStaysDistinct<T, U>(s: seq<T>, f: T -> U)
    requires Distinct(s)
    requires forall i, j :: 0 <= i < |s| && 0 <= j < |s| && f(s[i]) == f(s[j]) ==> s[i] == s[j]
    ensures Distinct(Mapped(s, f))
    ensures Dedup(Mapped(s, f)) == Mapped(s, f)
  {
    var r := Mapped(s, f);
    forall i, j | 0 <= i < j < |r| ensures r[i] != r[j] {
      assert s[i] != s[j];
    }
    DedupOfDistinct(r);
  }
}
