/** Sequences without repetition, and rearrangements of a sequence. */
module Sequences {

  ghost predicate Distinct<T>(s: seq<T>) {
    forall i, j | 0 <= i < j < |s| :: s[i] != s[j]
  }

  ghost function Elems<T>(s: seq<T>): set<T> {
    set x | x in s
  }

  /** A sequence has as many elements as places exactly if none is repeated. */
  lemma {:induction false} DistinctCount<T>(s: seq<T>)
    ensures |Elems(s)| <= |s| && (|Elems(s)| == |s| <==> Distinct(s))
  {
    if s == [] {
    } else {
      var front, last := s[..|s| - 1], s[|s| - 1];
      DistinctCount(front);
      assert Elems(s) == Elems(front) + {last};
      if Distinct(s) {
        assert last !in front;
      } else if last in front {
        assert Elems(s) == Elems(front);
      } else {
        assert !Distinct(front);
      }
    }
  }

  function Flatten<T>(xss: seq<seq<T>>): seq<T> {
    if xss == [] then [] else Flatten(xss[..|xss| - 1]) + xss[|xss| - 1]
  }

  /** How many elements the sequences have together. */
  function Lengths<T>(xss: seq<seq<T>>): nat {
    if xss == [] then 0 else Lengths(xss[..|xss| - 1]) + |xss[|xss| - 1]|
  }

  /** Element k of sequence i comes after all sequences before i and the k
      elements before it. */
  lemma {:induction false} FlattenAt<T>(xss: seq<seq<T>>, i: nat, k: nat)
    requires i < |xss| && k < |xss[i]|
    ensures |Flatten(xss)| == Lengths(xss) && Lengths(xss[..i]) + k < Lengths(xss)
    ensures Flatten(xss)[Lengths(xss[..i]) + k] == xss[i][k]
  {
    var n := |xss| - 1;
    FlattenLength(xss[..n]);
    if i == n {
    } else {
      FlattenAt(xss[..n], i, k);
      assert xss[..n][..i] == xss[..i];
    }
  }

  lemma {:induction false} FlattenLength<T>(xss: seq<seq<T>>)
    ensures |Flatten(xss)| == Lengths(xss)
  {
    if xss == [] {
    } else {
      FlattenLength(xss[..|xss| - 1]);
    }
  }

  lemma {:induction false} FlattenMembers<T>(xss: seq<seq<T>>, x: T)
    ensures x in Flatten(xss) <==> exists i :: 0 <= i < |xss| && x in xss[i]
  {
    if xss == [] {
    } else {
      var n := |xss| - 1;
      FlattenMembers(xss[..n], x);
      if x in Flatten(xss[..n]) {
        var i :| 0 <= i < n && x in xss[..n][i];
        assert x in xss[i];
      }
      if i :| 0 <= i < n && x in xss[i] {
        assert x in xss[..n][i];
      }
    }
  }

  ghost predicate IsSlice<T>(s: seq<T>, cuts: seq<nat>, part: seq<T>, i: nat) {
    i + 1 < |cuts| && cuts[i] <= cuts[i + 1] <= |s| && part == s[cuts[i]..cuts[i + 1]]
  }

  /** Consecutive slices put together are the front of the sequence. */
  lemma {:induction false} FlattenSlices<T>(s: seq<T>, cuts: seq<nat>, parts: seq<seq<T>>, n: nat)
    requires |cuts| == |parts| + 1 && cuts[0] == 0 && n <= |parts|
    requires forall i: nat | i < |parts| :: IsSlice(s, cuts, parts[i], i)
    ensures cuts[n] <= |s| && Flatten(parts[..n]) == s[..cuts[n]]
  {
    if n == 0 {
    } else {
      FlattenSlices(s, cuts, parts, n - 1);
      assert IsSlice(s, cuts, parts[n - 1], n - 1);
      FlattenOneMore(parts, n - 1);
      PrefixGrows(s, cuts[n - 1], cuts[n]);
    }
  }

  /** The slices between consecutive cuts, from the start to the end of s. */
  ghost predicate AreSlices<T>(s: seq<T>, cuts: seq<nat>, parts: seq<seq<T>>) {
    && |cuts| == |parts| + 1 && cuts[0] == 0 && cuts[|parts|] == |s|
    && forall i: nat | i < |parts| :: IsSlice(s, cuts, parts[i], i)
  }

  lemma SlicesJoin<T>(s: seq<T>, cuts: seq<nat>, parts: seq<seq<T>>)
    requires AreSlices(s, cuts, parts)
    ensures Flatten(parts) == s
  {
    FlattenSlices(s, cuts, parts, |parts|);
    assert parts[..|parts|] == parts && s[..|s|] == s;
  }

  lemma FlattenOneMore<T>(parts: seq<seq<T>>, n: nat)
    requires n < |parts|
    ensures Flatten(parts[..n + 1]) == Flatten(parts[..n]) + parts[n]
  {
    assert parts[..n + 1][..n] == parts[..n];
  }

  lemma PrefixGrows<T>(s: seq<T>, i: nat, j: nat)
    requires i <= j <= |s|
    ensures s[..i] + s[i..j] == s[..j]
  {
  }

  /** Every number below |p| stands in p, once. */
  ghost predicate Permutes(p: seq<nat>) {
    Distinct(p) && (forall i | 0 <= i < |p| :: p[i] < |p|) && forall v | 0 <= v < |p| :: v in p
  }

  /** The elements of s at the places p. */
  function Picked<T>(s: seq<T>, p: seq<nat>): (r: seq<T>)
    requires forall i | 0 <= i < |p| :: p[i] < |s|
    ensures |r| == |p| && forall i | 0 <= i < |p| :: r[i] == s[p[i]]
  {
    seq(|p|, i requires 0 <= i < |p| => s[p[i]])
  }

  function Without(p: seq<nat>, j: nat): (r: seq<nat>)
    requires j < |p|
    ensures |r| == |p| - 1 && forall i | 0 <= i < |r| :: r[i] == if i < j then p[i] else p[i + 1]
  {
    p[..j] + p[j + 1..]
  }

  lemma WithoutLast(p: seq<nat>, j: nat)
    requires Permutes(p) && j < |p| && p[j] == |p| - 1
    ensures Permutes(Without(p, j))
  {
    var r := Without(p, j);
    forall v | 0 <= v < |r|
      ensures v in r
    {
      assert v in p;
      var i :| 0 <= i < |p| && p[i] == v;
      assert r[if i < j then i else i - 1] == v;
    }
    forall i | 0 <= i < |r|
      ensures r[i] < |r|
    {
      assert p[if i < j then i else i + 1] != p[j];
    }
  }

  lemma PickedWithout<T>(s: seq<T>, p: seq<nat>, j: nat)
    requires j < |p| && forall i | 0 <= i < |p| :: p[i] < |s|
    ensures multiset(Picked(s, p)) == multiset(Picked(s, Without(p, j))) + multiset{s[p[j]]}
  {
    PickedJoin(s, p[..j], p[j + 1..]);
    PickedJoin(s, [p[j]], p[j + 1..]);
    PickedJoin(s, p[..j], [p[j]] + p[j + 1..]);
    assert p == p[..j] + ([p[j]] + p[j + 1..]);
    assert Picked(s, [p[j]]) == [s[p[j]]];
  }

  lemma PickedJoin<T>(s: seq<T>, p: seq<nat>, q: seq<nat>)
    requires (forall i | 0 <= i < |p| :: p[i] < |s|) && forall i | 0 <= i < |q| :: q[i] < |s|
    ensures (forall i | 0 <= i < |p + q| :: (p + q)[i] < |s|) && Picked(s, p + q) == Picked(s, p) + Picked(s, q)
  {
  }

  /** Picking every place once rearranges the elements. */
  lemma {:induction false} PickedIsRearranged<T>(s: seq<T>, p: seq<nat>)
    requires |p| == |s| && Permutes(p)
    ensures multiset(Picked(s, p)) == multiset(s)
  {
    if s == [] {
      assert Picked(s, p) == [];
    } else {
      var n := |s| - 1;
      assert n in p;
      var j :| 0 <= j < |p| && p[j] == n;
      var r := Without(p, j);
      WithoutLast(p, j);
      PickedIsRearranged(s[..n], r);
      PickedWithout(s, p, j);
      assert Picked(s[..n], r) == Picked(s, r);
      assert s == s[..n] + [s[n]];
    }
  }
}
