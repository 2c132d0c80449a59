/** Sequence helpers shared by every store and view: the JavaScript array
    methods `filter`, `find` and `findIndex`, and the notions of subsequence
    and duplicate-freedom used to state what they return. */
module Seqs {

  datatype Option<+T> = None | Some(value: T)

  /** A possibly missing value, or `d` when it is missing (`o ?? d`, and a
      spread that keeps the old field when the update lacks it). */
  function Or<T>(o: Option<T>, d: T): T {
    if o.Some? then o.value else d
  }

  /** `Array.prototype.filter`: the elements satisfying `p`, in order, each
      as often as it occurs in `s`. */
  function Filter<T>(s: seq<T>, p: T -> bool): (r: seq<T>)
    ensures |r| <= |s|
    ensures forall i :: 0 <= i < |r| ==> p(r[i])
    ensures forall x :: x in r ==> x in s
    ensures forall x :: x in s && p(x) ==> x in r
    ensures IsSubseq(r, s)
    ensures forall x :: x in s ==> multiset(r)[x] == if p(x) then multiset(s)[x] else 0
    decreases |s|
  {
    if s == [] then []
    else
      assert s == [s[0]] + s[1..];
      if p(s[0]) then [s[0]] + Filter(s[1..], p)
      else Filter(s[1..], p)
  }

  /** `Array.prototype.map`: `f` applied to every element, in order. */
  function Map<A, B>(f: A -> B, s: seq<A>): (r: seq<B>)
    ensures |r| == |s|
    decreases |s|
  {
    if s == [] then [] else [f(s[0])] + Map(f, s[1..])
  }

  lemma MapCons<A, B>(f: A -> B, x: A, s: seq<A>)
    ensures Map(f, [x] + s) == [f(x)] + Map(f, s)
  {
    assert ([x] + s)[1..] == s;
  }

  lemma {:induction false} MapSnoc<A, B>(f: A -> B, s: seq<A>, x: A)
    ensures Map(f, s + [x]) == Map(f, s) + [f(x)]
    decreases |s|
  {
    if s == [] {
      MapCons(f, x, []);
      assert [x] + [] == [x];
    } else {
      assert s + [x] == [s[0]] + (s[1..] + [x]);
      MapCons(f, s[0], s[1..] + [x]);
      MapSnoc(f, s[1..], x);
      assert s == [s[0]] + s[1..];
      MapCons(f, s[0], s[1..]);
    }
  }

  /** Element `i` of the mapped sequence is `f` of element `i`. */
  lemma {:induction false} MapIndex<A, B>(f: A -> B, s: seq<A>)
    ensures forall i :: 0 <= i < |s| ==> Map(f, s)[i] == f(s[i])
    decreases |s|
  {
    if s != [] {
      MapIndex(f, s[1..]);
      forall i | 0 < i < |s| ensures Map(f, s)[i] == f(s[i]) {
        assert s[i] == s[1..][i - 1];
      }
    }
  }

  /** `r` can be obtained from `s` by deleting elements (order is kept). */
  predicate IsSubseq<T(==)>(r: seq<T>, s: seq<T>)
    decreases |s|
  {
    r == [] || (s != [] && ((r[0] == s[0] && IsSubseq(r[1..], s[1..])) || IsSubseq(r, s[1..])))
  }

  lemma {:induction false} SubseqRefl<T>(s: seq<T>)
    ensures IsSubseq(s, s)
    decreases |s|
  {
    if s != [] {
      SubseqRefl(s[1..]);
    }
  }

  /** A subsequence of a subsequence is a subsequence. */
  lemma {:induction false} SubseqTransitive<T>(a: seq<T>, b: seq<T>, c: seq<T>)
    requires IsSubseq(a, b) && IsSubseq(b, c)
    ensures IsSubseq(a, c)
    decreases |c|
  {
    if a != [] {
      if b[0] == c[0] && IsSubseq(b[1..], c[1..]) {
        if a[0] == b[0] && IsSubseq(a[1..], b[1..]) {
          SubseqTransitive(a[1..], b[1..], c[1..]);
        } else {
          SubseqTransitive(a, b[1..], c[1..]);
        }
      } else {
        SubseqTransitive(a, b, c[1..]);
      }
    }
  }

  /** No element occurs twice. */
  predicate NoDup<T(==)>(s: seq<T>) {
    forall i, j :: 0 <= i < j < |s| ==> s[i] != s[j]
  }

  /** Every element of `r` occurs in `s` before the first occurrence of any
      later element of `r`: the order in which a scan of `s` first meets them. */
  ghost predicate FirstOccurrenceOrder<T>(r: seq<T>, s: seq<T>) {
    forall i, j :: 0 <= i < j < |r| ==> OccursBefore(s, r[i], r[j])
  }

  /** `x` occurs in `s` at a position that no occurrence of `y` precedes. */
  ghost predicate OccursBefore<T>(s: seq<T>, x: T, y: T) {
    exists k :: 0 <= k < |s| && s[k] == x && y !in s[..k]
  }

  /** `Array.from(new Set(s))`: the distinct elements in order of first
      occurrence. */
  function Dedup<T(==)>(s: seq<T>): (r: seq<T>)
    ensures NoDup(r)
    ensures forall i :: 0 <= i < |r| ==> r[i] in s
    ensures forall i :: 0 <= i < |s| ==> s[i] in r
    ensures FirstOccurrenceOrder(r, s)
    decreases |s|
  {
    if s == [] then []
    else
      var d := Dedup(s[..|s| - 1]);
      assert forall i :: 0 <= i < |s| - 1 ==> s[i] == s[..|s| - 1][i];
      var r := if s[|s| - 1] in d then d else d + [s[|s| - 1]];
      assert s == s[..|s| - 1] + [s[|s| - 1]];
      FirstOccurrenceSnoc(s[..|s| - 1], s[|s| - 1], d);
      r
  }

  /** One step of `Dedup`: appending `z` to the scanned sequence appends it to
      the distinct elements exactly when it is new, which keeps the order. */
  lemma FirstOccurrenceSnoc<T>(s: seq<T>, z: T, d: seq<T>)
    requires FirstOccurrenceOrder(d, s)
    requires forall i :: 0 <= i < |d| ==> d[i] in s
    requires forall i :: 0 <= i < |s| ==> s[i] in d
    ensures FirstOccurrenceOrder(if z in d then d else d + [z], s + [z])
  {
    var r := if z in d then d else d + [z];
    forall i, j | 0 <= i < j < |r|
      ensures OccursBefore(s + [z], r[i], r[j])
    {
      if j < |d| {
        assert OccursBefore(s, d[i], d[j]);
        var k :| 0 <= k < |s| && s[k] == d[i] && d[j] !in s[..k];
        assert (s + [z])[..k] == s[..k];
        assert r[i] == d[i] && r[j] == d[j];
        assert (s + [z])[k] == r[i];
      } else {
        var k :| 0 <= k < |s| && s[k] == d[i];
        assert (s + [z])[..k] == s[..k];
        assert r[j] !in s by {
          forall m | 0 <= m < |s| ensures s[m] != r[j] {
            assert s[m] in d;
          }
        }
        assert r[i] == d[i];
        assert (s + [z])[k] == r[i];
      }
    }
  }

  /** `Array.prototype.findIndex`: the first index whose element satisfies `p`, or -1. */
  function FindIndex<T>(s: seq<T>, p: T -> bool): (r: int)
    ensures -1 <= r < |s|
    ensures 0 <= r ==> p(s[r]) && forall j :: 0 <= j < r ==> !p(s[j])
    ensures r == -1 <==> forall j :: 0 <= j < |s| ==> !p(s[j])
    decreases |s|
  {
    if s == [] then -1
    else if p(s[0]) then 0
    else
      var k := FindIndex(s[1..], p);
      if k == -1 then -1 else k + 1
  }

  /** `Array.prototype.find`: the first element satisfying `p`, if any. */
  function Find<T>(s: seq<T>, p: T -> bool): (r: Option<T>)
    ensures r.None? <==> forall j :: 0 <= j < |s| ==> !p(s[j])
    ensures r.Some? ==> r.value == s[FindIndex(s, p)]
  {
    var k := FindIndex(s, p);
    if k == -1 then None else Some(s[k])
  }

  /** Filtering keeps everything exactly when every element passes. */
  lemma {:induction false} FilterAll<T>(s: seq<T>, p: T -> bool)
    requires forall x :: x in s ==> p(x)
    ensures Filter(s, p) == s
    decreases |s|
  {
    if s != [] {
      FilterAll(s[1..], p);
    }
  }

  /** The filtered sequence is shorter exactly when some element fails `p`. */
  lemma {:induction false} FilterShorter<T>(s: seq<T>, p: T -> bool)
    ensures |Filter(s, p)| < |s| <==> exists x :: x in s && !p(x)
    decreases |s|
  {
    if s != [] {
      FilterShorter(s[1..], p);
      if !p(s[0]) {
        assert s[0] in s;
      } else if exists x :: x in s[1..] && !p(x) {
        var x :| x in s[1..] && !p(x);
        assert x in s;
      }
      if exists x :: x in s && !p(x) {
        var x :| x in s && !p(x);
        if x != s[0] {
          assert x in s[1..];
        }
      }
    }
  }
}
