/**
 * `Array.prototype.filter` and the first-seen de-duplication of
 * `[...new Set(xs)]`, with the facts about them the catalog depends on.
 */
module Sequences {

  /** `s.filter(p)`: the elements of `s` that pass `p`, in their order. */
  function Filter<T>(s: seq<T>, p: T -> bool): (r: seq<T>)
    ensures |r| <= |s|
    ensures forall x :: x in r ==> x in s && p(x)
    ensures forall x :: x in s && p(x) ==> x in r
  {
    if s == [] then []
    else if p(s[0]) then [s[0]] + Filter(s[1..], p)
    else Filter(s[1..], p)
  }

  /** `r` holds the elements of `s` at the positions `idx`. */
  ghost predicate PicksAt<T>(s: seq<T>, r: seq<T>, idx: seq<nat>) {
    |idx| == |r| && forall k :: 0 <= k < |idx| ==> idx[k] < |s| && r[k] == s[idx[k]]
  }

  ghost predicate Increasing(idx: seq<nat>) {
    forall k, l :: 0 <= k < l < |idx| ==> idx[k] < idx[l]
  }

  /** `idx` holds exactly the positions of `s` whose elements pass `p`. */
  ghost predicate PassingPositions<T>(s: seq<T>, idx: seq<nat>, p: T -> bool) {
    forall i :: 0 <= i < |s| ==> (p(s[i]) <==> i in idx)
  }

  /** `idx` lists, in increasing order, exactly the positions of `s` whose
      elements pass `p`, and `r` holds the elements at those positions: `r` is
      the order-preserving subsequence of `s` selected by `p`, with nothing
      repeated and nothing reordered. */
  ghost predicate SelectsExactly<T>(s: seq<T>, r: seq<T>, idx: seq<nat>, p: T -> bool) {
    PicksAt(s, r, idx) && Increasing(idx) && PassingPositions(s, idx, p)
  }

  function Shift(idx: seq<nat>): (r: seq<nat>)
    ensures |r| == |idx|
    ensures forall k :: 0 <= k < |idx| ==> r[k] == idx[k] + 1
  {
    seq(|idx|, k requires 0 <= k < |idx| => idx[k] + 1)
  }

  /** `Filter` keeps exactly the passing positions, in order. */
  lemma {:induction false} FilterSelects<T>(s: seq<T>, p: T -> bool) returns (idx: seq<nat>)
    ensures SelectsExactly(s, Filter(s, p), idx, p)
  {
    if s == [] {
      idx := [];
    } else {
      var tail := Filter(s[1..], p);
      var rest := FilterSelects(s[1..], p);
      ShiftPicks(s, tail, rest);
      ShiftIncreasing(rest);
      ShiftPassing(s, rest, p);
      if p(s[0]) {
        idx := [0] + Shift(rest);
        assert Filter(s, p) == [s[0]] + tail;
        ConsPicks(s, tail, Shift(rest));
        ConsIncreasing(Shift(rest));
        ConsPassing(s, Shift(rest), p);
      } else {
        idx := Shift(rest);
        assert Filter(s, p) == tail;
      }
    }
  }

  lemma {:induction false} ShiftPicks<T>(s: seq<T>, tail: seq<T>, rest: seq<nat>)
    requires s != [] && PicksAt(s[1..], tail, rest)
    ensures PicksAt(s, tail, Shift(rest))
    ensures forall k :: 0 <= k < |rest| ==> 0 < Shift(rest)[k]
  {
  }

  lemma {:induction false} ShiftIncreasing(rest: seq<nat>)
    requires Increasing(rest)
    ensures Increasing(Shift(rest))
  {
  }

  lemma {:induction false} ShiftPassing<T>(s: seq<T>, rest: seq<nat>, p: T -> bool)
    requires s != [] && PassingPositions(s[1..], rest, p)
    ensures forall i :: 0 < i < |s| ==> (p(s[i]) <==> i in Shift(rest))
    ensures 0 !in Shift(rest)
  {
    var shifted := Shift(rest);
    forall i | 0 < i < |s| ensures p(s[i]) <==> i in shifted {
      assert s[i] == s[1..][i - 1];
      if i - 1 in rest {
        var k :| 0 <= k < |rest| && rest[k] == i - 1;
        assert shifted[k] == i;
      }
      if i in shifted {
        var k :| 0 <= k < |shifted| && shifted[k] == i;
        assert rest[k] == i - 1;
      }
    }
  }

  lemma {:induction false} ConsPicks<T>(s: seq<T>, tail: seq<T>, shifted: seq<nat>)
    requires s != [] && PicksAt(s, tail, shifted)
    ensures PicksAt(s, [s[0]] + tail, [0] + shifted)
  {
    var idx, r := [0] + shifted, [s[0]] + tail;
    forall k | 0 < k < |idx| ensures idx[k] < |s| && r[k] == s[idx[k]] {
      assert idx[k] == shifted[k - 1] && r[k] == tail[k - 1];
    }
  }

  lemma {:induction false} ConsIncreasing(shifted: seq<nat>)
    requires Increasing(shifted) && forall k :: 0 <= k < |shifted| ==> 0 < shifted[k]
    ensures Increasing([0] + shifted)
  {
    var idx := [0] + shifted;
    forall k, l | 0 <= k < l < |idx| ensures idx[k] < idx[l] {
      assert idx[l] == shifted[l - 1];
      if k > 0 {
        assert idx[k] == shifted[k - 1];
      }
    }
  }

  lemma {:induction false} ConsPassing<T>(s: seq<T>, shifted: seq<nat>, p: T -> bool)
    requires s != [] && p(s[0])
    requires forall i :: 0 < i < |s| ==> (p(s[i]) <==> i in shifted)
    ensures PassingPositions(s, [0] + shifted, p)
  {
    forall i | 0 <= i < |s| ensures p(s[i]) <==> i in [0] + shifted {
      assert i in [0] + shifted <==> i == 0 || i in shifted;
    }
  }

  /** Two successive filters are one filter by the conjunction. */
  lemma {:induction false} FilterThenFilter<T>(s: seq<T>, p: T -> bool, q: T -> bool, both: T -> bool)
    requires forall x :: both(x) == (p(x) && q(x))
    ensures Filter(Filter(s, p), q) == Filter(s, both)
  {
    if s != [] {
      FilterThenFilter(s[1..], p, q, both);
    }
  }

  /** Filtering by a test every element passes changes nothing. */
  lemma {:induction false} FilterKeepsAll<T>(s: seq<T>, p: T -> bool)
    requires forall x :: x in s ==> p(x)
    ensures Filter(s, p) == s
  {
    if s != [] {
      assert forall x :: x in s[1..] ==> x in s;
      FilterKeepsAll(s[1..], p);
    }
  }

  /** Filters by tests that agree on every element of `s` agree. */
  lemma {:induction false} FilterAgrees<T>(s: seq<T>, p: T -> bool, q: T -> bool)
    requires forall x :: x in s ==> p(x) == q(x)
    ensures Filter(s, p) == Filter(s, q)
  {
    if s != [] {
      assert forall x :: x in s[1..] ==> x in s;
      FilterAgrees(s[1..], p, q);
    }
  }

  ghost predicate NoDuplicates<T>(s: seq<T>) {
    forall i, j :: 0 <= i < j < |s| ==> s[i] != s[j]
  }

  /** Position of the first occurrence of `x` in `s`. */
  function FirstIndex<T(==)>(s: seq<T>, x: T): (i: nat)
    requires x in s
    ensures i < |s| && s[i] == x && x !in s[..i]
  {
    if s[0] == x then 0 else 1 + FirstIndex(s[1..], x)
  }

  /** Elements of `s` that are not in `seen`, each once, in order of first
      occurrence: the insertion order of a JavaScript `Set` built from `s`
      after `seen` has been inserted. */
  function DistinctFrom<T(==)>(s: seq<T>, seen: set<T>): (r: seq<T>)
    ensures forall x :: x in r ==> x in s && x !in seen
    ensures forall x :: x in s && x !in seen ==> x in r
  {
    if s == [] then []
    else if s[0] in seen then DistinctFrom(s[1..], seen)
    else [s[0]] + DistinctFrom(s[1..], seen + {s[0]})
  }

  /** `[...new Set(s)]`. */
  function Distinct<T(==)>(s: seq<T>): seq<T> {
    DistinctFrom(s, {})
  }

  /** `DistinctFrom` repeats nothing and lists its elements in the order in
      which they first occur in `s`. */
  lemma {:induction false} DistinctFromOrdered<T>(s: seq<T>, seen: set<T>)
    ensures NoDuplicates(DistinctFrom(s, seen))
    ensures forall i, j :: 0 <= i < j < |DistinctFrom(s, seen)| ==>
              FirstIndex(s, DistinctFrom(s, seen)[i]) < FirstIndex(s, DistinctFrom(s, seen)[j])
  {
    if s != [] {
      var r := DistinctFrom(s, seen);
      if s[0] in seen {
        DistinctFromOrdered(s[1..], seen);
        forall x | x in r ensures FirstIndex(s, x) == 1 + FirstIndex(s[1..], x) {
          assert x != s[0];
        }
      } else {
        var tail := DistinctFrom(s[1..], seen + {s[0]});
        DistinctFromOrdered(s[1..], seen + {s[0]});
        assert r == [s[0]] + tail;
        forall x | x in tail ensures FirstIndex(s, x) == 1 + FirstIndex(s[1..], x) {
          assert x != s[0];
        }
        forall i, j | 0 <= i < j < |r| ensures r[i] != r[j] && FirstIndex(s, r[i]) < FirstIndex(s, r[j]) {
          assert r[j] == tail[j - 1];
          assert r[j] in tail;
          if i > 0 {
            assert r[i] == tail[i - 1];
            assert r[i] in tail;
          }
        }
      }
    }
  }

  /** A subsequence picked by increasing positions keeps the order of first
      occurrence and repeats nothing, if its source did not. */
  lemma SelectedKeepsOrder<T>(s: seq<T>, r: seq<T>, idx: seq<nat>, p: T -> bool, base: seq<T>)
    requires SelectsExactly(s, r, idx, p)
    requires forall x :: x in s ==> x in base
    requires NoDuplicates(s)
    requires forall i, j :: 0 <= i < j < |s| ==> FirstIndex(base, s[i]) < FirstIndex(base, s[j])
    ensures NoDuplicates(r)
    ensures forall i, j :: 0 <= i < j < |r| ==>
              r[i] in base && r[j] in base && FirstIndex(base, r[i]) < FirstIndex(base, r[j])
  {
    forall i, j | 0 <= i < j < |r|
      ensures r[i] != r[j]
      ensures r[i] in base && r[j] in base && FirstIndex(base, r[i]) < FirstIndex(base, r[j])
    {
      assert idx[i] < idx[j];
      assert r[i] == s[idx[i]] && r[j] == s[idx[j]];
    }
  }
}
