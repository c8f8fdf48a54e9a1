/**
 * Order-preserving selection from a list (Python's list comprehension
 * with an `if`, or a loop that appends the items passing a test) and the
 * subsequence relation it establishes.
 */
module Sequences {

  /** The items of `s` for which `keep` holds, in their original order. */
  function Filter<T>(s: seq<T>, keep: T -> bool): (r: seq<T>)
    ensures |r| <= |s|
  {
    if s == [] then []
    else Filter(s[..|s| - 1], keep) + (if keep(s[|s| - 1]) then [s[|s| - 1]] else [])
  }

  /** `a` is obtained from `b` by deleting items (order kept). */
  predicate IsSubsequence<T(==)>(a: seq<T>, b: seq<T>)
    decreases |b|
  {
    if b == [] then a == []
    else
      IsSubsequence(a, b[..|b| - 1])
      || (a != [] && a[|a| - 1] == b[|b| - 1] && IsSubsequence(a[..|a| - 1], b[..|b| - 1]))
  }

  /** Filtering one more item appends it iff it passes the test. */
  lemma FilterExtend<T>(s: seq<T>, i: nat, keep: T -> bool)
    requires i < |s|
    ensures Filter(s[..i + 1], keep) == Filter(s[..i], keep) + (if keep(s[i]) then [s[i]] else [])
  {
    assert s[..i + 1][..i] == s[..i];
  }

  /** An item is kept as often as it occurs, if it passes the test, and never otherwise. */
  lemma {:induction false} FilterCount<T>(s: seq<T>, keep: T -> bool, x: T)
    ensures multiset(Filter(s, keep))[x] == if keep(x) then multiset(s)[x] else 0
  {
    if s != [] {
      FilterCount(s[..|s| - 1], keep, x);
      assert s == s[..|s| - 1] + [s[|s| - 1]];
    }
  }

  /** An item is in the result iff it is in the input and passes the test. */
  lemma FilterMembership<T>(s: seq<T>, keep: T -> bool, x: T)
    ensures x in Filter(s, keep) <==> x in s && keep(x)
  {
    FilterCount(s, keep, x);
  }

  /** The result keeps the input's order. */
  lemma {:induction false} FilterIsSubsequence<T>(s: seq<T>, keep: T -> bool)
    ensures IsSubsequence(Filter(s, keep), s)
  {
    if s != [] {
      var r := Filter(s, keep);
      FilterIsSubsequence(s[..|s| - 1], keep);
      if keep(s[|s| - 1]) {
        assert r == Filter(s[..|s| - 1], keep) + [s[|s| - 1]];
        assert r[..|r| - 1] == Filter(s[..|s| - 1], keep);
        assert r != [] && r[|r| - 1] == s[|s| - 1];
        assert IsSubsequence(r[..|r| - 1], s[..|s| - 1]);
      } else {
        assert r == Filter(s[..|s| - 1], keep);
      }
    }
  }

  /** Two tests that never both hold select at most `|s|` items together. */
  lemma {:induction false} DisjointFiltersFit<T>(s: seq<T>, p: T -> bool, q: T -> bool)
    requires forall x :: !(p(x) && q(x))
    ensures |Filter(s, p)| + |Filter(s, q)| <= |s|
  {
    if s != [] {
      DisjointFiltersFit(s[..|s| - 1], p, q);
    }
  }

  /** The items of `s` at the given positions, in the order the positions are listed. */
  function Pick<T>(s: seq<T>, positions: seq<nat>): (r: seq<T>)
    requires forall k :: 0 <= k < |positions| ==> positions[k] < |s|
    ensures |r| == |positions|
    ensures forall k :: 0 <= k < |positions| ==> r[k] == s[positions[k]]
  {
    seq(|positions|, k requires 0 <= k < |positions| => s[positions[k]])
  }

  /** Pairwise distinct positions, all inside a list of length `n`. */
  predicate DistinctBelow(positions: seq<nat>, n: nat)
  {
    && (forall k :: 0 <= k < |positions| ==> positions[k] < n)
    && (forall a, b :: 0 <= a < b < |positions| ==> positions[a] != positions[b])
  }

  lemma PickConcat<T>(s: seq<T>, a: seq<nat>, b: seq<nat>)
    requires forall k :: 0 <= k < |a| ==> a[k] < |s|
    requires forall k :: 0 <= k < |b| ==> b[k] < |s|
    ensures Pick(s, a + b) == Pick(s, a) + Pick(s, b)
  {
  }

  /** Positions that all lie in a prefix pick the same items from the prefix. */
  lemma PickFromPrefix<T>(s: seq<T>, m: nat, positions: seq<nat>)
    requires m <= |s| && forall k :: 0 <= k < |positions| ==> positions[k] < m
    ensures Pick(s[..m], positions) == Pick(s, positions)
  {
  }

  /** Dropping the position of the last item leaves distinct positions below it. */
  lemma DropLastPosition(positions: seq<nat>, q: nat, m: nat)
    requires DistinctBelow(positions, m + 1) && q < |positions| && positions[q] == m
    ensures DistinctBelow(positions[..q] + positions[q + 1..], m)
  {
    var rest := positions[..q] + positions[q + 1..];
    forall k | 0 <= k < |rest| ensures rest[k] < m {
      if k < q {
        assert rest[k] == positions[k];
      } else {
        assert rest[k] == positions[k + 1];
      }
    }
    forall a, b | 0 <= a < b < |rest| ensures rest[a] != rest[b] {
      var a', b' := if a < q then a else a + 1, if b < q then b else b + 1;
      assert rest[a] == positions[a'] && rest[b] == positions[b'];
    }
  }

  /** Picking splits around any one listed position. */
  lemma PickSplitAt<T>(s: seq<T>, positions: seq<nat>, q: nat)
    requires forall k :: 0 <= k < |positions| ==> positions[k] < |s|
    requires q < |positions|
    ensures Pick(s, positions) == Pick(s, positions[..q]) + [s[positions[q]]] + Pick(s, positions[q + 1..])
  {
    var r := Pick(s, positions[..q]) + [s[positions[q]]] + Pick(s, positions[q + 1..]);
    forall k | 0 <= k < |positions| ensures Pick(s, positions)[k] == r[k] {
      if k > q {
        assert r[k] == Pick(s, positions[q + 1..])[k - q - 1];
      }
    }
  }

  /** Picking the last item once more adds it once to both sides of the inclusion. */
  lemma PickWithLast<T>(s: seq<T>, positions: seq<nat>, q: nat)
    requires s != [] && forall k :: 0 <= k < |positions| ==> positions[k] < |s|
    requires q < |positions| && positions[q] == |s| - 1
    requires var rest := positions[..q] + positions[q + 1..];
      && (forall k :: 0 <= k < |rest| ==> rest[k] < |s| - 1)
      && multiset(Pick(s[..|s| - 1], rest)) <= multiset(s[..|s| - 1])
    ensures multiset(Pick(s, positions)) <= multiset(s)
  {
    var m := |s| - 1;
    var before, after := positions[..q], positions[q + 1..];
    PickSplitAt(s, positions, q);
    PickConcat(s, before, after);
    PickFromPrefix(s, m, before + after);
    assert s == s[..m] + [s[m]];
    assert multiset(Pick(s, positions)) == multiset(Pick(s, before + after)) + multiset{s[m]};
  }

  /** Positions that avoid the last item pick from the list without it. */
  lemma PickWithoutLast<T>(s: seq<T>, positions: seq<nat>)
    requires s != [] && DistinctBelow(positions, |s| - 1)
    requires multiset(Pick(s[..|s| - 1], positions)) <= multiset(s[..|s| - 1])
    ensures multiset(Pick(s, positions)) <= multiset(s)
  {
    assert s == s[..|s| - 1] + [s[|s| - 1]];
    PickFromPrefix(s, |s| - 1, positions);
  }

  /** Items taken at distinct positions form a sub-multiset of the list. */
  lemma {:induction false} PickDistinctIsSubMultiset<T>(s: seq<T>, positions: seq<nat>)
    requires DistinctBelow(positions, |s|)
    ensures multiset(Pick(s, positions)) <= multiset(s)
    decreases |s|
  {
    if s != [] {
      var m := |s| - 1;
      if q :| 0 <= q < |positions| && positions[q] == m {
        DropLastPosition(positions, q, m);
        PickDistinctIsSubMultiset(s[..m], positions[..q] + positions[q + 1..]);
        PickWithLast(s, positions, q);
      } else {
        assert DistinctBelow(positions, m);
        PickDistinctIsSubMultiset(s[..m], positions);
        PickWithoutLast(s, positions);
      }
    }
  }
}
