/**
 * The array operations the blog code builds on: `Array.prototype.filter`,
 * `find`, and deduplication through a `Set`, which keeps first occurrences
 * in insertion order.
 */
module Seqs {

  /** `s.filter(keep)`: the elements that pass, in their original order. */
  function Filter<T>(s: seq<T>, keep: T -> bool): (r: seq<T>)
    ensures |r| <= |s|
  {
    if s == [] then [] else (if keep(s[0]) then [s[0]] else []) + Filter(s[1..], keep)
  }

  /** `a` is obtained from `b` by deleting elements, keeping the order of the rest. */
  predicate IsSubsequence<T(==)>(a: seq<T>, b: seq<T>)
    decreases |b|
  {
    if a == [] then true
    else if b == [] then false
    else (a[0] == b[0] && IsSubsequence(a[1..], b[1..])) || IsSubsequence(a, b[1..])
  }

  /** No element occurs twice. */
  predicate Distinct<T(==)>(s: seq<T>) {
    forall i, j :: 0 <= i < j < |s| ==> s[i] != s[j]
  }

  /** Position of the first occurrence of `x` in `s`. */
  function IndexOf<T(==)>(s: seq<T>, x: T): (i: nat)
    requires x in s
    ensures i < |s| && s[i] == x && x !in s[..i]
  {
    if s[0] == x then 0 else 1 + IndexOf(s[1..], x)
  }

  /**
   * `Array.from(new Set(s))`: every element of `s` once, in the order in which
   * the set first saw it. Elements are added one at a time, as the set does.
   */
  function Dedupe<T(==)>(s: seq<T>): seq<T> {
    if s == [] then []
    else
      var seen := Dedupe(s[..|s| - 1]);
      if s[|s| - 1] in seen then seen else seen + [s[|s| - 1]]
  }

  /** An element is kept exactly when it occurs in the input and passes. */
  lemma {:induction false} FilterMembership<T>(s: seq<T>, keep: T -> bool, x: T)
    ensures x in Filter(s, keep) <==> x in s && keep(x)
  {
    if s != [] {
      FilterMembership(s[1..], keep, x);
      assert s == [s[0]] + s[1..];
    }
  }

  /** Filtering and appending commute. */
  lemma {:induction false} FilterAppend<T>(a: seq<T>, b: seq<T>, keep: T -> bool)
    ensures Filter(a + b, keep) == Filter(a, keep) + Filter(b, keep)
  {
    if a == [] {
      assert a + b == b;
    } else {
      var head := if keep(a[0]) then [a[0]] else [];
      assert (a + b)[0] == a[0];
      assert (a + b)[1..] == a[1..] + b;
      FilterAppend(a[1..], b, keep);
      calc {
        Filter(a + b, keep);
        head + Filter(a[1..] + b, keep);
        head + (Filter(a[1..], keep) + Filter(b, keep));
        (head + Filter(a[1..], keep)) + Filter(b, keep);
      }
    }
  }

  /** A filter keeps an order-preserving selection of its input. */
  lemma {:induction false} FilterIsSubsequence<T>(s: seq<T>, keep: T -> bool)
    ensures IsSubsequence(Filter(s, keep), s)
  {
    if s != [] {
      FilterIsSubsequence(s[1..], keep);
      var rest := Filter(s[1..], keep);
      if keep(s[0]) {
        var r := [s[0]] + rest;
        assert Filter(s, keep) == r;
        assert r[0] == s[0] && r[1..] == rest;
      } else {
        assert Filter(s, keep) == rest;
        if rest != [] {
          assert IsSubsequence(rest, s[1..]);
        }
      }
    }
  }

  /** Every sequence is a subsequence of itself. */
  lemma {:induction false} IsSubsequenceReflexive<T>(s: seq<T>)
    ensures IsSubsequence(s, s)
  {
    if s != [] {
      IsSubsequenceReflexive(s[1..]);
    }
  }

  /** The test that both `f` and `g` pass. */
  function Both<T>(f: T -> bool, g: T -> bool): T -> bool {
    (x: T) => f(x) && g(x)
  }

  /** Two filters in a row are one filter by both tests. */
  lemma {:induction false} FilterFuse<T>(s: seq<T>, f: T -> bool, g: T -> bool)
    ensures Filter(Filter(s, f), g) == Filter(s, Both(f, g))
  {
    if s != [] {
      FilterFuse(s[1..], f, g);
      var rest := Filter(s[1..], f);
      if f(s[0]) {
        assert Filter(s, f) == [s[0]] + rest;
        assert ([s[0]] + rest)[1..] == rest;
        assert Filter([s[0]] + rest, g) == (if g(s[0]) then [s[0]] else []) + Filter(rest, g);
      } else {
        assert Filter(s, f) == rest;
      }
    }
  }

  /** Applying a filter a second time changes nothing. */
  lemma {:induction false} FilterIdempotent<T>(s: seq<T>, keep: T -> bool)
    ensures Filter(Filter(s, keep), keep) == Filter(s, keep)
  {
    if s != [] {
      FilterIdempotent(s[1..], keep);
      var rest := Filter(s[1..], keep);
      if keep(s[0]) {
        var r := [s[0]] + rest;
        assert Filter(s, keep) == r;
        assert r[0] == s[0] && r[1..] == rest;
        assert Filter(r, keep) == [s[0]] + Filter(rest, keep);
      } else {
        assert Filter(s, keep) == rest;
      }
    }
  }

  /** Two filters applied one after the other give the same result in either order. */
  lemma {:induction false} FilterCommutes<T>(s: seq<T>, f: T -> bool, g: T -> bool)
    ensures Filter(Filter(s, f), g) == Filter(Filter(s, g), f)
  {
    if s != [] {
      FilterCommutes(s[1..], f, g);
      var x := s[0];
      var fs, gs := Filter(s[1..], f), Filter(s[1..], g);
      var lhs := if f(x) then [x] + fs else fs;
      var rhs := if g(x) then [x] + gs else gs;
      assert Filter(s, f) == lhs;
      assert Filter(s, g) == rhs;
      if f(x) {
        assert lhs[0] == x && lhs[1..] == fs;
      }
      if g(x) {
        assert rhs[0] == x && rhs[1..] == gs;
      }
    }
  }

  /** A filter that every element passes returns its input. */
  lemma {:induction false} FilterKeepsAll<T>(s: seq<T>, keep: T -> bool)
    requires forall i :: 0 <= i < |s| ==> keep(s[i])
    ensures Filter(s, keep) == s
  {
    if s != [] {
      FilterKeepsAll(s[1..], keep);
    }
  }

  /** Two tests that agree on every element of `s` filter it alike. */
  lemma {:induction false} FilterCongruent<T>(s: seq<T>, f: T -> bool, g: T -> bool)
    requires forall i :: 0 <= i < |s| ==> f(s[i]) == g(s[i])
    ensures Filter(s, f) == Filter(s, g)
  {
    if s != [] {
      FilterCongruent(s[1..], f, g);
    }
  }

  /** The first occurrence of an element of a prefix lies in that prefix. */
  lemma {:induction false} IndexOfPrefix<T>(s: seq<T>, t: seq<T>, x: T)
    requires x in s
    ensures IndexOf(s + t, x) == IndexOf(s, x)
  {
    if s[0] != x {
      assert (s + t)[1..] == s[1..] + t;
      IndexOfPrefix(s[1..], t, x);
    }
  }

  /**
   * The deduplicated sequence has no repetitions, and it holds exactly the
   * elements of the input.
   */
  lemma {:induction false} DedupeContents<T>(s: seq<T>)
    ensures Distinct(Dedupe(s))
    ensures forall i :: 0 <= i < |Dedupe(s)| ==> Dedupe(s)[i] in s
    ensures forall i :: 0 <= i < |s| ==> s[i] in Dedupe(s)
  {
    if s != [] {
      var init, last := s[..|s| - 1], s[|s| - 1];
      DedupeContents(init);
      var seen := Dedupe(init);
      forall i | 0 <= i < |s|
        ensures s[i] in Dedupe(s)
      {
        if i < |s| - 1 {
          assert s[i] == init[i];
        }
      }
      forall i | 0 <= i < |Dedupe(s)|
        ensures Dedupe(s)[i] in s
      {
        if i < |seen| {
          assert Dedupe(s)[i] == seen[i];
          var k :| 0 <= k < |init| && init[k] == seen[i];
          assert s[k] == init[k];
        }
      }
    }
  }

  /** An element survives deduplication exactly when it occurs in the input. */
  lemma DedupeMembership<T>(s: seq<T>, x: T)
    ensures x in Dedupe(s) <==> x in s
  {
    DedupeContents(s);
    if x in s {
      var i :| 0 <= i < |s| && s[i] == x;
    }
    if x in Dedupe(s) {
      var i :| 0 <= i < |Dedupe(s)| && Dedupe(s)[i] == x;
    }
  }

  /** The elements of `d` occur in `s`, and their first occurrences in `s` come in the order of `d`. */
  predicate InFirstOccurrenceOrder<T(==)>(d: seq<T>, s: seq<T>) {
    forall i, j :: 0 <= i < j < |d| ==> d[i] in s && d[j] in s && IndexOf(s, d[i]) < IndexOf(s, d[j])
  }

  /**
   * The deduplicated sequence lists the elements in the order of their first
   * occurrence in the input.
   */
  lemma {:induction false} DedupeFirstOccurrenceOrder<T>(s: seq<T>)
    ensures InFirstOccurrenceOrder(Dedupe(s), s)
  {
    DedupeContents(s);
    if s != [] {
      var init, last := s[..|s| - 1], s[|s| - 1];
      assert s == init + [last];
      DedupeFirstOccurrenceOrder(init);
      DedupeContents(init);
      var seen := Dedupe(init);
      forall i | 0 <= i < |seen|
        ensures seen[i] in init && IndexOf(s, seen[i]) == IndexOf(init, seen[i])
      {
        IndexOfPrefix(init, [last], seen[i]);
      }
      if last !in seen {
        assert last !in init;
        assert IndexOf(s, last) == |init|;
        forall i, j | 0 <= i < j < |Dedupe(s)|
          ensures IndexOf(s, Dedupe(s)[i]) < IndexOf(s, Dedupe(s)[j])
        {
          if j == |seen| {
            assert Dedupe(s)[i] == seen[i];
          } else {
            assert Dedupe(s)[i] == seen[i] && Dedupe(s)[j] == seen[j];
          }
        }
      }
    }
  }

  /** Appending an element not yet present keeps a sequence free of repetitions. */
  lemma DistinctSnoc<T>(s: seq<T>, x: T)
    requires Distinct(s) && x !in s
    ensures Distinct(s + [x])
  {
  }

  /** Deduplicating one more element: the set either has seen it already or appends it. */
  lemma DedupeSnoc<T>(s: seq<T>, x: T)
    ensures Dedupe(s + [x]) == if x in Dedupe(s) then Dedupe(s) else Dedupe(s) + [x]
  {
    assert (s + [x])[..|s|] == s;
  }

  /** A sequence without repetitions has as many elements as its set. */
  lemma {:induction false} DistinctCardinality<T>(s: seq<T>)
    requires Distinct(s)
    ensures |set x | x in s| == |s|
  {
    if s != [] {
      var init, last := s[..|s| - 1], s[|s| - 1];
      assert s == init + [last];
      DistinctCardinality(init);
      assert (set x | x in s) == (set x | x in init) + {last};
      assert last !in (set x | x in init);
    }
  }

  /** The deduplicated sequence has one entry per distinct element of the input. */
  lemma DedupeLength<T>(s: seq<T>)
    ensures |Dedupe(s)| == |set x | x in s|
  {
    DedupeContents(s);
    DistinctCardinality(Dedupe(s));
    assert (set x | x in Dedupe(s)) == (set x | x in s);
  }
}
