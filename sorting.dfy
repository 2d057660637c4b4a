/**
 * `sortPosts` (src/lib/blog/utils.ts:119-139) and the in-place newest-first
 * sort of `getAllPosts`. `Array.prototype.sort` is stable, so the result is
 * determined by the comparator alone: it is the stable insertion sort below,
 * whatever algorithm the engine runs (see `StableSortUnique`).
 */
module Sorting {
  import opened BlogTypes
  import Seqs

  /** The four orders `sortPosts` knows. */
  datatype SortKey = Newest | Oldest | MostViewed | Alphabetical

  /** The cases of the `switch (sortBy)`; any other string selects none. */
  function SortKeyOf(sortBy: string): Option<SortKey> {
    if sortBy == "newest" then Some(Newest)
    else if sortBy == "oldest" then Some(Oldest)
    else if sortBy == "most-viewed" then Some(MostViewed)
    else if sortBy == "alphabetical" then Some(Alphabetical)
    else None
  }

  /**
   * Three-way comparison of strings by Unicode code point, the stand-in for
   * `localeCompare`: negative, zero or positive.
   */
  function CompareStrings(a: string, b: string): int
    decreases |a|
  {
    if a == [] && b == [] then 0
    else if a == [] then -1
    else if b == [] then 1
    else if a[0] < b[0] then -1
    else if a[0] > b[0] then 1
    else CompareStrings(a[1..], b[1..])
  }

  /** The comparator each sort option passes to `sort`: negative puts `a` first. */
  function Compare(a: Post, b: Post, key: SortKey): int {
    match key
    case Newest => b.publishedAt - a.publishedAt
    case Oldest => a.publishedAt - b.publishedAt
    case MostViewed => b.views - a.views
    case Alphabetical => CompareStrings(a.title, b.title)
  }

  /** Swapping the arguments of the string comparison flips its sign. */
  lemma {:induction false} CompareStringsAntisymmetric(a: string, b: string)
    ensures CompareStrings(a, b) == -CompareStrings(b, a)
    decreases |a|
  {
    if a != [] && b != [] && a[0] == b[0] {
      CompareStringsAntisymmetric(a[1..], b[1..]);
    }
  }

  /** The string comparison is zero exactly on equal strings. */
  lemma {:induction false} CompareStringsZero(a: string, b: string)
    ensures CompareStrings(a, b) == 0 <==> a == b
    decreases |a|
  {
    if a != [] && b != [] && a[0] == b[0] {
      CompareStringsZero(a[1..], b[1..]);
      assert a == [a[0]] + a[1..] && b == [b[0]] + b[1..];
    }
  }

  /** "Not after" is transitive for the string comparison. */
  lemma {:induction false} CompareStringsTransitive(a: string, b: string, c: string)
    requires CompareStrings(a, b) <= 0 && CompareStrings(b, c) <= 0
    ensures CompareStrings(a, c) <= 0
    decreases |a|
  {
    if a != [] && b != [] && c != [] && a[0] == b[0] == c[0] {
      CompareStringsTransitive(a[1..], b[1..], c[1..]);
    }
  }

  /** Every comparator is antisymmetric: compare(a, b) and compare(b, a) have opposite signs. */
  lemma CompareAntisymmetric(a: Post, b: Post, key: SortKey)
    ensures Compare(a, b, key) == -Compare(b, a, key)
  {
    if key == Alphabetical {
      CompareStringsAntisymmetric(a.title, b.title);
    }
  }

  /** Every post compares equal to itself. */
  lemma CompareReflexive(a: Post, key: SortKey)
    ensures Compare(a, a, key) == 0
  {
    CompareAntisymmetric(a, a, key);
  }

  /** Every comparator's "not after" relation is transitive. */
  lemma CompareTransitive(a: Post, b: Post, c: Post, key: SortKey)
    requires Compare(a, b, key) <= 0 && Compare(b, c, key) <= 0
    ensures Compare(a, c, key) <= 0
  {
    if key == Alphabetical {
      CompareStringsTransitive(a.title, b.title, c.title);
    }
  }

  /** A strict step followed by a weak one is strict. */
  lemma CompareStrictTransitive(a: Post, b: Post, c: Post, key: SortKey)
    requires Compare(a, b, key) < 0 && Compare(b, c, key) <= 0
    ensures Compare(a, c, key) < 0
  {
    CompareAntisymmetric(a, b, key);
    CompareAntisymmetric(a, c, key);
    if Compare(c, a, key) <= 0 {
      CompareTransitive(b, c, a, key);
    }
  }

  /** Having the same sort key is transitive. */
  lemma SameKeyTransitive(a: Post, b: Post, c: Post, key: SortKey)
    requires Compare(a, b, key) == 0 && Compare(b, c, key) == 0
    ensures Compare(a, c, key) == 0
  {
    CompareAntisymmetric(a, b, key);
    CompareAntisymmetric(b, c, key);
    CompareAntisymmetric(a, c, key);
    CompareTransitive(a, b, c, key);
    CompareTransitive(c, b, a, key);
  }

  /** No post is ordered after a later one. */
  predicate InOrder(s: seq<Post>, key: SortKey) {
    forall i, j :: 0 <= i < j < |s| ==> Compare(s[i], s[j], key) <= 0
  }

  /** The posts of `s` whose key equals that of `p`, in their order in `s`. */
  function KeyClass(s: seq<Post>, p: Post, key: SortKey): seq<Post> {
    if s == [] then []
    else (if Compare(s[0], p, key) == 0 then [s[0]] else []) + KeyClass(s[1..], p, key)
  }

  /** Taking a key class and concatenating commute. */
  lemma {:induction false} KeyClassAppend(a: seq<Post>, b: seq<Post>, p: Post, key: SortKey)
    ensures KeyClass(a + b, p, key) == KeyClass(a, p, key) + KeyClass(b, p, key)
  {
    if a == [] {
      assert a + b == b;
    } else {
      assert (a + b)[0] == a[0] && (a + b)[1..] == a[1..] + b;
      KeyClassAppend(a[1..], b, p, key);
    }
  }

  /** The key class of one post. */
  lemma KeyClassSingle(x: Post, p: Post, key: SortKey)
    ensures KeyClass([x], p, key) == if Compare(x, p, key) == 0 then [x] else []
  {
    assert [x][1..] == [];
  }

  /** A post is in a key class exactly when it occurs and has that key. */
  lemma {:induction false} KeyClassMembership(s: seq<Post>, p: Post, key: SortKey, x: Post)
    ensures x in KeyClass(s, p, key) <==> x in s && Compare(x, p, key) == 0
  {
    if s != [] {
      KeyClassMembership(s[1..], p, key, x);
      assert s == [s[0]] + s[1..];
    }
  }

  /**
   * Inserts `x` before the first post that must come strictly after it, so
   * behind every post of equal key.
   */
  function Insert(x: Post, s: seq<Post>, key: SortKey): seq<Post> {
    if s == [] then [x]
    else if Compare(x, s[0], key) < 0 then [x] + s
    else [s[0]] + Insert(x, s[1..], key)
  }

  /** Inserting adds `x` and loses nothing. */
  lemma {:induction false} InsertPermutes(x: Post, s: seq<Post>, key: SortKey)
    ensures multiset(Insert(x, s, key)) == multiset(s) + multiset{x}
  {
    if s != [] && Compare(x, s[0], key) >= 0 {
      InsertPermutes(x, s[1..], key);
      assert s == [s[0]] + s[1..];
    }
  }

  /** Inserting into an ordered sequence keeps it ordered. */
  lemma {:induction false} InsertInOrder(x: Post, s: seq<Post>, key: SortKey)
    requires InOrder(s, key)
    ensures InOrder(Insert(x, s, key), key)
  {
    if s != [] {
      if Compare(x, s[0], key) < 0 {
        var r := [x] + s;
        forall i, j | 0 <= i < j < |r|
          ensures Compare(r[i], r[j], key) <= 0
        {
          if i == 0 && j > 1 {
            CompareTransitive(x, s[0], s[j - 1], key);
          }
        }
      } else {
        CompareAntisymmetric(x, s[0], key);
        InsertInOrder(x, s[1..], key);
        var rest := Insert(x, s[1..], key);
        InsertPermutes(x, s[1..], key);
        forall k | 0 <= k < |rest|
          ensures Compare(s[0], rest[k], key) <= 0
        {
          assert rest[k] in multiset(rest);
          if rest[k] != x {
            assert rest[k] in s[1..];
          }
        }
      }
    }
  }

  /**
   * The stable sort: each post in turn is inserted behind the already sorted
   * posts of equal key.
   */
  function StableSort(s: seq<Post>, key: SortKey): seq<Post> {
    if s == [] then [] else Insert(s[|s| - 1], StableSort(s[..|s| - 1], key), key)
  }

  /** The stable sort rearranges its input: nothing is lost or duplicated. */
  lemma {:induction false} StableSortPermutes(s: seq<Post>, key: SortKey)
    ensures multiset(StableSort(s, key)) == multiset(s)
  {
    if s != [] {
      assert s == s[..|s| - 1] + [s[|s| - 1]];
      StableSortPermutes(s[..|s| - 1], key);
      InsertPermutes(s[|s| - 1], StableSort(s[..|s| - 1], key), key);
    }
  }

  /** The stable sort puts the posts in comparator order. */
  lemma {:induction false} StableSortInOrder(s: seq<Post>, key: SortKey)
    ensures InOrder(StableSort(s, key), key)
  {
    if s != [] {
      StableSortInOrder(s[..|s| - 1], key);
      InsertInOrder(s[|s| - 1], StableSort(s[..|s| - 1], key), key);
    }
  }

  /** The posts of `s` all compare strictly after `x`. */
  lemma AllAfter(x: Post, s: seq<Post>, key: SortKey)
    requires InOrder(s, key) && s != [] && Compare(x, s[0], key) < 0
    ensures forall k :: 0 <= k < |s| ==> Compare(x, s[k], key) < 0
  {
    forall k | 0 < k < |s|
      ensures Compare(x, s[k], key) < 0
    {
      CompareStrictTransitive(x, s[0], s[k], key);
    }
  }

  /** No post of `s` has the key of `p`: the key class is empty. */
  lemma {:induction false} KeyClassNone(s: seq<Post>, p: Post, key: SortKey)
    requires forall k :: 0 <= k < |s| ==> Compare(s[k], p, key) != 0
    ensures KeyClass(s, p, key) == []
  {
    if s != [] {
      KeyClassNone(s[1..], p, key);
    }
  }

  /** A post placed in front of posts that all come strictly after it ends its key class. */
  lemma InsertFrontKeyClass(x: Post, s: seq<Post>, p: Post, key: SortKey)
    requires InOrder(s, key) && s != [] && Compare(x, s[0], key) < 0
    ensures KeyClass([x] + s, p, key) == KeyClass(s, p, key) + KeyClass([x], p, key)
  {
    KeyClassSingle(x, p, key);
    KeyClassAppend([x], s, p, key);
    if Compare(x, p, key) == 0 {
      AllAfter(x, s, key);
      forall k | 0 <= k < |s|
        ensures Compare(s[k], p, key) != 0
      {
        if Compare(s[k], p, key) == 0 {
          CompareAntisymmetric(s[k], p, key);
          SameKeyTransitive(x, p, s[k], key);
        }
      }
      KeyClassNone(s, p, key);
    }
  }

  /** Inserting `x` into an ordered sequence appends it to its key class. */
  lemma {:induction false} InsertKeyClass(x: Post, s: seq<Post>, p: Post, key: SortKey)
    requires InOrder(s, key)
    ensures KeyClass(Insert(x, s, key), p, key) == KeyClass(s, p, key) + KeyClass([x], p, key)
  {
    if s == [] {
      assert Insert(x, s, key) == [x];
    } else if Compare(x, s[0], key) < 0 {
      assert Insert(x, s, key) == [x] + s;
      InsertFrontKeyClass(x, s, p, key);
    } else {
      assert InOrder(s[1..], key);
      InsertKeyClass(x, s[1..], p, key);
      assert Insert(x, s, key) == [s[0]] + Insert(x, s[1..], key);
      assert s == [s[0]] + s[1..];
      KeyClassCons(s[0], Insert(x, s[1..], key), s[1..], KeyClass([x], p, key), p, key);
    }
  }

  /** Putting the same post in front of two sequences keeps a relation between their key classes. */
  lemma KeyClassCons(head: Post, a: seq<Post>, b: seq<Post>, extra: seq<Post>, p: Post, key: SortKey)
    requires KeyClass(a, p, key) == KeyClass(b, p, key) + extra
    ensures KeyClass([head] + a, p, key) == KeyClass([head] + b, p, key) + extra
  {
    KeyClassAppend([head], a, p, key);
    KeyClassAppend([head], b, p, key);
  }

  /** Sorting keeps every key class in its input order: the sort is stable. */
  lemma {:induction false} StableSortKeyClass(s: seq<Post>, p: Post, key: SortKey)
    ensures KeyClass(StableSort(s, key), p, key) == KeyClass(s, p, key)
  {
    if s != [] {
      var init, last := s[..|s| - 1], s[|s| - 1];
      assert s == init + [last];
      StableSortKeyClass(init, p, key);
      StableSortInOrder(init, key);
      InsertKeyClass(last, StableSort(init, key), p, key);
      KeyClassAppend(init, [last], p, key);
    }
  }

  /** A post belongs to its own key class. */
  lemma OwnKeyClass(s: seq<Post>, i: int, key: SortKey)
    requires 0 <= i < |s|
    ensures s[i] in KeyClass(s, s[i], key)
  {
    CompareReflexive(s[i], key);
    KeyClassMembership(s, s[i], key, s[i]);
  }

  /** The first post of an ordered sequence leads the key class of any post of equal key. */
  lemma KeyClassHead(s: seq<Post>, p: Post, key: SortKey)
    requires s != [] && Compare(s[0], p, key) == 0
    ensures KeyClass(s, p, key) == [s[0]] + KeyClass(s[1..], p, key)
  {
  }

  /**
   * Two non-empty ordered sequences whose key classes agree on the keys of
   * both heads start with the same post.
   */
  lemma OrderedClassesSameHead(r: seq<Post>, t: seq<Post>, key: SortKey)
    requires r != [] && t != []
    requires InOrder(r, key) && InOrder(t, key)
    requires KeyClass(r, r[0], key) == KeyClass(t, r[0], key)
    requires KeyClass(r, t[0], key) == KeyClass(t, t[0], key)
    ensures r[0] == t[0]
  {
    var a, b := r[0], t[0];
    OwnKeyClass(r, 0, key);
    KeyClassMembership(t, a, key, a);
    OwnKeyClass(t, 0, key);
    KeyClassMembership(r, b, key, b);
    HeadAfterMember(t, a, key);
    HeadAfterMember(r, b, key);
    CompareAntisymmetric(a, b, key);
    KeyClassHead(r, a, key);
    KeyClassHead(t, a, key);
    var ra, ta := KeyClass(r[1..], a, key), KeyClass(t[1..], a, key);
    assert [a] + ra == [b] + ta;
    assert ([a] + ra)[0] == a && ([b] + ta)[0] == b;
  }

  /** A post of some key class of an ordered sequence does not come before its head. */
  lemma HeadAfterMember(s: seq<Post>, x: Post, key: SortKey)
    requires s != [] && InOrder(s, key) && x in s
    ensures Compare(s[0], x, key) <= 0
  {
    var k :| 0 <= k < |s| && s[k] == x;
    if k == 0 {
      CompareReflexive(x, key);
    } else {
      assert Compare(s[0], s[k], key) <= 0;
    }
  }

  /** Removing the same head from both sides keeps the key classes equal. */
  lemma SameHeadTailClasses(r: seq<Post>, t: seq<Post>, p: Post, key: SortKey)
    requires r != [] && t != [] && r[0] == t[0]
    requires KeyClass(r, p, key) == KeyClass(t, p, key)
    ensures KeyClass(r[1..], p, key) == KeyClass(t[1..], p, key)
  {
    var h := if Compare(r[0], p, key) == 0 then [r[0]] else [];
    assert KeyClass(r, p, key) == h + KeyClass(r[1..], p, key);
    assert KeyClass(t, p, key) == h + KeyClass(t[1..], p, key);
    assert (h + KeyClass(r[1..], p, key))[|h|..] == KeyClass(r[1..], p, key);
    assert (h + KeyClass(t[1..], p, key))[|h|..] == KeyClass(t[1..], p, key);
  }

  /**
   * Two ordered sequences whose key classes all agree are equal: the order
   * decides between keys and the classes decide within a key.
   */
  lemma {:induction false} OrderedClassesDetermine(r: seq<Post>, t: seq<Post>, key: SortKey)
    requires InOrder(r, key) && InOrder(t, key)
    requires forall p :: KeyClass(r, p, key) == KeyClass(t, p, key)
    ensures r == t
    decreases |r| + |t|
  {
    if r == [] && t != [] {
      OwnKeyClass(t, 0, key);
      assert false;
    } else if r != [] && t == [] {
      OwnKeyClass(r, 0, key);
      assert false;
    } else if r != [] {
      OrderedClassesSameHead(r, t, key);
      forall p
        ensures KeyClass(r[1..], p, key) == KeyClass(t[1..], p, key)
      {
        SameHeadTailClasses(r, t, p, key);
      }
      assert InOrder(r[1..], key) && InOrder(t[1..], key);
      OrderedClassesDetermine(r[1..], t[1..], key);
      assert r == [r[0]] + r[1..] && t == [t[0]] + t[1..];
    }
  }

  /**
   * Any ordered rearrangement that keeps every key class in input order is the
   * stable sort: every stable sorting algorithm gives this result.
   */
  lemma StableSortUnique(s: seq<Post>, r: seq<Post>, key: SortKey)
    requires InOrder(r, key)
    requires forall p :: KeyClass(r, p, key) == KeyClass(s, p, key)
    ensures r == StableSort(s, key)
  {
    forall p
      ensures KeyClass(r, p, key) == KeyClass(StableSort(s, key), p, key)
    {
      StableSortKeyClass(s, p, key);
    }
    StableSortInOrder(s, key);
    OrderedClassesDetermine(r, StableSort(s, key), key);
  }

  /** The posts of `s` in the opposite order. */
  function Reversed(s: seq<Post>): seq<Post> {
    if s == [] then [] else Reversed(s[1..]) + [s[0]]
  }

  /** The k-th post of the reversal is the k-th post of `s` counted from the end. */
  lemma {:induction false} ReversedIndex(s: seq<Post>)
    ensures |Reversed(s)| == |s|
    ensures forall k :: 0 <= k < |s| ==> Reversed(s)[k] == s[|s| - 1 - k]
  {
    if s != [] {
      ReversedIndex(s[1..]);
    }
  }

  /** Newest and oldest first put the same posts level: those of equal date. */
  lemma {:induction false} KeyClassByDate(s: seq<Post>, p: Post)
    ensures KeyClass(s, p, Newest) == KeyClass(s, p, Oldest)
  {
    if s != [] {
      KeyClassByDate(s[1..], p);
    }
  }

  /** Reversing a sequence reverses each of its key classes. */
  lemma {:induction false} KeyClassReversed(s: seq<Post>, p: Post, key: SortKey)
    ensures KeyClass(Reversed(s), p, key) == Reversed(KeyClass(s, p, key))
  {
    if s != [] {
      KeyClassReversed(s[1..], p, key);
      KeyClassAppend(Reversed(s[1..]), [s[0]], p, key);
      KeyClassSingle(s[0], p, key);
      var tail := KeyClass(s[1..], p, key);
      if Compare(s[0], p, key) == 0 {
        assert ([s[0]] + tail)[1..] == tail;
      } else {
        assert KeyClass(s, p, key) == tail;
      }
    }
  }

  /** With pairwise distinct dates, a post shares its date with at most one post of `s`. */
  lemma {:induction false} KeyClassDistinctDates(s: seq<Post>, p: Post)
    requires forall i, j :: 0 <= i < j < |s| ==> s[i].publishedAt != s[j].publishedAt
    ensures |KeyClass(s, p, Oldest)| <= 1
  {
    if s != [] {
      if s[0].publishedAt == p.publishedAt {
        forall k | 0 <= k < |s[1..]|
          ensures Compare(s[1..][k], p, Oldest) != 0
        {
          assert s[1..][k] == s[k + 1];
        }
        KeyClassNone(s[1..], p, Oldest);
      } else {
        KeyClassDistinctDates(s[1..], p);
      }
    }
  }

  /** Reversing an oldest-first sequence gives a newest-first one. */
  lemma ReversedInOrder(s: seq<Post>)
    requires InOrder(s, Oldest)
    ensures InOrder(Reversed(s), Newest)
  {
    var r := Reversed(s);
    ReversedIndex(s);
    forall i, j | 0 <= i < j < |r|
      ensures Compare(r[i], r[j], Newest) <= 0
    {
      assert Compare(s[|s| - 1 - j], s[|s| - 1 - i], Oldest) <= 0;
    }
  }

  /** A sequence of at most one post is its own reversal. */
  lemma ReversedShort(s: seq<Post>)
    requires |s| <= 1
    ensures Reversed(s) == s
  {
    if s != [] {
      assert s[1..] == [];
    }
  }

  /**
   * When no two posts share a date, "newest" lists the posts in exactly the
   * reverse of the "oldest" order.
   */
  lemma NewestReversesOldest(s: seq<Post>)
    requires forall i, j :: 0 <= i < j < |s| ==> s[i].publishedAt != s[j].publishedAt
    ensures StableSort(s, Newest) == Reversed(StableSort(s, Oldest))
  {
    var oldest := StableSort(s, Oldest);
    StableSortInOrder(s, Oldest);
    ReversedInOrder(oldest);
    forall p
      ensures KeyClass(Reversed(oldest), p, Newest) == KeyClass(s, p, Newest)
    {
      KeyClassReversed(oldest, p, Newest);
      KeyClassByDate(oldest, p);
      StableSortKeyClass(s, p, Oldest);
      KeyClassByDate(s, p);
      KeyClassDistinctDates(s, p);
      ReversedShort(KeyClass(s, p, Oldest));
    }
    StableSortUnique(s, Reversed(oldest), Newest);
  }

  /**
   * Where the insertion point lies: in an ordered sequence, inserting `x` at
   * the first position whose post comes strictly after it is `Insert`.
   */
  lemma {:induction false} InsertAt(x: Post, s: seq<Post>, j: int, key: SortKey)
    requires InOrder(s, key) && 0 <= j <= |s|
    requires j > 0 ==> Compare(x, s[j - 1], key) >= 0
    requires forall k :: j <= k < |s| ==> Compare(x, s[k], key) < 0
    ensures Insert(x, s, key) == s[..j] + [x] + s[j..]
  {
    if j > 0 {
      assert Compare(x, s[0], key) >= 0 by {
        CompareAntisymmetric(x, s[j - 1], key);
        if j > 1 {
          CompareTransitive(s[0], s[j - 1], x, key);
        }
        CompareAntisymmetric(x, s[0], key);
      }
      InsertAt(x, s[1..], j - 1, key);
      assert s[..j] == [s[0]] + s[1..][..j - 1];
      assert s[j..] == s[1..][j - 1..];
    }
  }

  /** A post that sorts after every post of an ordered sequence is inserted at its end. */
  lemma InsertAtEnd(x: Post, s: seq<Post>, key: SortKey)
    requires InOrder(s, key) && s != [] && Compare(x, s[|s| - 1], key) >= 0
    ensures Insert(x, s, key) == s + [x]
  {
    InsertAt(x, s, |s|, key);
    assert s[..|s|] == s && s[|s|..] == [];
  }

  /** Sorting one more post of the input inserts it into the sorted prefix. */
  lemma StableSortStep(s: seq<Post>, i: int, key: SortKey)
    requires 0 <= i < |s|
    ensures StableSort(s[..i + 1], key) == Insert(s[i], StableSort(s[..i], key), key)
  {
    assert s[..i + 1][..i] == s[..i];
  }

  /** A post that sorts strictly before the head of the sorted prefix goes to the front. */
  lemma StableSortStepFront(s: seq<Post>, i: int, key: SortKey)
    requires 0 <= i < |s| && StableSort(s[..i], key) != []
    requires Compare(s[i], StableSort(s[..i], key)[0], key) < 0
    ensures StableSort(s[..i + 1], key) == [s[i]] + StableSort(s[..i], key)
  {
    StableSortStep(s, i, key);
  }

  /**
   * The inner loop of the insertion sort: shifts right, by one place, the
   * posts at the end of the ordered prefix `a[..i]` that must come strictly
   * after `x`, and returns the gap they leave.
   */
  method ShiftGreater(a: array<Post>, i: int, x: Post, key: SortKey) returns (j: int)
    requires 0 <= i < a.Length
    modifies a
    ensures 0 <= j <= i
    ensures forall k :: 0 <= k < j ==> a[k] == old(a[k])
    ensures forall k :: j < k <= i ==> a[k] == old(a[k - 1])
    ensures forall k :: i < k < a.Length ==> a[k] == old(a[k])
    ensures forall k :: j <= k < i ==> Compare(x, old(a[k]), key) < 0
    ensures j > 0 ==> Compare(x, old(a[j - 1]), key) >= 0
  {
    j := i;
    while j > 0 && Compare(x, a[j - 1], key) < 0
      invariant 0 <= j <= i
      invariant forall k :: 0 <= k < j ==> a[k] == old(a[k])
      invariant forall k :: j < k <= i ==> a[k] == old(a[k - 1])
      invariant forall k :: i < k < a.Length ==> a[k] == old(a[k])
      invariant forall k :: j <= k < i ==> Compare(x, old(a[k]), key) < 0
    {
      a[j] := a[j - 1];
      j := j - 1;
    }
  }

  /**
   * One step of the insertion sort: the post at index `i` moves left past
   * the posts of the ordered prefix that must come strictly after it.
   */
  method InsertInto(a: array<Post>, i: int, key: SortKey)
    requires 0 <= i < a.Length && InOrder(a[..i], key)
    modifies a
    ensures a[..i + 1] == Insert(old(a[i]), old(a[..i]), key)
    ensures forall k :: i < k < a.Length ==> a[k] == old(a[k])
  {
    var x := a[i];
    ghost var done := a[..i];
    var j := ShiftGreater(a, i, x, key);
    a[j] := x;
    InsertAt(x, done, j, key);
    ghost var expected := done[..j] + [x] + done[j..];
    forall k | 0 <= k <= i
      ensures a[k] == expected[k]
    {
      if k < j {
        assert expected[k] == done[k];
      } else if k > j {
        assert expected[k] == done[k - 1];
      }
    }
    assert a[..i + 1] == expected;
  }

  /**
   * `sorted.sort(comparator)` on an array, in place: insertion sort, which
   * inserts each post in turn into the sorted prefix before it.
   */
  method SortInPlace(a: array<Post>, key: SortKey)
    modifies a
    ensures a[..] == StableSort(old(a[..]), key)
  {
    ghost var input := a[..];
    var i := 0;
    while i < a.Length
      invariant 0 <= i <= a.Length
      invariant a[..i] == StableSort(input[..i], key)
      invariant forall k :: i <= k < a.Length ==> a[k] == input[k]
    {
      StableSortStep(input, i, key);
      StableSortInOrder(input[..i], key);
      InsertInto(a, i, key);
      i := i + 1;
    }
    assert input[..a.Length] == input;
  }

  /** What `sortPosts(posts, sortBy)` returns: sorted for a known option, unchanged otherwise. */
  function SortedBy(posts: seq<Post>, sortBy: string): seq<Post> {
    match SortKeyOf(sortBy)
    case Some(key) => StableSort(posts, key)
    case None => posts
  }

  /**
   * `sortPosts`: copies the posts into a new array and sorts the copy in place,
   * so the caller's posts are left as they were.
   */
  method SortPosts(posts: seq<Post>, sortBy: string) returns (sorted: seq<Post>)
    ensures sorted == SortedBy(posts, sortBy)
    ensures multiset(sorted) == multiset(posts)
    ensures SortKeyOf(sortBy) == None ==> sorted == posts
    ensures sortBy == "newest" ==>
      forall i, j :: 0 <= i < j < |sorted| ==> sorted[i].publishedAt >= sorted[j].publishedAt
    ensures sortBy == "oldest" ==>
      forall i, j :: 0 <= i < j < |sorted| ==> sorted[i].publishedAt <= sorted[j].publishedAt
    ensures sortBy == "most-viewed" ==>
      forall i, j :: 0 <= i < j < |sorted| ==> sorted[i].views >= sorted[j].views
    ensures sortBy == "alphabetical" ==>
      forall i, j :: 0 <= i < j < |sorted| ==> CompareStrings(sorted[i].title, sorted[j].title) <= 0
    ensures forall key, p :: SortKeyOf(sortBy) == Some(key) ==> KeyClass(sorted, p, key) == KeyClass(posts, p, key)
  {
    var copy := new Post[|posts|](i requires 0 <= i < |posts| => posts[i]);
    assert copy[..] == posts;
    var choice := SortKeyOf(sortBy);
    if choice.Some? {
      SortInPlace(copy, choice.value);
      StableSortPermutes(posts, choice.value);
      StableSortInOrder(posts, choice.value);
      forall p
        ensures KeyClass(copy[..], p, choice.value) == KeyClass(posts, p, choice.value)
      {
        StableSortKeyClass(posts, p, choice.value);
      }
    }
    sorted := copy[..];
  }
}
