/** Sequence utilities shared by the dashboard model: first-occurrence
    de-duplication (pandas `unique`), order-preserving filtering (boolean
    masks), and the stable "n largest" selection (`nlargest`, `head`). */
module Collections {

  datatype Option<T> = None | Some(value: T)

  /** No element occurs twice. */
  predicate NoDup<T(==)>(s: seq<T>) {
    forall i, j :: 0 <= i < j < |s| ==> s[i] != s[j]
  }

  /** The distinct elements of `s`, each at the place it first occurs. */
  function Unique<T(==,!new)>(s: seq<T>): (u: seq<T>)
    ensures NoDup(u)
    ensures forall x :: x in u <==> x in s
    ensures |u| <= |s|
    decreases |s|
  {
    if s == [] then []
    else
      var init, last := s[..|s| - 1], s[|s| - 1];
      assert s == init + [last];
      var u := Unique(init);
      if last in u then u else u + [last]
  }

  /** The position of the first occurrence of `x` in `s`. */
  function FirstIndex<T(==)>(s: seq<T>, x: T): (i: nat)
    requires x in s
    ensures i < |s| && s[i] == x
    ensures forall j :: 0 <= j < i ==> s[j] != x
  {
    if s[0] == x then 0 else 1 + FirstIndex(s[1..], x)
  }

  /** An element of a prefix first occurs at the same place in the whole. */
  lemma FirstIndexPrefix<T>(s: seq<T>, n: nat, x: T)
    requires n <= |s| && x in s[..n]
    ensures FirstIndex(s, x) == FirstIndex(s[..n], x)
  {
    var i, k := FirstIndex(s, x), FirstIndex(s[..n], x);
    assert s[k] == x;
    assert i <= k;
    assert s[..n][i] == x;
  }

  /** `unique()` lists the distinct elements in the order of their first
      occurrences. */
  lemma {:induction false} UniqueOrder<T(!new)>(s: seq<T>)
    ensures forall i, j :: 0 <= i < j < |Unique(s)| ==>
      FirstIndex(s, Unique(s)[i]) < FirstIndex(s, Unique(s)[j])
    decreases |s|
  {
    if s != [] {
      var n := |s| - 1;
      var init, last := s[..n], s[n];
      var u, v := Unique(init), Unique(s);
      UniqueOrder(init);
      forall i, j | 0 <= i < j < |v| ensures FirstIndex(s, v[i]) < FirstIndex(s, v[j]) {
        assert v[i] == u[i] && u[i] in init;
        FirstIndexPrefix(s, n, u[i]);
        if j < |u| {
          assert v[j] == u[j] && u[j] in init;
          FirstIndexPrefix(s, n, u[j]);
        } else {
          assert v[j] == last && last !in init;
          assert FirstIndex(s, last) == n;
        }
      }
    }
  }

  /** `f` applied to every element, in place. */
  function Map<T, U>(s: seq<T>, f: T -> U): (r: seq<U>)
    ensures |r| == |s|
    ensures forall i :: 0 <= i < |s| ==> r[i] == f(s[i])
  {
    seq(|s|, i requires 0 <= i < |s| => f(s[i]))
  }

  /** The elements of `s` that satisfy `p`, in their original order. */
  function Filter<T(!new)>(s: seq<T>, p: T -> bool): (r: seq<T>)
    ensures forall x :: x in r <==> x in s && p(x)
    ensures |r| <= |s|
  {
    if s == [] then []
    else if p(s[0]) then [s[0]] + Filter(s[1..], p)
    else Filter(s[1..], p)
  }

  /** Filtering a concatenation filters each part and keeps them in order,
      so the filter never reorders what it keeps. */
  lemma {:induction false} FilterAppend<T(!new)>(a: seq<T>, b: seq<T>, p: T -> bool)
    ensures Filter(a + b, p) == Filter(a, p) + Filter(b, p)
  {
    if a != [] {
      assert (a + b)[0] == a[0];
      assert (a + b)[1..] == a[1..] + b;
      FilterAppend(a[1..], b, p);
    } else {
      assert a + b == b;
    }
  }

  /** A filter that keeps everything is the identity. */
  lemma {:induction false} FilterAll<T(!new)>(s: seq<T>, p: T -> bool)
    requires forall x :: x in s ==> p(x)
    ensures Filter(s, p) == s
  {
    if s != [] {
      FilterAll(s[1..], p);
    }
  }

  // ---------------------------------------------------------------------
  // Counting and multisets

  /** A prefix of a prefix. */
  lemma PrefixOfPrefix<T>(s: seq<T>, n: nat, j: nat)
    requires j < n <= |s|
    ensures s[..n][..j] == s[..j] && s[..n][j] == s[j]
  {
  }

  lemma {:induction false} NoDupCount<T>(s: seq<T>, x: T)
    requires NoDup(s)
    ensures multiset(s)[x] <= 1
  {
    if s != [] {
      assert s == [s[0]] + s[1..];
      assert NoDup(s[1..]) by {
        forall i, j | 0 <= i < j < |s[1..]| ensures s[1..][i] != s[1..][j] {
          assert s[1..][i] == s[i + 1] && s[1..][j] == s[j + 1];
        }
      }
      NoDupCount(s[1..], x);
      if s[0] == x {
        assert x !in s[1..];
      }
    }
  }

  lemma RepeatedCount<T>(s: seq<T>, i: int, j: int)
    requires 0 <= i < j < |s| && s[i] == s[j]
    ensures multiset(s)[s[i]] >= 2
  {
    assert s == s[..j] + s[j..];
    assert s[i] in s[..j];
    assert s[j] in s[j..];
  }

  /** A sub-multiset of a duplicate-free sequence is duplicate-free. */
  lemma SubMultisetNoDup<T>(r: seq<T>, s: seq<T>)
    requires NoDup(s) && multiset(r) <= multiset(s)
    ensures NoDup(r)
  {
    forall i, j | 0 <= i < j < |r| ensures r[i] != r[j] {
      if r[i] == r[j] {
        RepeatedCount(r, i, j);
        NoDupCount(s, r[i]);
      }
    }
  }

  /** A duplicate-free sequence has as many elements as the set of its
      members. */
  lemma NoDupCard<T>(s: seq<T>, x: set<T>)
    requires NoDup(s)
    requires forall a :: a in s <==> a in x
    ensures |s| == |x|
    decreases |s|
  {
    if s != [] {
      var t := s[1..];
      assert NoDup(t) by {
        forall i, j | 0 <= i < j < |t| ensures t[i] != t[j] {
          assert t[i] == s[i + 1] && t[j] == s[j + 1];
        }
      }
      assert s[0] !in t;
      assert forall a :: a in t <==> a in x - {s[0]} by {
        assert s == [s[0]] + t;
      }
      NoDupCard(t, x - {s[0]});
    }
  }

  /** A subset is no larger than its superset. */
  lemma {:induction false} SubsetCard<T>(a: set<T>, b: set<T>)
    requires a <= b
    ensures |a| <= |b|
    decreases |b|
  {
    if b != {} {
      var x :| x in b;
      SubsetCard(a - {x}, b - {x});
    }
  }

  /** A subset as large as its superset is the whole set. */
  lemma SubsetSameSize<T>(a: set<T>, b: set<T>)
    requires a <= b && |a| == |b|
    ensures a == b
  {
    if a != b {
      var x :| x in b && x !in a;
      SubsetCard(a, b - {x});
    }
  }

  // ---------------------------------------------------------------------
  // Stable descending sort and "n largest" by a score function

  predicate NonIncreasing<T>(s: seq<T>, score: T -> int) {
    forall i, j :: 0 <= i < j < |s| ==> score(s[i]) >= score(s[j])
  }

  /** Puts `x` in front of every element whose score is not greater, so an
      earlier element stays ahead of a later one with the same score. */
  function InsertDesc<T>(x: T, s: seq<T>, score: T -> int): (r: seq<T>)
    requires NonIncreasing(s, score)
    ensures NonIncreasing(r, score)
    ensures multiset(r) == multiset(s) + multiset{x}
  {
    if s == [] || score(x) >= score(s[0]) then
      ConsNonIncreasing(x, s, score);
      [x] + s
    else
      var rest := s[1..];
      assert s == [s[0]] + rest;
      var t := InsertDesc(x, rest, score);
      assert t[0] in multiset(rest) + multiset{x};
      ConsNonIncreasing(s[0], t, score);
      [s[0]] + t
  }

  lemma ConsNonIncreasing<T>(h: T, t: seq<T>, score: T -> int)
    requires NonIncreasing(t, score)
    requires t == [] || score(h) >= score(t[0])
    ensures NonIncreasing([h] + t, score)
  {
    var r := [h] + t;
    forall i, j | 0 <= i < j < |r| ensures score(r[i]) >= score(r[j]) {
      assert r[j] == t[j - 1];
      if i > 0 {
        assert r[i] == t[i - 1];
      } else {
        assert score(t[0]) >= score(t[j - 1]);
      }
    }
  }

  /** Stable sort by descending score (insertion sort from the back). */
  function SortDesc<T>(s: seq<T>, score: T -> int): (r: seq<T>)
    ensures NonIncreasing(r, score)
    ensures multiset(r) == multiset(s)
    ensures |r| == |s|
  {
    if s == [] then []
    else
      assert s == [s[0]] + s[1..];
      InsertDesc(s[0], SortDesc(s[1..], score), score)
  }

  function Min(a: int, b: int): int {
    if a <= b then a else b
  }

  /** The `k` highest-scored elements, best first (pandas `nlargest(k)`,
      or a descending sort followed by `head(k)`). Which of several
      equally scored elements are kept is not part of the contract. */
  function TopK<T>(s: seq<T>, k: nat, score: T -> int): (r: seq<T>)
    ensures |r| == Min(k, |s|)
    ensures NonIncreasing(r, score)
    ensures multiset(r) <= multiset(s)
    ensures forall y, x :: y in multiset(s) - multiset(r) && x in r ==> score(y) <= score(x)
  {
    var t := SortDesc(s, score);
    var n := Min(k, |t|);
    SplitNonIncreasing(t, n, score);
    t[..n]
  }

  /** Cutting a descending sequence leaves nothing in the tail that scores
      more than anything in the head. */
  lemma SplitNonIncreasing<T>(t: seq<T>, n: nat, score: T -> int)
    requires NonIncreasing(t, score) && n <= |t|
    ensures NonIncreasing(t[..n], score)
    ensures multiset(t[..n]) <= multiset(t)
    ensures multiset(t) - multiset(t[..n]) == multiset(t[n..])
    ensures forall y, x :: y in multiset(t[n..]) && x in t[..n] ==> score(y) <= score(x)
  {
    assert t == t[..n] + t[n..];
    forall y, x | y in multiset(t[n..]) && x in t[..n] ensures score(y) <= score(x) {
      var j :| 0 <= j < |t[n..]| && t[n..][j] == y;
      var i :| 0 <= i < n && t[..n][i] == x;
      assert t[i] == x && t[n + j] == y;
    }
  }

  /** Everything selected comes from the input. */
  lemma TopKMembers<T>(s: seq<T>, k: nat, score: T -> int)
    ensures forall x :: x in TopK(s, k, score) ==> x in s
  {
    var r := TopK(s, k, score);
    forall x | x in r ensures x in s {
      assert x in multiset(s);
    }
  }

  /** In a non-increasing sequence every score lies between the last and
      the first. */
  lemma NonIncreasingEnds<T>(r: seq<T>, score: T -> int)
    requires NonIncreasing(r, score) && r != []
    ensures forall x :: x in r ==> score(r[|r| - 1]) <= score(x) <= score(r[0])
  {
    forall x | x in r ensures score(r[|r| - 1]) <= score(x) <= score(r[0]) {
      var i :| 0 <= i < |r| && r[i] == x;
      if 0 < i {
        assert score(r[0]) >= score(r[i]);
      }
      if i < |r| - 1 {
        assert score(r[i]) >= score(r[|r| - 1]);
      }
    }
  }

  /** The first element selected has the highest score of the input. */
  lemma TopKHead<T>(s: seq<T>, k: nat, score: T -> int)
    requires 0 < k && s != []
    ensures var r := TopK(s, k, score);
      && r != [] && r[0] in s
      && (forall y :: y in s ==> score(y) <= score(r[0]))
  {
    var t := SortDesc(s, score);
    assert TopK(s, k, score)[0] == t[0];
    assert t[0] in multiset(s);
    forall y | y in s ensures score(y) <= score(t[0]) {
      assert y in multiset(t);
      var j :| 0 <= j < |t| && t[j] == y;
      assert j == 0 || score(t[0]) >= score(t[j]);
    }
  }

  /** Something is selected, and every element selected scores between the
      last and the first. */
  lemma TopKEnds<T>(s: seq<T>, k: nat, score: T -> int)
    requires 0 < k && s != []
    ensures var r := TopK(s, k, score);
      && r != []
      && (forall x :: x in r ==> score(r[|r| - 1]) <= score(x) <= score(r[0]))
  {
    var r := TopK(s, k, score);
    NonIncreasingEnds(r, score);
  }

  /** The tags of the elements of `s`. */
  function Tags<T(==), L>(s: seq<T>, tag: T -> L): set<L> {
    set x | x in s :: tag(x)
  }

  lemma TagsAbsent<T, L>(s: seq<T>, tag: T -> L, a: L)
    requires forall x :: x in s ==> tag(x) != a
    ensures a !in Tags(s, tag)
  {
  }

  /** When the elements carry pairwise different tags there are as many
      tags as elements. */
  lemma DistinctTagsCard<T, L>(s: seq<T>, tag: T -> L)
    requires forall i, j :: 0 <= i < j < |s| ==> tag(s[i]) != tag(s[j])
    ensures |Tags(s, tag)| == |s|
  {
    var tags := seq(|s|, i requires 0 <= i < |s| => tag(s[i]));
    assert NoDup(tags) by {
      forall i, j | 0 <= i < j < |tags| ensures tags[i] != tags[j] {
        assert tags[i] == tag(s[i]) && tags[j] == tag(s[j]);
      }
    }
    assert forall a :: a in tags <==> a in Tags(s, tag) by {
      forall a | a in Tags(s, tag) ensures a in tags {
        var x :| x in s && tag(x) == a;
        var i :| 0 <= i < |s| && s[i] == x;
        assert tags[i] == a;
      }
    }
    NoDupCard(tags, Tags(s, tag));
  }

  /** When the ranked elements carry pairwise different tags, so do the
      selected ones. */
  lemma TopKDistinctTags<T, L>(s: seq<T>, k: nat, score: T -> int, tag: T -> L)
    requires forall i, j :: 0 <= i < j < |s| ==> tag(s[i]) != tag(s[j])
    ensures forall i, j :: 0 <= i < j < |TopK(s, k, score)| ==>
      tag(TopK(s, k, score)[i]) != tag(TopK(s, k, score)[j])
  {
    var r := TopK(s, k, score);
    assert NoDup(s);
    SubMultisetNoDup(r, s);
    forall i, j | 0 <= i < j < |r| ensures tag(r[i]) != tag(r[j]) {
      assert r[i] in multiset(s) && r[j] in multiset(s);
      var p :| 0 <= p < |s| && s[p] == r[i];
      var q :| 0 <= q < |s| && s[q] == r[j];
      assert p != q;
    }
  }

  /** With pairwise different tags the selection holds min(k, |s|) of the
      tags of the input. */
  lemma TopKTagCount<T, L>(s: seq<T>, k: nat, score: T -> int, tag: T -> L)
    requires forall i, j :: 0 <= i < j < |s| ==> tag(s[i]) != tag(s[j])
    ensures Tags(TopK(s, k, score), tag) <= Tags(s, tag)
    ensures |Tags(TopK(s, k, score), tag)| == Min(k, |s|)
  {
    TopKMembers(s, k, score);
    TopKDistinctTags(s, k, score, tag);
    DistinctTagsCard(TopK(s, k, score), tag);
  }

  /** Every element whose tag the selection leaves out scores no more than
      any element kept. */
  lemma TopKOmittedTag<T, L>(s: seq<T>, k: nat, score: T -> int, tag: T -> L)
    ensures forall y, x ::
      (y in s && tag(y) !in Tags(TopK(s, k, score), tag) && x in TopK(s, k, score))
      ==> score(y) <= score(x)
  {
    forall y, x | y in s && tag(y) !in Tags(TopK(s, k, score), tag) && x in TopK(s, k, score)
      ensures score(y) <= score(x)
    {
      TopKOmittedTagAt(s, k, score, tag, y, x);
    }
  }

  /** One element `y` whose tag is not selected against one selected `x`. */
  lemma TopKOmittedTagAt<T, L>(s: seq<T>, k: nat, score: T -> int, tag: T -> L, y: T, x: T)
    requires y in s && tag(y) !in Tags(TopK(s, k, score), tag) && x in TopK(s, k, score)
    ensures score(y) <= score(x)
  {
    var r := TopK(s, k, score);
    assert y !in r;
    assert y in multiset(s) - multiset(r);
  }
}
