/** Stable sorting, reversing and mapping, as package slices does it. */
module StableSort {

  /** A comparison that is total and transitive; results below zero mean less, above zero greater. */
  ghost predicate IsOrder<T(!new)>(cmp: (T, T) -> int) {
    && (forall x :: cmp(x, x) == 0)
    && (forall x, y :: cmp(x, y) == -cmp(y, x))
    && (forall x, y, z :: cmp(x, y) <= 0 && cmp(y, z) <= 0 ==> cmp(x, z) <= 0)
  }

  /** Puts x behind all elements that are not greater. */
  function Insert<T>(cmp: (T, T) -> int, s: seq<T>, x: T): seq<T> {
    if s == [] || cmp(s[|s| - 1], x) <= 0 then s + [x]
    else Insert(cmp, s[..|s| - 1], x) + [s[|s| - 1]]
  }

  function Sort<T>(cmp: (T, T) -> int, s: seq<T>): seq<T> {
    if s == [] then [] else Insert(cmp, Sort(cmp, s[..|s| - 1]), s[|s| - 1])
  }

  predicate Ascending<T>(cmp: (T, T) -> int, s: seq<T>) {
    forall i, j :: 0 <= i < j < |s| ==> cmp(s[i], s[j]) <= 0
  }

  lemma {:induction false} InsertKeepsAll<T>(cmp: (T, T) -> int, s: seq<T>, x: T)
    ensures multiset(Insert(cmp, s, x)) == multiset(s) + multiset{x}
    ensures |Insert(cmp, s, x)| == |s| + 1
  {
    if s != [] && cmp(s[|s| - 1], x) > 0 {
      InsertKeepsAll(cmp, s[..|s| - 1], x);
      assert s == s[..|s| - 1] + [s[|s| - 1]];
    }
  }

  lemma {:induction false} InsertAscends<T(!new)>(cmp: (T, T) -> int, s: seq<T>, x: T)
    requires IsOrder(cmp) && Ascending(cmp, s)
    ensures Ascending(cmp, Insert(cmp, s, x))
  {
    if s != [] && cmp(s[|s| - 1], x) > 0 {
      var init, last := s[..|s| - 1], s[|s| - 1];
      var r := Insert(cmp, init, x);
      InsertAscends(cmp, init, x);
      InsertKeepsAll(cmp, init, x);
      forall i | 0 <= i < |r|
        ensures cmp(r[i], last) <= 0
      {
        assert r[i] in multiset(r);
        assert r[i] == x || r[i] in init;
        assert cmp(x, last) == -cmp(last, x);
      }
    }
  }

  /** The elements that rank with x, in their order. */
  function RankingWith<T>(cmp: (T, T) -> int, s: seq<T>, x: T): seq<T> {
    if s == [] then []
    else RankingWith(cmp, s[..|s| - 1], x) + if cmp(s[|s| - 1], x) == 0 then [s[|s| - 1]] else []
  }

  lemma {:induction false} InsertIsStable<T(!new)>(cmp: (T, T) -> int, s: seq<T>, y: T, x: T)
    requires IsOrder(cmp)
    ensures RankingWith(cmp, Insert(cmp, s, y), x) == RankingWith(cmp, s, x) + if cmp(y, x) == 0 then [y] else []
  {
    if s == [] || cmp(s[|s| - 1], y) <= 0 {
      assert (s + [y])[..|s|] == s;
    } else {
      var init, last := s[..|s| - 1], s[|s| - 1];
      InsertIsStable(cmp, init, y, x);
      var r := Insert(cmp, init, y);
      assert (r + [last])[..|r|] == r;
      assert cmp(y, x) == 0 && cmp(last, x) == 0 ==> cmp(x, y) <= 0 && cmp(last, y) <= 0;
    }
  }

  /** Sorted, a sequence is in ascending order, with all its elements, those of equal rank in the order they came in. */
  lemma {:induction false} SortSorts<T(!new)>(cmp: (T, T) -> int, s: seq<T>)
    requires IsOrder(cmp)
    ensures Ascending(cmp, Sort(cmp, s)) && multiset(Sort(cmp, s)) == multiset(s) && |Sort(cmp, s)| == |s|
    ensures forall x :: RankingWith(cmp, Sort(cmp, s), x) == RankingWith(cmp, s, x)
  {
    if s != [] {
      var init, last := s[..|s| - 1], s[|s| - 1];
      SortSorts(cmp, init);
      InsertAscends(cmp, Sort(cmp, init), last);
      InsertKeepsAll(cmp, Sort(cmp, init), last);
      assert s == init + [last];
      forall x
        ensures RankingWith(cmp, Sort(cmp, s), x) == RankingWith(cmp, s, x)
      {
        InsertIsStable(cmp, Sort(cmp, init), last, x);
      }
    }
  }

  function Reverse<T>(s: seq<T>): seq<T> {
    if s == [] then [] else [s[|s| - 1]] + Reverse(s[..|s| - 1])
  }

  lemma {:induction false} ReverseAt<T>(s: seq<T>)
    ensures |Reverse(s)| == |s| && multiset(Reverse(s)) == multiset(s)
    ensures forall i :: 0 <= i < |s| ==> Reverse(s)[i] == s[|s| - 1 - i]
  {
    if s != [] {
      ReverseAt(s[..|s| - 1]);
      assert s == s[..|s| - 1] + [s[|s| - 1]];
    }
  }

  function Map<T, U>(f: T -> U, s: seq<T>): (r: seq<U>)
    ensures |r| == |s| && forall i :: 0 <= i < |s| ==> r[i] == f(s[i])
  {
    if s == [] then [] else Map(f, s[..|s| - 1]) + [f(s[|s| - 1])]
  }

  lemma {:induction false} MapPermuted<T, U>(f: T -> U, s: seq<T>, t: seq<T>)
    requires multiset(s) == multiset(t)
    ensures multiset(Map(f, s)) == multiset(Map(f, t))
    decreases |s|
  {
    if s == [] {
      assert |t| == |multiset(t)| == |multiset(s)| == 0;
    } else {
      var init, last := s[..|s| - 1], s[|s| - 1];
      assert s == init + [last];
      assert last in multiset(t);
      var i :| 0 <= i < |t| && t[i] == last;
      assert t == t[..i] + [last] + t[i + 1..];
      assert multiset(init) == multiset(s) - multiset{last};
      assert multiset(t[..i] + t[i + 1..]) == multiset(t) - multiset{last};
      MapPermuted(f, init, t[..i] + t[i + 1..]);
      MapWithout(f, t[..i], last, t[i + 1..]);
    }
  }

  lemma MapAppend<T, U>(f: T -> U, s: seq<T>, t: seq<T>)
    ensures Map(f, s + t) == Map(f, s) + Map(f, t)
  {
  }

  lemma MapWithout<T, U>(f: T -> U, before: seq<T>, x: T, after: seq<T>)
    ensures multiset(Map(f, before + [x] + after)) == multiset(Map(f, before + after)) + multiset{f(x)}
  {
    MapAppend(f, before + [x], after);
    MapAppend(f, before, [x]);
    MapAppend(f, before, after);
    assert Map(f, [x]) == [f(x)];
  }
}
