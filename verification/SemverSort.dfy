/** Listing versions newest first: semverSort in internal/capabilities/capabilities.go. */
module SemverSort {
  import opened Decimal
  import opened Semver
  import opened SemverOrder
  import S = StableSort

  /** No comparison among these versions loops. */
  ghost predicate Comparable(atoi: Reading, vs: seq<Version>) {
    forall v, w :: v in vs && w in vs ==> !Stuck(atoi, v, w)
  }

  /** The comparison that is made with a reading of numerals. */
  function By(read: Reading): (Version, Version) -> int {
    (v, w) => Precedence(read, v, w)
  }

  lemma PrecedenceIsOrder(read: Reading)
    ensures S.IsOrder(By(read))
  {
    var cmp := By(read);
    forall u, v, w
      ensures cmp(v, v) == 0 && cmp(u, v) == -cmp(v, u)
      ensures cmp(u, v) <= 0 && cmp(v, w) <= 0 ==> cmp(u, w) <= 0
    {
      PrecedenceIsTotalPreorder(read, u, v, w);
    }
  }

  lemma StringsAreOrdered()
    ensures S.IsOrder(CompareStrings)
  {
    forall s, t, u
      ensures CompareStrings(s, s) == 0 && CompareStrings(s, t) == -CompareStrings(t, s)
      ensures CompareStrings(s, t) <= 0 && CompareStrings(t, u) <= 0 ==> CompareStrings(s, u) <= 0
    {
      StringsOrdered(s, t, u);
      StringsEqual(s, s);
    }
  }

  /** Inserts with the comparison of versions, which must not loop. */
  method Insert(atoi: Reading, s: seq<Version>, v: Version) returns (r: seq<Version>)
    requires Comparable(atoi, s + [v])
    ensures r == S.Insert(By(atoi), s, v)
  {
    var i := |s|;
    assert s[..i] == s && s[i..] == [];
    while i > 0
      invariant 0 <= i <= |s|
      invariant S.Insert(By(atoi), s, v) == S.Insert(By(atoi), s[..i], v) + s[i..]
      decreases i
    {
      assert s[i - 1] in s + [v] && v in s + [v];
      var c := Compare(atoi, s[i - 1], v);
      if c <= 0 {
        break;
      }
      i := i - 1;
      assert s[..i + 1][..i] == s[..i] && s[i..] == [s[i]] + s[i + 1..];
    }
    return s[..i] + [v] + s[i..];
  }

  lemma StillComparable(atoi: Reading, vs: seq<Version>, n: nat)
    requires Comparable(atoi, vs) && n < |vs|
    ensures Comparable(atoi, S.Sort(By(atoi), vs[..n]) + [vs[n]])
  {
    PrecedenceIsOrder(atoi);
    S.SortSorts(By(atoi), vs[..n]);
    var sorted := S.Sort(By(atoi), vs[..n]);
    forall v | v in sorted + [vs[n]]
      ensures v in vs
    {
      assert v in multiset(sorted) || v == vs[n];
    }
  }

  method SortVersions(atoi: Reading, vs: seq<Version>) returns (sorted: seq<Version>)
    requires Comparable(atoi, vs)
    ensures sorted == S.Sort(By(atoi), vs)
  {
    sorted := [];
    for n := 0 to |vs|
      invariant sorted == S.Sort(By(atoi), vs[..n])
    {
      assert vs[..n + 1][..n] == vs[..n];
      StillComparable(atoi, vs, n);
      sorted := Insert(atoi, sorted, vs[n]);
    }
    assert vs[..|vs|] == vs;
  }

  /** The versions that parse, in their order. */
  function Valid(s: seq<string>): seq<Version> {
    if s == [] then []
    else
      var r := Parse(s[|s| - 1]);
      Valid(s[..|s| - 1]) + if r.Ok? then [r.value] else []
  }

  function Invalid(s: seq<string>): seq<string> {
    if s == [] then []
    else Invalid(s[..|s| - 1]) + if Parse(s[|s| - 1]).Ok? then [] else [s[|s| - 1]]
  }

  lemma {:induction false} ValidOrInvalid(s: seq<string>)
    ensures |Valid(s)| + |Invalid(s)| == |s|
    ensures forall v :: v in Valid(s) ==> IsParsed(v)
    ensures forall x :: x in Invalid(s) ==> Parse(x).Err?
  {
    if s != [] {
      ValidOrInvalid(s[..|s| - 1]);
      if Parse(s[|s| - 1]).Ok? {
        ParsedIsParsed(s[|s| - 1]);
      }
    }
  }

  /** Every string is in its place in one of the two: behind as many as stand before it and go the same way. */
  lemma {:induction false} ValidOrInvalidAt(s: seq<string>, i: nat)
    requires i < |s|
    ensures match Parse(s[i])
      case Ok(v) => var n := |Valid(s[..i])|; n < |Valid(s)| && Valid(s)[n] == v
      case Err(_) => var n := |Invalid(s[..i])|; n < |Invalid(s)| && Invalid(s)[n] == s[i]
    decreases |s|
  {
    var init := s[..|s| - 1];
    if i < |s| - 1 {
      ValidOrInvalidAt(init, i);
      assert init[..i] == s[..i];
    }
  }

  function ListedVersions(read: Reading, vs: seq<Version>): seq<string> {
    S.Map(ToString, S.Reverse(S.Sort(By(read), vs)))
  }

  function ListedStrings(s: seq<string>): seq<string> {
    S.Reverse(S.Sort(CompareStrings, s))
  }

  /** The list that semverSort leaves: valid versions newest first, then invalid ones in descending order. */
  function Listed(read: Reading, s: seq<string>): seq<string> {
    ListedVersions(read, Valid(s)) + ListedStrings(Invalid(s))
  }

  method Partition(s: seq<string>) returns (versions: seq<Version>, invalid: seq<string>)
    ensures versions == Valid(s) && invalid == Invalid(s)
  {
    versions, invalid := [], [];
    for n := 0 to |s|
      invariant versions == Valid(s[..n]) && invalid == Invalid(s[..n])
    {
      assert s[..n + 1][..n] == s[..n];
      var r := Parse(s[n]);
      if r.Ok? {
        versions := versions + [r.value];
      } else {
        invalid := invalid + [s[n]];
      }
    }
    assert s[..|s|] == s;
  }

  /** Overwrites the strings from position k on. */
  method CopyTo(a: array<string>, k: nat, s: seq<string>)
    requires k + |s| <= a.Length
    modifies a
    ensures a[..] == old(a[..k]) + s + old(a[k + |s|..])
  {
    for i := 0 to |s|
      invariant forall j :: 0 <= j < a.Length ==> a[j] == if k <= j < k + i then s[j - k] else old(a[j])
    {
      a[k + i] := s[i];
    }
  }

  method Overwrite(a: array<string>, front: seq<string>, back: seq<string>)
    requires |front| + |back| == a.Length
    modifies a
    ensures a[..] == front + back
  {
    CopyTo(a, 0, front);
    assert a[..|front|] == front;
    if |back| > 0 {
      CopyTo(a, |front|, back);
    }
  }

  method SemverSort(atoi: Reading, a: array<string>)
    requires Comparable(atoi, Valid(a[..]))
    modifies a
    ensures a[..] == Listed(atoi, old(a[..]))
  {
    ghost var input := a[..];
    var versions, invalid := Partition(a[..]);
    assert |versions| + |invalid| == a.Length by {
      ValidOrInvalid(input);
    }
    LengthsKept(atoi, versions, invalid);
    var sorted := SortVersions(atoi, versions);
    var printed := S.Map(ToString, S.Reverse(sorted));
    var strings := ListedStrings(invalid);
    Overwrite(a, printed, strings);
  }

  lemma LengthsKept(read: Reading, vs: seq<Version>, s: seq<string>)
    ensures |ListedVersions(read, vs)| == |vs| && |ListedStrings(s)| == |s|
  {
    PrecedenceIsOrder(read);
    StringsAreOrdered();
    S.SortSorts(By(read), vs);
    S.SortSorts(CompareStrings, s);
    S.ReverseAt(S.Sort(By(read), vs));
    S.ReverseAt(S.Sort(CompareStrings, s));
  }

  /** All of these are versions, and no later one has a higher precedence. */
  ghost predicate NewestFirst(read: Reading, out: seq<string>) {
    && (forall i :: 0 <= i < |out| ==> Parse(out[i]).Ok?)
    && (forall i, j :: 0 <= i < j < |out| ==> Precedence(read, Parse(out[i]).value, Parse(out[j]).value) >= 0)
  }

  /** None of these is a version, and no later one is greater. */
  ghost predicate InvalidDescending(out: seq<string>) {
    && (forall i :: 0 <= i < |out| ==> Parse(out[i]).Err?)
    && (forall i, j :: 0 <= i < j < |out| ==> CompareStrings(out[i], out[j]) >= 0)
  }

  lemma PrintedParses(vs: seq<Version>, i: nat)
    requires i < |vs| && IsParsed(vs[i])
    ensures Parse(S.Map(ToString, vs)[i]) == Ok(vs[i])
  {
    ParseToString(vs[i]);
  }

  lemma ReversedDescends(read: Reading, vs: seq<Version>)
    ensures var r := S.Reverse(S.Sort(By(read), vs));
      && multiset(r) == multiset(vs)
      && forall i, j :: 0 <= i < j < |r| ==> Precedence(read, r[i], r[j]) >= 0
  {
    var sorted := S.Sort(By(read), vs);
    PrecedenceIsOrder(read);
    S.SortSorts(By(read), vs);
    S.ReverseAt(sorted);
    var r := S.Reverse(sorted);
    forall i, j | 0 <= i < j < |r|
      ensures Precedence(read, r[i], r[j]) >= 0
    {
      PrecedenceIsTotalPreorder(read, r[i], r[j], r[j]);
    }
  }

  lemma PrintedNewestFirst(read: Reading, vs: seq<Version>)
    requires forall v :: v in vs ==> IsParsed(v)
    requires forall i, j :: 0 <= i < j < |vs| ==> Precedence(read, vs[i], vs[j]) >= 0
    ensures NewestFirst(read, S.Map(ToString, vs))
  {
    var out := S.Map(ToString, vs);
    forall i | 0 <= i < |out|
      ensures Parse(out[i]) == Ok(vs[i])
    {
      PrintedParses(vs, i);
    }
    forall i, j | 0 <= i < j < |out|
      ensures Precedence(read, Parse(out[i]).value, Parse(out[j]).value) >= 0
    {
      var v, w := vs[i], vs[j];
      assert Parse(out[i]).value == v && Parse(out[j]).value == w;
      assert Precedence(read, v, w) >= 0;
    }
  }

  lemma ListedVersionsMean(read: Reading, vs: seq<Version>)
    requires forall v :: v in vs ==> IsParsed(v)
    ensures NewestFirst(read, ListedVersions(read, vs))
    ensures multiset(ListedVersions(read, vs)) == multiset(S.Map(ToString, vs))
  {
    var newestFirst := S.Reverse(S.Sort(By(read), vs));
    ReversedDescends(read, vs);
    forall v | v in newestFirst
      ensures IsParsed(v)
    {
      assert v in multiset(newestFirst);
    }
    PrintedNewestFirst(read, newestFirst);
    S.MapPermuted(ToString, newestFirst, vs);
  }

  lemma ListedStringsMean(s: seq<string>)
    requires forall x :: x in s ==> Parse(x).Err?
    ensures InvalidDescending(ListedStrings(s)) && multiset(ListedStrings(s)) == multiset(s)
  {
    StringsAreOrdered();
    S.SortSorts(CompareStrings, s);
    S.ReverseAt(S.Sort(CompareStrings, s));
    var out := ListedStrings(s);
    forall i | 0 <= i < |out|
      ensures Parse(out[i]).Err?
    {
      assert out[i] in multiset(out);
    }
  }

  /** What the list means: valid versions newest first, then invalid strings in descending order, nothing lost. */
  lemma ListedMeans(read: Reading, s: seq<string>)
    ensures var out, n := Listed(read, s), |Valid(s)|;
      && n <= |out| == |s|
      && NewestFirst(read, out[..n]) && multiset(out[..n]) == multiset(S.Map(ToString, Valid(s)))
      && InvalidDescending(out[n..]) && multiset(out[n..]) == multiset(Invalid(s))
  {
    ValidOrInvalid(s);
    LengthsKept(read, Valid(s), Invalid(s));
    ListedVersionsMean(read, Valid(s));
    ListedStringsMean(Invalid(s));
    var front, back := ListedVersions(read, Valid(s)), ListedStrings(Invalid(s));
    assert Listed(read, s)[..|front|] == front && Listed(read, s)[|front|..] == back;
  }

  /** Two versions, the first of which is not below the second. */
  ghost predicate NotBelow(read: Reading, s: string, t: string) {
    Parse(s).Ok? && Parse(t).Ok? && !VersionBelow(read, Parse(s).value, Parse(t).value)
  }

  /** Two other strings, likewise. */
  ghost predicate NotBelowAsWords(s: string, t: string) {
    Parse(s).Err? && Parse(t).Err? && !WordBelow(s, t)
  }

  /** No version is below a later one, and no invalid string is. */
  lemma ListedDescends(read: Reading, s: seq<string>, i: nat, j: nat)
    requires i < j < |s|
    ensures var out, n := Listed(read, s), |Valid(s)|;
      |out| == |s| && (j < n ==> NotBelow(read, out[i], out[j])) && (n <= i ==> NotBelowAsWords(out[i], out[j]))
  {
    ListedMeans(read, s);
    if j < |Valid(s)| {
      FrontDescends(read, Listed(read, s), |Valid(s)|, i, j);
    }
    if |Valid(s)| <= i {
      BackDescends(Listed(read, s), |Valid(s)|, i, j);
    }
  }

  lemma FrontDescends(read: Reading, out: seq<string>, n: nat, i: nat, j: nat)
    requires i < j < n <= |out| && NewestFirst(read, out[..n])
    ensures NotBelow(read, out[i], out[j])
  {
    var front := out[..n];
    assert front[i] == out[i] && front[j] == out[j];
    NewestDescends(read, front, i, j, out[i], out[j]);
  }

  lemma BackDescends(out: seq<string>, n: nat, i: nat, j: nat)
    requires n <= i < j < |out| && InvalidDescending(out[n..])
    ensures NotBelowAsWords(out[i], out[j])
  {
    var tail := out[n..];
    assert tail[i - n] == out[i] && tail[j - n] == out[j];
    InvalidDescends(tail, i - n, j - n, out[i], out[j]);
  }

  lemma NewestDescends(read: Reading, out: seq<string>, i: nat, j: nat, s: string, t: string)
    requires NewestFirst(read, out) && i < j < |out| && out[i] == s && out[j] == t
    ensures NotBelow(read, s, t)
  {
    PrecedenceMeans(read, Parse(out[i]).value, Parse(out[j]).value);
  }

  lemma InvalidDescends(out: seq<string>, i: nat, j: nat, s: string, t: string)
    requires InvalidDescending(out) && i < j < |out| && out[i] == s && out[j] == t
    ensures NotBelowAsWords(s, t)
  {
    StringsBelow(out[i], out[j]);
  }

  /** Versions of equal precedence keep the order they came in when sorted, and are listed in the opposite order. */
  lemma SortedVersionsAreStable(read: Reading, vs: seq<Version>, v: Version)
    ensures S.RankingWith(By(read), S.Sort(By(read), vs), v) == S.RankingWith(By(read), vs, v)
  {
    PrecedenceIsOrder(read);
    S.SortSorts(By(read), vs);
  }

  /** All numbers among the identifiers of these versions fit. */
  ghost predicate AllNumbersFit(vs: seq<Version>) {
    forall v :: v in vs ==> AllFit(v.preRelease)
  }

  lemma PrintedFits(s: seq<string>, text: string)
    requires AllNumbersFit(Valid(s)) && text in S.Map(ToString, Valid(s))
    ensures Parse(text).Ok? && AllFit(Parse(text).value.preRelease)
  {
    var i :| 0 <= i < |Valid(s)| && S.Map(ToString, Valid(s))[i] == text;
    ValidOrInvalid(s);
    PrintedParses(Valid(s), i);
    assert Valid(s)[i] in Valid(s);
  }

  /** Then newest means newest by the specification. */
  lemma ListedAsSpecified(atoi: Reading, s: seq<string>)
    requires IsConversion(atoi) && AllNumbersFit(Valid(s))
    ensures var out, n := Listed(atoi, s), |Valid(s)|;
      n <= |out| && NewestFirst(ByValue, out[..n])
    ensures Comparable(atoi, Valid(s)) <==> Comparable(ByValue, Valid(s))
  {
    forall v, w | v in Valid(s) && w in Valid(s)
      ensures Stuck(atoi, v, w) <==> Stuck(ByValue, v, w)
    {
      FittingIsSpecified(atoi, v, w);
    }
    ListedMeans(atoi, s);
    var out := Listed(atoi, s)[..|Valid(s)|];
    forall i | 0 <= i < |out|
      ensures AllFit(Parse(out[i]).value.preRelease)
    {
      assert out[i] in multiset(S.Map(ToString, Valid(s)));
      PrintedFits(s, out[i]);
    }
    forall i, j | 0 <= i < j < |out|
      ensures Precedence(ByValue, Parse(out[i]).value, Parse(out[j]).value) >= 0
    {
      FittingIsSpecified(atoi, Parse(out[i]).value, Parse(out[j]).value);
    }
  }
}
