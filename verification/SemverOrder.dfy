/** Comparing semantic versions: Version.Compare in internal/semver/semver.go against the precedence rules of
    item 11 of Semantic Versioning 2.0.0. */
module SemverOrder {
  import opened Decimal
  import opened Semver

  // ----- The specification -----

  /** What an identifier counts as: nothing, a number, or a word. */
  datatype Identifier = Empty | Number(n: int) | Word(s: string)

  /** How a numeral is read is a parameter: ByValue is the specification, the source has its own conversion. */
  type Reading = string -> int

  function IdentifierOf(read: Reading, s: string): Identifier {
    if s == "" then Empty else if IsNumeral(s) then Number(read(s)) else Word(s)
  }

  function Sign(x: int, y: int): int {
    if x < y then -1 else if x > y then 1 else 0
  }

  function CompareStrings(s: string, t: string): (c: int)
    ensures -1 <= c <= 1
  {
    if s == "" || t == "" then Sign(|s|, |t|)
    else if s[0] != t[0] then Sign(s[0] as int, t[0] as int)
    else CompareStrings(s[1..], t[1..])
  }

  /** Numbers by value, words by their characters, numbers before words, nothing before everything. */
  function CompareIdentifiers(a: Identifier, b: Identifier): int {
    match (a, b)
    case (Number(m), Number(n)) => Sign(m, n)
    case (Word(s), Word(t)) => CompareStrings(s, t)
    case _ => Sign(Rank(a), Rank(b))
  }

  function Rank(a: Identifier): int {
    match a case Empty => 0 case Number(_) => 1 case Word(_) => 2
  }

  /** From left to right; if all identifiers of the shorter list agree, the longer list is greater. */
  function CompareLists(xs: seq<Identifier>, ys: seq<Identifier>): int {
    if xs == [] || ys == [] then Sign(|xs|, |ys|)
    else
      var c := CompareIdentifiers(xs[0], ys[0]);
      if c != 0 then c else CompareLists(xs[1..], ys[1..])
  }

  function Canon(read: Reading, s: string): (ids: seq<Identifier>)
    ensures |ids| > 0
  {
    var parts := Identifiers(s);
    seq(|parts|, i requires 0 <= i < |parts| => IdentifierOf(read, parts[i]))
  }

  /** Major, minor and patch first; a version without a pre-release is greater than one with it. */
  function Precedence(read: Reading, v: Version, w: Version): int {
    if v.major != w.major then Sign(v.major, w.major)
    else if v.minor != w.minor then Sign(v.minor, w.minor)
    else if v.patch != w.patch then Sign(v.patch, w.patch)
    else if v.preRelease == w.preRelease then 0
    else if v.preRelease == "" then 1
    else if w.preRelease == "" then -1
    else CompareLists(Canon(read, v.preRelease), Canon(read, w.preRelease))
  }

  // ----- The loop -----

  /** The local variables of the loop. */
  datatype Locals = Locals(a: string, afterA: string, b: string, afterB: string)

  datatype Turn = Return(r: int) | Again(next: Locals)

  function FirstLocals(v: Version, w: Version): Locals {
    var (a, afterA) := Cut(v.preRelease, '.');
    var (b, afterB) := Cut(w.preRelease, '.');
    Locals(a, afterA, b, afterB)
  }

  function NextLocals(l: Locals): Locals {
    var (a, afterA) := Cut(l.afterA, '.');
    var (b, afterB) := Cut(l.afterB, '.');
    Locals(a, afterA, b, afterB)
  }

  /** The identifiers that are left, the current one included. */
  function Left(read: Reading, part: string, rest: string): seq<Identifier> {
    [IdentifierOf(read, part)] + if rest == "" then [] else Canon(read, rest)
  }

  function CompareLeft(read: Reading, l: Locals): int {
    CompareLists(Left(read, l.a, l.afterA), Left(read, l.b, l.afterB))
  }

  /** What one turn of the loop does. */
  function OneTurn(read: Reading, l: Locals): Turn {
    if l.a == "" && l.b != "" then Return(-1)
    else if l.a != "" && l.b == "" then Return(1)
    else if IsNumeral(l.a) && !IsNumeral(l.b) then Return(-1)
    else if !IsNumeral(l.a) && IsNumeral(l.b) then Return(1)
    else
      var c := CompareParts(read, l.a, l.b);
      if c != 0 then Return(c)
      else if l.afterA != "" && l.afterB == "" then Return(1)
      else if l.afterA == "" && l.afterB != "" then Return(-1)
      else Again(NextLocals(l))
  }

  lemma CanonSplit(read: Reading, s: string)
    ensures var (part, rest) := Cut(s, '.'); Canon(read, s) == Left(read, part, rest)
  {
  }

  lemma {:induction false} StringsEqual(s: string, t: string)
    ensures CompareStrings(s, t) == 0 <==> s == t
  {
    if s != "" && t != "" {
      StringsEqual(s[1..], t[1..]);
      assert s == [s[0]] + s[1..] && t == [t[0]] + t[1..];
    }
  }

  /** The comparison of one pair of identifiers in the loop. */
  function CompareParts(read: Reading, a: string, b: string): int {
    if IsNumeral(a) && IsNumeral(b) then Sign(read(a), read(b)) else CompareStrings(a, b)
  }

  lemma PartsCompare(read: Reading, a: string, b: string)
    requires (a == "") == (b == "") && IsNumeral(a) == IsNumeral(b)
    ensures CompareIdentifiers(IdentifierOf(read, a), IdentifierOf(read, b)) == CompareParts(read, a, b)
  {
  }

  lemma LeftCompares(read: Reading, l: Locals)
    ensures CompareLeft(read, l) ==
      var c := CompareIdentifiers(IdentifierOf(read, l.a), IdentifierOf(read, l.b));
      if c != 0 then c
      else if l.afterA == "" || l.afterB == "" then Sign(|l.afterA|, |l.afterB|)
      else CompareLists(Canon(read, l.afterA), Canon(read, l.afterB))
  {
    var xs, ys := Left(read, l.a, l.afterA), Left(read, l.b, l.afterB);
    var restA := if l.afterA == "" then [] else Canon(read, l.afterA);
    var restB := if l.afterB == "" then [] else Canon(read, l.afterB);
    assert xs[1..] == restA && ys[1..] == restB;
    assert xs[0] == IdentifierOf(read, l.a) && ys[0] == IdentifierOf(read, l.b);
    var c := CompareIdentifiers(xs[0], ys[0]);
    assert CompareLists(xs, ys) == if c != 0 then c else CompareLists(restA, restB);
    if restA == [] || restB == [] {
      assert CompareLists(restA, restB) == Sign(|restA|, |restB|);
    }
  }

  /** A turn returns what the lists that are left compare to, or goes on with lists that compare the same. */
  lemma TurnCompares(read: Reading, l: Locals)
    ensures match OneTurn(read, l)
      case Return(r) => r == CompareLeft(read, l) && r != 0
      case Again(next) =>
        if l.afterA == "" then CompareLeft(read, l) == 0 && l.afterB == "" && next == Locals("", "", "", "")
        else l.afterB != "" && CompareLeft(read, l) == CompareLeft(read, next) && |next.afterA| < |l.afterA|
  {
    CanonSplit(read, l.afterA);
    CanonSplit(read, l.afterB);
    LeftCompares(read, l);
    if (l.a == "") == (l.b == "") && IsNumeral(l.a) == IsNumeral(l.b) {
      PartsCompare(read, l.a, l.b);
    }
  }

  // ----- When the loop ends -----

  /** Different pre-releases of equal versions whose identifiers nevertheless agree one by one. */
  predicate Stuck(read: Reading, v: Version, w: Version) {
    && v.major == w.major && v.minor == w.minor && v.patch == w.patch
    && v.preRelease != w.preRelease && v.preRelease != "" && w.preRelease != ""
    && CompareLists(Canon(read, v.preRelease), Canon(read, w.preRelease)) == 0
  }

  /** The loop, started with l, is still running after n turns. */
  predicate RunsFor(read: Reading, l: Locals, n: nat)
    decreases n
  {
    n == 0 || (OneTurn(read, l).Again? && RunsFor(read, OneTurn(read, l).next, n - 1))
  }

  lemma {:induction false} RunsForever(read: Reading, l: Locals, n: nat)
    requires CompareLeft(read, l) == 0
    ensures RunsFor(read, l, n)
    decreases n
  {
    if n > 0 {
      TurnStays(read, l);
      RunsForever(read, OneTurn(read, l).next, n - 1);
    }
  }

  lemma TurnStays(read: Reading, l: Locals)
    requires CompareLeft(read, l) == 0
    ensures OneTurn(read, l).Again? && CompareLeft(read, OneTurn(read, l).next) == 0
  {
    TurnCompares(read, l);
    CompareSame(Left(read, "", ""));
  }

  lemma TurnShrinks(read: Reading, l: Locals)
    requires CompareLeft(read, l) != 0 && OneTurn(read, l).Again?
    ensures CompareLeft(read, OneTurn(read, l).next) != 0 && |OneTurn(read, l).next.afterA| < |l.afterA|
  {
    TurnCompares(read, l);
  }

  lemma {:induction false} RunsOut(read: Reading, l: Locals)
    requires CompareLeft(read, l) != 0
    ensures !RunsFor(read, l, |l.afterA| + 1)
    decreases |l.afterA|
  {
    if RunsFor(read, l, |l.afterA| + 1) {
      TurnShrinks(read, l);
      var next := OneTurn(read, l).next;
      StopsEarlier(read, next, |next.afterA| + 1, |l.afterA|);
      RunsOut(read, next);
    }
  }

  lemma {:induction false} StopsEarlier(read: Reading, l: Locals, m: nat, n: nat)
    requires m <= n && RunsFor(read, l, n)
    ensures RunsFor(read, l, m)
    decreases m
  {
    if m > 0 {
      StopsEarlier(read, OneTurn(read, l).next, m - 1, n - 1);
    }
  }

  /** The versions get as far as the loop. */
  predicate NeedsLoop(v: Version, w: Version) {
    && v.major == w.major && v.minor == w.minor && v.patch == w.patch
    && v.preRelease != w.preRelease && v.preRelease != "" && w.preRelease != ""
  }

  /** However numerals are converted, the loop runs forever exactly on stuck pairs. */
  lemma LoopsForeverIffStuck(read: Reading, v: Version, w: Version)
    requires NeedsLoop(v, w)
    ensures (forall n :: RunsFor(read, FirstLocals(v, w), n)) <==> Stuck(read, v, w)
  {
    var l := FirstLocals(v, w);
    CanonSplit(read, v.preRelease);
    CanonSplit(read, w.preRelease);
    if Stuck(read, v, w) {
      forall n
        ensures RunsFor(read, l, n)
      {
        RunsForever(read, l, n);
      }
    } else {
      RunsOut(read, l);
    }
  }

  /** Two versions that Parse accepts and Compare never finishes with: 1.0.0-01 and 1.0.0-1. */
  lemma LeadingZeroIsStuck(atoi: Reading)
    requires IsConversion(atoi)
    ensures var v, w := Version(1, 0, 0, "01", ""), Version(1, 0, 0, "1", "");
      IsParsed(v) && IsParsed(w) && Stuck(atoi, v, w)
  {
    assert Identifiers("01") == ["01"] && Identifiers("1") == ["1"];
    assert "01"[..1] == "0" && "0"[..0] == "" && "1"[..0] == "";
    assert Value("0") == 0 && Value("01") == 1 && Value("1") == 1;
    assert Canon(atoi, "01") == [Number(1)] && Canon(atoi, "1") == [Number(1)];
  }

  /** The comparison of versions that are not stuck ends, with the precedence that its conversion gives: that of the
      specification, if all numbers fit. */
  method Compare(atoi: Reading, v: Version, w: Version) returns (r: int)
    requires !Stuck(atoi, v, w)
    ensures r == Precedence(atoi, v, w)
    ensures r < 0 <==> VersionBelow(atoi, v, w)
    ensures r > 0 <==> VersionBelow(atoi, w, v)
    ensures IsConversion(atoi) && AllFit(v.preRelease) && AllFit(w.preRelease) ==> r == Precedence(ByValue, v, w)
  {
    PrecedenceMeans(atoi, v, w);
    if IsConversion(atoi) && AllFit(v.preRelease) && AllFit(w.preRelease) {
      FittingIsSpecified(atoi, v, w);
    }
    if v.major > w.major {
      return 1;
    } else if v.major < w.major {
      return -1;
    }
    if v.minor > w.minor {
      return 1;
    } else if v.minor < w.minor {
      return -1;
    }
    if v.patch > w.patch {
      return 1;
    } else if v.patch < w.patch {
      return -1;
    }
    if v.preRelease == w.preRelease {
      return 0;
    }
    if v.preRelease == "" && w.preRelease != "" {
      return 1;
    }
    if w.preRelease == "" && v.preRelease != "" {
      return -1;
    }
    CanonSplit(atoi, v.preRelease);
    CanonSplit(atoi, w.preRelease);
    var (a, afterA) := Cut(v.preRelease, '.');
    var (b, afterB) := Cut(w.preRelease, '.');
    while true
      invariant CompareLeft(atoi, Locals(a, afterA, b, afterB)) == Precedence(atoi, v, w) != 0
      decreases |afterA|
    {
      ghost var l := Locals(a, afterA, b, afterB);
      TurnCompares(atoi, l);
      if a == "" && b != "" {
        return -1;
      }
      if a != "" && b == "" {
        return 1;
      }
      var aIsInt, bIsInt := IsNumeral(a), IsNumeral(b);
      if aIsInt && !bIsInt {
        return -1;
      } else if !aIsInt && bIsInt {
        return 1;
      }
      if aIsInt && bIsInt {
        var aInt, bInt := atoi(a), atoi(b);
        if aInt > bInt {
          return 1;
        } else if aInt < bInt {
          return -1;
        }
      } else {
        var c := CompareStrings(a, b);
        if c > 0 {
          return 1;
        } else if c < 0 {
          return -1;
        }
      }
      if afterA != "" && afterB == "" {
        return 1;
      } else if afterA == "" && afterB != "" {
        return -1;
      }
      var (nextA, restA) := Cut(afterA, '.');
      var (nextB, restB) := Cut(afterB, '.');
      a, afterA, b, afterB := nextA, restA, nextB, restB;
      assert OneTurn(atoi, l) == Again(Locals(a, afterA, b, afterB));
    }
  }

  // ----- Precedence is an order -----

  lemma {:induction false} StringsOrdered(s: string, t: string, u: string)
    ensures CompareStrings(s, t) == -CompareStrings(t, s)
    ensures CompareStrings(s, t) <= 0 && CompareStrings(t, u) <= 0 ==> CompareStrings(s, u) <= 0
    ensures CompareStrings(s, t) <= 0 && CompareStrings(t, u) < 0 ==> CompareStrings(s, u) < 0
    ensures CompareStrings(s, t) < 0 && CompareStrings(t, u) <= 0 ==> CompareStrings(s, u) < 0
    decreases |s| + |t| + |u|
  {
    if s != "" && t != "" {
      StringsOrdered(s[1..], t[1..], if u != "" then u[1..] else u);
    }
  }

  lemma IdentifiersOrdered(a: Identifier, b: Identifier, c: Identifier)
    ensures CompareIdentifiers(a, b) == 0 <==> a == b
    ensures CompareIdentifiers(a, b) == -CompareIdentifiers(b, a)
    ensures CompareIdentifiers(a, b) <= 0 && CompareIdentifiers(b, c) <= 0 ==> CompareIdentifiers(a, c) <= 0
    ensures CompareIdentifiers(a, b) <= 0 && CompareIdentifiers(b, c) < 0 ==> CompareIdentifiers(a, c) < 0
    ensures CompareIdentifiers(a, b) < 0 && CompareIdentifiers(b, c) <= 0 ==> CompareIdentifiers(a, c) < 0
  {
    if a.Word? && b.Word? {
      StringsEqual(a.s, b.s);
      StringsOrdered(a.s, b.s, if c.Word? then c.s else "");
    }
  }

  lemma {:induction false} ListsOrdered(xs: seq<Identifier>, ys: seq<Identifier>, zs: seq<Identifier>)
    ensures CompareLists(xs, xs) == 0
    ensures CompareLists(xs, ys) == -CompareLists(ys, xs)
    ensures CompareLists(xs, ys) <= 0 && CompareLists(ys, zs) <= 0 ==> CompareLists(xs, zs) <= 0
    decreases |xs|
  {
    if xs != [] {
      var x := xs[0];
      var y, z := if ys != [] then ys[0] else x, if zs != [] then zs[0] else x;
      IdentifiersOrdered(x, y, z);
      IdentifiersOrdered(x, x, x);
      ListsOrdered(xs[1..], if ys != [] then ys[1..] else [], if zs != [] then zs[1..] else []);
    }
  }

  /** Any two versions compare, in opposite ways from the two sides, and the comparison is transitive. */
  lemma PrecedenceIsTotalPreorder(read: Reading, u: Version, v: Version, w: Version)
    ensures Precedence(read, v, v) == 0
    ensures Precedence(read, u, v) == -Precedence(read, v, u)
    ensures Precedence(read, u, v) <= 0 && Precedence(read, v, w) <= 0 ==> Precedence(read, u, w) <= 0
  {
    ListsOrdered(Canon(read, u.preRelease), Canon(read, v.preRelease), Canon(read, w.preRelease));
  }

  // ----- What is below what -----

  ghost predicate SameUpTo(s: string, t: string, n: nat) {
    n <= |s| && n <= |t| && s[..n] == t[..n]
  }

  /** A proper prefix, or less at the first character that differs. */
  ghost predicate WordBelow(s: string, t: string) {
    exists n: nat :: SameUpTo(s, t, n) && n < |t| && (n == |s| || s[n] < t[n])
  }

  ghost predicate IdentifierBelow(read: Reading, s: string, t: string) {
    t != "" &&
    (s == ""
     || (IsNumeral(s) && IsNumeral(t) && read(s) < read(t))
     || (IsNumeral(s) && !IsNumeral(t))
     || (!IsNumeral(s) && !IsNumeral(t) && WordBelow(s, t)))
  }

  predicate IdentifiersAgree(read: Reading, s: string, t: string) {
    s == t || (IsNumeral(s) && IsNumeral(t) && read(s) == read(t))
  }

  ghost predicate AgreeUpTo(read: Reading, xs: seq<string>, ys: seq<string>, n: nat) {
    n <= |xs| && n <= |ys| && forall i :: 0 <= i < n ==> IdentifiersAgree(read, xs[i], ys[i])
  }

  /** A shorter list all of which agrees, or below at the first identifiers that do not agree. */
  ghost predicate ListBelow(read: Reading, xs: seq<string>, ys: seq<string>) {
    exists n: nat :: AgreeUpTo(read, xs, ys, n) && n < |ys| && (n == |xs| || IdentifierBelow(read, xs[n], ys[n]))
  }

  /** Items 11.2 to 11.4 of Semantic Versioning 2.0.0. */
  ghost predicate VersionBelow(read: Reading, v: Version, w: Version) {
    || v.major < w.major
    || (v.major == w.major && v.minor < w.minor)
    || (v.major == w.major && v.minor == w.minor && v.patch < w.patch)
    || (v.major == w.major && v.minor == w.minor && v.patch == w.patch && v.preRelease != "" &&
        (w.preRelease == "" || ListBelow(read, Identifiers(v.preRelease), Identifiers(w.preRelease))))
  }

  lemma {:induction false} StringsBelow(s: string, t: string)
    ensures CompareStrings(s, t) < 0 <==> WordBelow(s, t)
  {
    if s == "" || t == "" {
      assert s == "" ==> SameUpTo(s, t, 0);
    } else if s[0] != t[0] {
      assert SameUpTo(s, t, 0);
      assert forall n: nat :: n > 0 && n <= |s| && n <= |t| ==> s[..n][0] != t[..n][0];
    } else {
      StringsBelow(s[1..], t[1..]);
      TailBelow(s, t);
    }
  }

  lemma SameTail(s: string, t: string, n: nat)
    requires s != "" && t != "" && s[0] == t[0]
    ensures SameUpTo(s[1..], t[1..], n) <==> SameUpTo(s, t, n + 1)
  {
    if n + 1 <= |s| && n + 1 <= |t| {
      assert s[..n + 1] == [s[0]] + s[1..][..n] && t[..n + 1] == [t[0]] + t[1..][..n];
      assert s[..n + 1][1..] == s[1..][..n] && t[..n + 1][1..] == t[1..][..n];
    }
  }

  lemma TailBelow(s: string, t: string)
    requires s != "" && t != "" && s[0] == t[0]
    ensures WordBelow(s, t) <==> WordBelow(s[1..], t[1..])
  {
    if WordBelow(s, t) {
      var n: nat :| SameUpTo(s, t, n) && n < |t| && (n == |s| || s[n] < t[n]);
      SameTail(s, t, n - 1);
      assert SameUpTo(s[1..], t[1..], n - 1);
    }
    if WordBelow(s[1..], t[1..]) {
      var n: nat :| SameUpTo(s[1..], t[1..], n) && n < |t[1..]| && (n == |s[1..]| || s[1..][n] < t[1..][n]);
      SameTail(s, t, n);
      assert SameUpTo(s, t, n + 1);
    }
  }

  lemma IdentifiersBelow(read: Reading, s: string, t: string)
    ensures CompareIdentifiers(IdentifierOf(read, s), IdentifierOf(read, t)) < 0 <==> IdentifierBelow(read, s, t)
    ensures CompareIdentifiers(IdentifierOf(read, s), IdentifierOf(read, t)) == 0 <==> IdentifiersAgree(read, s, t)
  {
    StringsBelow(s, t);
    StringsEqual(s, t);
  }

  function IdentifiersOf(read: Reading, parts: seq<string>): seq<Identifier> {
    seq(|parts|, i requires 0 <= i < |parts| => IdentifierOf(read, parts[i]))
  }

  lemma {:induction false} ListsBelow(read: Reading, xs: seq<string>, ys: seq<string>)
    ensures CompareLists(IdentifiersOf(read, xs), IdentifiersOf(read, ys)) < 0 <==> ListBelow(read, xs, ys)
    decreases |xs|
  {
    if xs == [] || ys == [] {
      assert xs == [] ==> AgreeUpTo(read, xs, ys, 0);
    } else {
      IdentifiersBelow(read, xs[0], ys[0]);
      assert IdentifiersOf(read, xs)[1..] == IdentifiersOf(read, xs[1..]);
      assert IdentifiersOf(read, ys)[1..] == IdentifiersOf(read, ys[1..]);
      ListsBelow(read, xs[1..], ys[1..]);
      FirstBelow(read, xs, ys);
    }
  }

  lemma FirstBelow(read: Reading, xs: seq<string>, ys: seq<string>)
    requires xs != [] && ys != []
    ensures ListBelow(read, xs, ys) <==>
      if IdentifiersAgree(read, xs[0], ys[0]) then
        IdentifierBelow(read, xs[0], ys[0]) || ListBelow(read, xs[1..], ys[1..])
      else IdentifierBelow(read, xs[0], ys[0])
  {
    assert AgreeUpTo(read, xs, ys, 0);
    if ListBelow(read, xs, ys) {
      var n: nat :| AgreeUpTo(read, xs, ys, n) && n < |ys| && (n == |xs| || IdentifierBelow(read, xs[n], ys[n]));
      if n > 0 {
        assert AgreeUpTo(read, xs[1..], ys[1..], n - 1);
      }
    }
    if IdentifiersAgree(read, xs[0], ys[0]) && ListBelow(read, xs[1..], ys[1..]) {
      var n: nat :| AgreeUpTo(read, xs[1..], ys[1..], n) && n < |ys[1..]| &&
                    (n == |xs[1..]| || IdentifierBelow(read, xs[1..][n], ys[1..][n]));
      assert AgreeUpTo(read, xs, ys, n + 1);
    }
  }

  /** The sign of the precedence, without the functions that compute it. */
  lemma PrecedenceMeans(read: Reading, v: Version, w: Version)
    ensures Precedence(read, v, w) < 0 <==> VersionBelow(read, v, w)
    ensures Precedence(read, v, w) > 0 <==> VersionBelow(read, w, v)
  {
    PrecedenceIsBelow(read, v, w);
    PrecedenceIsBelow(read, w, v);
    PrecedenceIsTotalPreorder(read, v, w, w);
  }

  lemma PrecedenceIsBelow(read: Reading, v: Version, w: Version)
    ensures Precedence(read, v, w) < 0 <==> VersionBelow(read, v, w)
  {
    var xs, ys := Identifiers(v.preRelease), Identifiers(w.preRelease);
    ListsBelow(read, xs, ys);
    assert Canon(read, v.preRelease) == IdentifiersOf(read, xs) && Canon(read, w.preRelease) == IdentifiersOf(read, ys);
    if v.preRelease == w.preRelease {
      ListsOrdered(Canon(read, v.preRelease), Canon(read, v.preRelease), Canon(read, v.preRelease));
    }
  }

  /** The identifiers of a pre-release are what stands between its dots. */
  lemma {:induction false} IdentifiersJoined(s: string)
    requires IsDotted(s)
    ensures JoinDots(Identifiers(s)) == s
    ensures forall part <- Identifiers(s) :: part != "" && '.' !in part
    decreases |s|
  {
    var (part, rest) := Cut(s, '.');
    CutParts(s, '.');
    SplitDotted(s);
    if rest != "" {
      IdentifiersJoined(rest);
      assert Identifiers(s)[1..] == Identifiers(rest);
    }
  }

  function JoinDots(parts: seq<string>): string {
    if parts == [] then "" else if |parts| == 1 then parts[0] else parts[0] + ['.'] + JoinDots(parts[1..])
  }

  /** Parts that the grammar allows between dots. */
  predicate AreIdentifiers(parts: seq<string>) {
    parts != [] && forall i :: 0 <= i < |parts| ==> IsIdentifierText(parts[i])
  }

  predicate IsIdentifierText(part: string) {
    part != "" &&
    forall i :: 0 <= i < |part| ==>
      '0' <= part[i] <= '9' || 'A' <= part[i] <= 'Z' || 'a' <= part[i] <= 'z' || part[i] == '-'
  }

  /** The regular expression takes exactly such parts, joined by dots. */
  lemma DottedMeans(s: string)
    ensures IsDotted(s) <==> exists parts :: AreIdentifiers(parts) && JoinDots(parts) == s
  {
    if IsDotted(s) {
      IdentifiersJoined(s);
      DottedParts(s);
    }
    if parts :| AreIdentifiers(parts) && JoinDots(parts) == s {
      JoinedIsDotted(parts);
    }
  }

  lemma {:induction false} DottedParts(s: string)
    requires IsDotted(s)
    ensures AreIdentifiers(Identifiers(s))
    decreases |s|
  {
    var (part, rest) := Cut(s, '.');
    CutParts(s, '.');
    SplitDotted(s);
    assert forall i :: 0 <= i < |part| ==> part[i] in s;
    if rest != "" {
      DottedParts(rest);
    }
  }

  lemma {:induction false} JoinedIsDotted(parts: seq<string>)
    requires AreIdentifiers(parts)
    ensures IsDotted(JoinDots(parts))
  {
    if |parts| > 1 {
      JoinedIsDotted(parts[1..]);
      DotBetween(parts[0], JoinDots(parts[1..]));
    }
  }

  lemma DotBetween(part: string, rest: string)
    requires IsIdentifierText(part) && IsDotted(rest)
    ensures IsDotted(part + ['.'] + rest)
  {
    var s := part + ['.'] + rest;
    assert forall i :: 0 <= i < |part| ==> s[i] == part[i] && s[i] != '.';
    assert forall i :: 0 <= i < |rest| ==> s[|part| + 1 + i] == rest[i];
    forall i, j | 0 <= i < j < |s| && j == i + 1 && s[i] == '.'
      ensures s[j] != '.'
    {
      if i > |part| {
        assert rest[i - |part| - 1] == '.' && s[j] == rest[j - |part| - 1];
      }
    }
  }

  /** Identifiers that agree up to n, and then none on the left, or a lower one. */
  lemma BelowFrom(xs: seq<string>, ys: seq<string>, n: nat)
    requires AgreeUpTo(ByValue, xs, ys, n) && n < |ys| && (n == |xs| || IdentifierBelow(ByValue, xs[n], ys[n]))
    ensures ListBelow(ByValue, xs, ys)
  {
  }

  lemma WordsBelow(s: string, t: string)
    requires s != "" && t != "" && s[0] < t[0] && !IsNumeral(s) && !IsNumeral(t)
    ensures IdentifierBelow(ByValue, s, t)
  {
    assert SameUpTo(s, t, 0);
  }

  /** The example of item 11.4, identifier by identifier. */
  lemma ExampleChain()
    ensures ListBelow(ByValue, ["alpha"], ["alpha", "1"]) && ListBelow(ByValue, ["alpha", "1"], ["alpha", "beta"])
    ensures ListBelow(ByValue, ["alpha", "beta"], ["beta"]) && ListBelow(ByValue, ["beta"], ["beta", "2"])
    ensures ListBelow(ByValue, ["beta", "2"], ["beta", "11"]) && ListBelow(ByValue, ["beta", "11"], ["rc", "1"])
    ensures VersionBelow(ByValue, Version(1, 0, 0, "rc.1", ""), Version(1, 0, 0, "", ""))
  {
    assert "alpha"[0] == 'a' && "beta"[0] == 'b' && "rc"[0] == 'r';
    WordsBelow("alpha", "beta");
    WordsBelow("beta", "rc");
    assert "2"[..0] == "" && "11"[..1] == "1" && "1"[..0] == "";
    assert Value("2") == 2 && Value("1") == 1 && Value("11") == 11;
    BelowFrom(["alpha"], ["alpha", "1"], 1);
    BelowFrom(["alpha", "1"], ["alpha", "beta"], 1);
    BelowFrom(["alpha", "beta"], ["beta"], 0);
    BelowFrom(["beta"], ["beta", "2"], 1);
    BelowFrom(["beta", "2"], ["beta", "11"], 1);
    BelowFrom(["beta", "11"], ["rc", "1"], 0);
  }

  // ----- Well-formed versions -----

  /** Identifiers as item 9 of Semantic Versioning 2.0.0 wants them: not empty, and numbers without leading zeros. */
  predicate IsWellFormed(preRelease: string) {
    IsDotted(preRelease) && forall part <- Identifiers(preRelease) :: IsNumeral(part) && |part| > 1 ==> part[0] != '0'
  }

  lemma DottedRest(s: string, i: int)
    requires IsDotted(s) && 0 <= i < |s| && s[i] == '.'
    ensures i > 0 && i + 1 < |s| && IsDotted(s[i + 1..])
  {
    var rest := s[i + 1..];
    assert forall j :: 0 <= j < |rest| ==> rest[j] == s[i + 1 + j];
  }

  lemma SplitDotted(s: string)
    requires IsDotted(s)
    ensures var (part, rest) := Cut(s, '.');
      && part != ""
      && (if rest == "" then s == part else s == part + ['.'] + rest && IsDotted(rest))
  {
    var i := IndexFrom(s, '.', 0);
    if i < |s| {
      DottedRest(s, i);
      assert s == s[..i] + ['.'] + s[i + 1..];
    }
  }

  lemma SameIdentifier(a: string, b: string)
    requires IdentifierOf(ByValue, a) == IdentifierOf(ByValue, b)
    requires IsNumeral(a) ==> (|a| > 1 ==> a[0] != '0')
    requires IsNumeral(b) ==> (|b| > 1 ==> b[0] != '0')
    ensures a == b
  {
    if IsNumeral(a) {
      FormatOfValue(a);
      FormatOfValue(b);
    }
  }

  lemma {:induction false} WellFormedDiffer(s: string, t: string)
    requires IsWellFormed(s) && IsWellFormed(t)
    requires CompareLists(Canon(ByValue, s), Canon(ByValue, t)) == 0
    ensures s == t
    decreases |s|
  {
    var (a, restA) := Cut(s, '.');
    var (b, restB) := Cut(t, '.');
    SplitDotted(s);
    SplitDotted(t);
    CanonSplit(ByValue, s);
    CanonSplit(ByValue, t);
    LeftCompares(ByValue, Locals(a, restA, b, restB));
    IdentifiersOrdered(IdentifierOf(ByValue, a), IdentifierOf(ByValue, b), Empty);
    assert Identifiers(s)[0] == a && Identifiers(t)[0] == b;
    SameIdentifier(a, b);
    if restA != "" && restB != "" {
      assert Identifiers(s)[1..] == Identifiers(restA) && Identifiers(t)[1..] == Identifiers(restB);
      assert forall part <- Identifiers(restA) :: part in Identifiers(s);
      assert forall part <- Identifiers(restB) :: part in Identifiers(t);
      WellFormedDiffer(restA, restB);
    }
  }

  // ----- Numbers that fit -----

  predicate AllFit(preRelease: string) {
    forall part <- Identifiers(preRelease) :: Fits(part)
  }

  /** Numbers that fit are read as what they are. */
  lemma FittingIsSpecified(atoi: Reading, v: Version, w: Version)
    requires IsConversion(atoi) && AllFit(v.preRelease) && AllFit(w.preRelease)
    ensures Precedence(atoi, v, w) == Precedence(ByValue, v, w)
    ensures Stuck(atoi, v, w) <==> Stuck(ByValue, v, w)
  {
    FittingCanon(atoi, v.preRelease);
    FittingCanon(atoi, w.preRelease);
  }

  lemma FittingCanon(atoi: Reading, s: string)
    requires IsConversion(atoi) && AllFit(s)
    ensures Canon(atoi, s) == Canon(ByValue, s)
  {
    var parts := Identifiers(s);
    forall i | 0 <= i < |parts|
      ensures IdentifierOf(atoi, parts[i]) == IdentifierOf(ByValue, parts[i])
    {
      assert parts[i] in parts;
    }
  }

  /** Nothing to compare, or identifiers as item 9 wants them with numbers that fit. */
  predicate IsPlain(preRelease: string) {
    preRelease == "" || (IsWellFormed(preRelease) && AllFit(preRelease))
  }

  /** Well-formed versions whose numbers fit are never stuck. */
  lemma WellFormedNeverStuck(atoi: Reading, v: Version, w: Version)
    requires IsConversion(atoi) && IsPlain(v.preRelease) && IsPlain(w.preRelease)
    ensures !Stuck(atoi, v, w)
  {
    if Stuck(atoi, v, w) {
      FittingIsSpecified(atoi, v, w);
      WellFormedDiffer(v.preRelease, w.preRelease);
    }
  }

  /** Zero means that only the metadata can differ, except for stuck pairs. */
  lemma EqualPrecedence(read: Reading, v: Version, w: Version)
    ensures (Precedence(read, v, w) == 0 <==>
             v.major == w.major && v.minor == w.minor && v.patch == w.patch && v.preRelease == w.preRelease)
            <==> !Stuck(read, v, w)
  {
  }

  /** So for well-formed versions whose numbers fit it always does. */
  lemma WellFormedEqual(atoi: Reading, v: Version, w: Version)
    requires IsConversion(atoi) && IsPlain(v.preRelease) && IsPlain(w.preRelease)
    ensures Precedence(atoi, v, w) == 0 <==>
      v.major == w.major && v.minor == w.minor && v.patch == w.patch && v.preRelease == w.preRelease
  {
    WellFormedNeverStuck(atoi, v, w);
    EqualPrecedence(atoi, v, w);
  }

  // ----- Numbers that do not fit -----

  /** Two numbers that are read as the same integer make two well-formed versions that are stuck. */
  lemma CollisionIsStuck(atoi: Reading, m: nat, n: nat)
    requires m != n && atoi(Format(m)) == atoi(Format(n))
    ensures var v, w := Version(1, 0, 0, Format(m), ""), Version(1, 0, 0, Format(n), "");
      && IsParsed(v) && IsParsed(w) && IsWellFormed(v.preRelease) && IsWellFormed(w.preRelease)
      && Stuck(atoi, v, w)
  {
    OneNumber(atoi, m);
    OneNumber(atoi, n);
    CompareSame([Number(atoi(Format(m)))]);
  }

  lemma OneNumber(read: Reading, n: nat)
    ensures IsWellFormed(Format(n)) && Value(Format(n)) == n
    ensures Canon(read, Format(n)) == [Number(read(Format(n)))]
  {
    CutAtFirst(Format(n), '.', "");
    assert Identifiers(Format(n)) == [Format(n)];
  }

  lemma CompareSame(ids: seq<Identifier>)
    ensures CompareLists(ids, ids) == 0
  {
    ListsOrdered(ids, ids, ids);
  }

  /** Every conversion to 64 bits has such numbers: there are fewer integers than numerals. */
  lemma SomeWellFormedAreStuck(atoi: Reading)
    requires IsConversion(atoi)
    ensures exists v, w ::
      IsParsed(v) && IsParsed(w) && IsWellFormed(v.preRelease) && IsWellFormed(w.preRelease) && Stuck(atoi, v, w)
  {
    var f := (n: nat) => atoi(Format(n));
    assert forall k: nat :: f(k) == atoi(Format(k));
    var m, n := Pigeonhole(f, MIN_INT64, MAX_INT64 - MIN_INT64 + 1);
    CollisionIsStuck(atoi, m, n);
  }

  /** Among more values than there are integers in a range, two are the same. */
  lemma Pigeonhole(f: nat -> int, low: int, n: nat) returns (i: nat, j: nat)
    requires forall k :: low <= f(k) < low + n
    ensures i != j && f(i) == f(j)
  {
    i, j := FirstRepeated(f, low, n, 0, {});
  }

  /** The first k values have all been different. */
  lemma {:induction false} FirstRepeated(f: nat -> int, low: int, n: nat, k: nat, seen: set<int>)
    returns (i: nat, j: nat)
    requires forall l :: low <= f(l) < low + n
    requires |seen| == k <= n && forall x :: x in seen ==> low <= x < low + n && IsAmongFirst(f, k, x)
    ensures i != j && f(i) == f(j)
    decreases n - k
  {
    if f(k) in seen {
      assert IsAmongFirst(f, k, f(k));
      i :| i < k && f(i) == f(k);
      j := k;
    } else {
      RangeBound(low, n, seen + {f(k)});
      forall x | x in seen + {f(k)}
        ensures IsAmongFirst(f, k + 1, x)
      {
        if x != f(k) {
          assert IsAmongFirst(f, k, x);
        }
      }
      i, j := FirstRepeated(f, low, n, k + 1, seen + {f(k)});
    }
  }

  ghost predicate IsAmongFirst(f: nat -> int, k: nat, x: int) {
    exists l: nat :: l < k && f(l) == x
  }

  lemma {:induction false} RangeBound(low: int, n: nat, s: set<int>)
    requires forall x :: x in s ==> low <= x < low + n
    ensures |s| <= n
  {
    if n > 0 {
      RangeBound(low, n - 1, s - {low + n - 1});
    } else {
      assert forall x :: x !in s;
    }
  }
}
