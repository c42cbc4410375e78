/** New names for files whose place is taken: pkg/fixer/rename.go. */
module Rename {
  import opened Decimal
  import opened Paths

  datatype Option<T> = None | Some(value: T)

  /** filepath.Ext of a name without separators: the last dot and what follows it. */
  function Ext(name: string): string {
    if LastIndex(name, '.') == -1 then "" else name[LastIndex(name, '.')..]
  }

  predicate EndsWith(s: string, suffix: string) {
    |suffix| <= |s| && s[|s| - |suffix|..] == suffix
  }

  function TrimSuffix(s: string, suffix: string): string {
    if EndsWith(s, suffix) then s[..|s| - |suffix|] else s
  }

  const TEST_SUFFIX := "_test"

  /** The match of ^(.*)_(\d+)$: the stem and the digits after the last underscore. A dot matches no newline. */
  function Numbered(base: string): (m: Option<(string, string)>)
    ensures m.Some? ==> base == m.value.0 + "_" + m.value.1 && IsNumeral(m.value.1)
  {
    var i := LastIndex(base, '_');
    if i == -1 then None
    else
      var stem, digits := base[..i], base[i + 1..];
      if '\n' in stem || !IsNumeral(digits) then None
      else
        assert base == stem + "_" + digits;
        Some((stem, digits))
  }

  /** A path taken apart: directory, name without test suffix and extension, whether it is a test, extension. */
  datatype FileName = FileName(dir: string, base: string, test: bool, ext: string)

  function Parse(path: string): FileName {
    var name := BaseOf(path);
    var ext := Ext(name);
    var stem := TrimSuffix(name, ext);
    FileName(DirOf(path), TrimSuffix(stem, TEST_SUFFIX), EndsWith(stem, TEST_SUFFIX), ext)
  }

  /** Counts up by one; past the greatest 64-bit integer comes the least. */
  function Incremented(n: int): int {
    if n == MAX_INT64 then MIN_INT64 else n + 1
  }

  function Next(atoi: string -> int, base: string): string {
    match Numbered(base)
    case Some((stem, digits)) => stem + "_" + FormatInt(Incremented(atoi(digits)))
    case None => base + "_1"
  }

  function NameOf(f: FileName): string {
    f.base + (if f.test then TEST_SUFFIX else "") + f.ext
  }

  /** The digits are converted to an integer by atoi, whose error result is ignored. */
  function RenameCandidate(atoi: string -> int, oldName: string): string {
    var f := Parse(oldName);
    Join(f.dir, NameOf(f.(base := Next(atoi, f.base))))
  }

  /** Taking a path apart loses nothing. */
  lemma ParseLosesNothing(path: string)
    ensures var f := Parse(path); f.dir + NameOf(f) == path
  {
    var f, name := Parse(path), BaseOf(path);
    ExtIsEnd(name);
    TrimmedAndSuffix(name, f.ext);
    TrimmedAndSuffix(TrimSuffix(name, f.ext), TEST_SUFFIX);
    assert DirOf(path) + name == path;
  }

  lemma ExtIsEnd(name: string)
    ensures EndsWith(name, Ext(name))
  {
  }

  lemma TrimmedAndSuffix(s: string, suffix: string)
    ensures TrimSuffix(s, suffix) + (if EndsWith(s, suffix) then suffix else "") == s
  {
  }

  predicate IsExt(ext: string) {
    ext == "" || (ext[0] == '.' && '.' !in ext[1..] && '/' !in ext)
  }

  lemma ExtIsExt(name: string)
    requires '/' !in name
    ensures IsExt(Ext(name))
    ensures '.' in name <==> Ext(name) != ""
  {
    var i := LastIndex(name, '.');
    if i != -1 {
      assert forall j :: 0 <= j < |name| - i - 1 ==> Ext(name)[1..][j] == name[i + 1 + j];
    }
  }

  lemma ExtAgain(stem: string, ext: string)
    requires stem != "" && stem[|stem| - 1] != '.'
    requires IsExt(ext) && (ext == "" ==> '.' !in stem)
    ensures Ext(stem + ext) == ext && TrimSuffix(stem + ext, ext) == stem
  {
    if ext == "" {
      assert stem + ext == stem;
    } else {
      assert stem + ext == (stem + ".") + ext[1..];
      LastIndexUnique(stem + ".", ext[1..], '.');
    }
    assert (stem + ext)[|stem|..] == ext && (stem + ext)[..|stem|] == stem;
  }

  lemma TestSuffixAgain(base: string, test: bool)
    requires base != "" && IsDigit(base[|base| - 1])
    ensures var stem := base + if test then TEST_SUFFIX else "";
      TrimSuffix(stem, TEST_SUFFIX) == base && EndsWith(stem, TEST_SUFFIX) == test
  {
    if test {
      var stem := base + TEST_SUFFIX;
      assert stem[|base|..] == TEST_SUFFIX && stem[..|base|] == base;
    } else {
      assert base + "" == base;
      assert |base| >= 5 ==> base[|base| - 5..][4] == base[|base| - 1];
    }
  }

  /** A base that ends in a digit, with a suffix and an extension, is taken apart at the same places. */
  lemma ParseNumbered(dir: string, base: string, test: bool, ext: string)
    requires dir == "" || dir[|dir| - 1] == '/'
    requires '/' !in base && base != "" && IsDigit(base[|base| - 1])
    requires IsExt(ext) && (ext == "" ==> '.' !in base)
    ensures var f := FileName(dir, base, test, ext);
      Parse(dir + NameOf(f)) == f && IsName(NameOf(f))
  {
    var suffix := if test then TEST_SUFFIX else "";
    var stem := base + suffix;
    var name := stem + ext;
    assert IsName(name) by {
      NumberedIsName(base, suffix, ext);
    }
    assert DirOf(dir + name) == dir && BaseOf(dir + name) == name by {
      SplitAgain(dir, name);
    }
    assert Ext(name) == ext && TrimSuffix(name, ext) == stem by {
      StemEnd(base, test, ext);
      ExtAgain(stem, ext);
    }
    TestSuffixAgain(base, test);
  }

  lemma StemEnd(base: string, test: bool, ext: string)
    requires base != "" && IsDigit(base[|base| - 1])
    requires ext == "" ==> '.' !in base
    ensures var stem := base + if test then TEST_SUFFIX else "";
      stem != "" && stem[|stem| - 1] != '.' && (ext == "" ==> '.' !in stem)
  {
  }

  lemma NumberedIsName(base: string, suffix: string, ext: string)
    requires '/' !in base && '/' !in suffix && '/' !in ext
    requires base != "" && IsDigit(base[|base| - 1])
    ensures IsName(base + suffix + ext)
  {
    assert (base + suffix + ext)[|base| - 1] == base[|base| - 1];
  }

  /** Numbered bases are taken apart into the stem and the next number. */
  lemma NumberedAgain(stem: string, n: nat)
    requires '\n' !in stem
    ensures Numbered(stem + "_" + Format(n)) == Some((stem, Format(n)))
  {
    var base := stem + "_" + Format(n);
    assert '_' !in Format(n);
    LastIndexUnique(stem + "_", Format(n), '_');
    assert base[..|stem|] == stem && base[|stem| + 1..] == Format(n);
  }

  /** With a sign, or after a newline, a base does not count as numbered. */
  lemma NotNumbered(stem: string, tail: string)
    requires '_' !in tail && (!IsNumeral(tail) || '\n' in stem)
    ensures Numbered(stem + "_" + tail) == None
  {
    var base := stem + "_" + tail;
    LastIndexUnique(stem + "_", tail, '_');
    assert base[..|stem|] == stem && base[|stem| + 1..] == tail;
  }

  /** How far a base has been counted up. A longer stem counts more than any number, and a number that does not fit
      less than any that does. */
  function Rank(base: string): nat {
    match Numbered(base)
    case Some((stem, digits)) => |stem| * (MAX_INT64 + 2) + if Fits(digits) then Value(digits) + 1 else 0
    case None => |base| * (MAX_INT64 + 2)
  }

  /** The next base is numbered with the next number, or, past the greatest integer, has a longer stem. */
  lemma NextCountsUp(atoi: string -> int, base: string)
    requires IsConversion(atoi)
    ensures Rank(Next(atoi, base)) > Rank(base)
    ensures IsDigit(Next(atoi, base)[|Next(atoi, base)| - 1])
  {
    match Numbered(base) {
      case Some((stem, digits)) =>
        NumberedCountsUp(stem, digits, atoi(digits));
      case None =>
        UnnumberedCountsUp(base);
    }
  }

  lemma NumberedCountsUp(stem: string, digits: string, n: int)
    requires '\n' !in stem && IsNumeral(digits)
    requires MIN_INT64 <= n <= MAX_INT64 && (Fits(digits) ==> n == Value(digits))
    ensures var base := stem + "_" + FormatInt(Incremented(n));
      && Rank(base) > |stem| * (MAX_INT64 + 2) + (if Fits(digits) then Value(digits) + 1 else 0)
      && IsDigit(base[|base| - 1])
  {
    var next := Incremented(n);
    if next >= 0 {
      NumberedAgain(stem, next);
    } else {
      SignedIsNoNumeral(next);
      NotNumbered(stem, FormatInt(next));
    }
  }

  lemma SignedIsNoNumeral(n: int)
    requires n < 0
    ensures var s := FormatInt(n); !IsNumeral(s) && '_' !in s && IsDigit(s[|s| - 1])
  {
    assert FormatInt(n)[0] == '-';
  }

  lemma UnnumberedCountsUp(base: string)
    requires Numbered(base) == None
    ensures Rank(base + "_1") > Rank(base)
    ensures '\n' !in base ==> Numbered(base + "_1") == Some((base, "1"))
  {
    assert Format(1) == "1" && base + "_" + "1" == base + "_1";
    if '\n' !in base {
      NumberedAgain(base, 1);
    } else {
      NotNumbered(base, "1");
    }
  }

  /** Numbers count up one by one as long as they fit. */
  lemma NextNumber(atoi: string -> int, stem: string, n: nat)
    requires IsConversion(atoi) && '\n' !in stem && n < MAX_INT64
    ensures Next(atoi, stem + "_" + Format(n)) == stem + "_" + Format(n + 1)
  {
    NumberedAgain(stem, n);
  }

  lemma NextKeepsCharacters(atoi: string -> int, base: string, c: char)
    requires c !in base && c != '_' && c != '-' && !IsDigit(c)
    ensures c !in Next(atoi, base)
  {
    match Numbered(base) {
      case Some((stem, digits)) =>
        assert forall i :: 0 <= i < |stem| ==> stem[i] == base[i];
        assert c !in stem;
        assert c !in FormatInt(Incremented(atoi(digits)));
      case None =>
        assert c !in "_1";
    }
  }

  lemma PartsHaveNo(path: string)
    ensures var f := Parse(path);
      '/' !in f.base && IsExt(f.ext) && (f.ext == "" ==> '.' !in f.base) && (f.dir == "" || f.dir[|f.dir| - 1] == '/')
  {
    var f, name := Parse(path), BaseOf(path);
    assert forall i :: 0 <= i < |name| ==> name[i] == path[LastIndex(path, '/') + 1 + i];
    ExtIsExt(name);
    var stem := TrimSuffix(name, f.ext);
    PrefixHasNo(stem, name, '/');
    PrefixHasNo(stem, name, '.');
    PrefixHasNo(f.base, stem, '/');
    PrefixHasNo(f.base, stem, '.');
  }

  lemma PrefixHasNo(s: string, t: string, c: char)
    requires s <= t
    ensures c !in t ==> c !in s
  {
    assert forall i :: 0 <= i < |s| ==> s[i] == t[i];
  }

  /** The candidate is again a name with the same parts, in the cleaned directory, counted up. */
  lemma CandidateCountsUp(atoi: string -> int, path: string)
    requires IsConversion(atoi)
    ensures var f := Parse(path);
      Parse(RenameCandidate(atoi, path)) == FileName(CleanDir(f.dir), Next(atoi, f.base), f.test, f.ext)
    ensures Rank(Parse(RenameCandidate(atoi, path)).base) > Rank(Parse(path).base)
  {
    CandidateParts(atoi, path);
    NextCountsUp(atoi, Parse(path).base);
  }

  lemma CandidateParts(atoi: string -> int, path: string)
    requires IsConversion(atoi)
    ensures var f := Parse(path);
      Parse(RenameCandidate(atoi, path)) == FileName(CleanDir(f.dir), Next(atoi, f.base), f.test, f.ext)
  {
    var f := Parse(path);
    var next := Next(atoi, f.base);
    PartsHaveNo(path);
    NextCountsUp(atoi, f.base);
    NextKeepsCharacters(atoi, f.base, '/');
    if '.' !in f.base {
      NextKeepsCharacters(atoi, f.base, '.');
    }
    ParseNumbered(CleanDir(f.dir), next, f.test, f.ext);
    JoinIsCleanDir(f.dir, NameOf(f.(base := next)));
  }

  /** The candidate for a file, written out. */
  lemma CandidateText(atoi: string -> int, dir: string, base: string, test: bool, ext: string)
    requires IsConversion(atoi)
    requires (dir == "" || dir[|dir| - 1] == '/') && '/' !in base && IsExt(ext) && (ext == "" ==> '.' !in base)
    requires !test ==> !EndsWith(base, "_test")
    ensures var suffix := if test then "_test" else "";
      RenameCandidate(atoi, dir + (base + suffix + ext)) == CleanDir(dir) + (Next(atoi, base) + suffix + ext)
  {
    var suffix := if test then "_test" else "";
    var name, next := base + suffix + ext, Next(atoi, base);
    SplitAgain(dir, name);
    ExtOf(base + suffix, ext);
    SuffixOf(base, test);
    NextCountsUp(atoi, base);
    NextKeepsCharacters(atoi, base, '/');
    NumberedIsName(next, suffix, ext);
    JoinIsCleanDir(dir, next + suffix + ext);
    assert Parse(dir + name) == FileName(dir, base, test, ext);
  }

  lemma ExtOf(stem: string, ext: string)
    requires IsExt(ext) && (ext == "" ==> '.' !in stem)
    ensures Ext(stem + ext) == ext && TrimSuffix(stem + ext, ext) == stem
  {
    if ext != "" {
      assert stem + ext == stem + "." + ext[1..];
      LastIndexUnique(stem + ".", ext[1..], '.');
    } else {
      assert stem + ext == stem;
    }
    assert (stem + ext)[|stem|..] == ext && (stem + ext)[..|stem|] == stem;
  }

  lemma SuffixOf(base: string, test: bool)
    requires !test ==> !EndsWith(base, "_test")
    ensures var stem := base + if test then "_test" else "";
      TrimSuffix(stem, TEST_SUFFIX) == base && EndsWith(stem, TEST_SUFFIX) == test
  {
    if test {
      var stem := base + "_test";
      assert stem[|base|..] == "_test" && stem[..|base|] == base;
    } else {
      assert base + "" == base;
    }
  }

  /** Without a number, counting starts at one. */
  lemma UnnumberedNext(atoi: string -> int, base: string)
    requires '_' !in base
    ensures Next(atoi, base) == base + "_1"
  {
  }

  // ----- Counting up again and again -----

  ghost function Iterate<T>(f: T -> T, x: T, n: nat): T {
    if n == 0 then x else f(Iterate(f, x, n - 1))
  }

  lemma {:induction false} IteratesRank<T(!new)>(f: T -> T, rank: T -> int, x: T, m: nat, n: nat)
    requires forall y :: rank(y) < rank(f(y))
    requires m < n
    ensures rank(Iterate(f, x, m)) < rank(Iterate(f, x, n))
    decreases n
  {
    if m < n - 1 {
      IteratesRank(f, rank, x, m, n - 1);
    }
  }

  lemma {:induction false} IteratesKeep<T(!new), K>(f: T -> T, key: T -> K, x: T, n: nat)
    requires forall y :: key(f(y)) == key(y)
    ensures key(Iterate(f, x, n)) == key(x)
  {
    if n > 0 {
      IteratesKeep(f, key, x, n - 1);
    }
  }

  /** The name after n conflicts. */
  ghost function Candidate(atoi: string -> int, path: string, n: nat): string {
    Iterate(Renaming(atoi), path, n)
  }

  function Renaming(atoi: string -> int): string -> string {
    path => RenameCandidate(atoi, path)
  }

  function RankOf(path: string): int {
    Rank(Parse(path).base)
  }

  /** No name is tried twice. */
  lemma CandidatesDiffer(atoi: string -> int, path: string, m: nat, n: nat)
    requires IsConversion(atoi) && m != n
    ensures Candidate(atoi, path, m) != Candidate(atoi, path, n)
  {
    forall y
      ensures RankOf(y) < RankOf(Renaming(atoi)(y))
    {
      CandidateCountsUp(atoi, y);
    }
    IteratesRank(Renaming(atoi), RankOf, path, if m < n then m else n, if m < n then n else m);
  }

  /** What a new name has in common with the old one. */
  function Place(path: string): (string, bool, string) {
    var f := Parse(path);
    (CleanDir(f.dir), f.test, f.ext)
  }

  lemma CandidatesKeepPlace(atoi: string -> int, path: string, n: nat)
    requires IsConversion(atoi)
    ensures Place(Candidate(atoi, path, n)) == Place(path)
  {
    forall y
      ensures Place(Renaming(atoi)(y)) == Place(y)
    {
      CandidateCountsUp(atoi, y);
      CleanDirTwice(Parse(y).dir);
    }
    IteratesKeep(Renaming(atoi), Place, path, n);
  }
}
