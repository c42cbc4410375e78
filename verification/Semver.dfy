/** Semantic versions: parsing, printing and comparing, as internal/semver/semver.go does it. */
module Semver {
  import opened Decimal

  datatype Version = Version(major: int, minor: int, patch: int, preRelease: string, metadata: string)

  datatype ParseError = BadMetadata | BadPreRelease | NotThreeParts | BadNumber

  datatype Result<T> = Ok(value: T) | Err(error: ParseError)

  // ----- Strings -----

  /** The position of the first c from position i on, or the length. */
  function IndexFrom(s: string, c: char, i: nat): (n: nat)
    requires i <= |s|
    ensures i <= n <= |s| && (n < |s| ==> s[n] == c)
    ensures forall j :: i <= j < n ==> s[j] != c
    decreases |s| - i
  {
    if i == |s| || s[i] == c then i else IndexFrom(s, c, i + 1)
  }

  /** What stands before and after the first separator. */
  function Cut(s: string, sep: char): (string, string) {
    var i := IndexFrom(s, sep, 0);
    if i < |s| then (s[..i], s[i + 1..]) else (s, "")
  }

  lemma CutAtFirst(s: string, sep: char, t: string)
    requires sep !in s
    ensures Cut(s + [sep] + t, sep) == (s, t)
    ensures Cut(s, sep) == (s, "")
  {
    var whole := s + [sep] + t;
    assert whole[|s|] == sep;
    assert forall j :: 0 <= j < |s| ==> whole[j] == s[j];
    assert whole[..|s|] == s && whole[|s| + 1..] == t;
  }

  function Count(s: string, c: char): nat {
    if s == "" then 0 else Count(s[..|s| - 1], c) + if s[|s| - 1] == c then 1 else 0
  }

  lemma {:induction false} CountAppend(s: string, t: string, c: char)
    ensures Count(s + t, c) == Count(s, c) + Count(t, c)
    decreases |t|
  {
    if t == "" {
      assert s + t == s;
    } else {
      assert (s + t)[..|s + t| - 1] == s + t[..|t| - 1];
      CountAppend(s, t[..|t| - 1], c);
    }
  }

  lemma {:induction false} CountNone(s: string, c: char)
    requires c !in s
    ensures Count(s, c) == 0
  {
    if s != "" {
      CountNone(s[..|s| - 1], c);
    }
  }

  // ----- Identifiers -----

  predicate IsIdentifierChar(c: char) {
    IsDigit(c) || 'A' <= c <= 'Z' || 'a' <= c <= 'z' || c == '-'
  }

  /** The parts between dots. A final empty part is not counted: the rest after a dot at the end is empty. */
  function Identifiers(s: string): (parts: seq<string>)
    ensures parts != []
    decreases |s|
  {
    var (part, rest) := Cut(s, '.');
    if rest == "" then [part] else [part] + Identifiers(rest)
  }

  /** Matches ^[0-9A-Za-z-]+(\.[0-9A-Za-z-]+)*$. */
  predicate IsDotted(s: string) {
    && (forall i :: 0 <= i < |s| ==> IsIdentifierChar(s[i]) || s[i] == '.')
    && s != "" && s[0] != '.' && s[|s| - 1] != '.'
    && forall i :: 0 <= i < |s| ==> forall j :: i < j < |s| && j == i + 1 && s[i] == '.' ==> s[j] != '.'
  }

  // ----- Parsing and printing -----

  /** strconv.ParseInt in base 10 for 64 bits: an optional sign, then digits. */
  function ParseInt(s: string): Result<int> {
    if IsNumeral(s) && Value(s) <= MAX_INT64 then Result<int>.Ok(Value(s))
    else if s != "" && s[0] == '+' && IsNumeral(s[1..]) && Value(s[1..]) <= MAX_INT64 then Ok(Value(s[1..]))
    else if s != "" && s[0] == '-' && IsNumeral(s[1..]) && Value(s[1..]) <= MAX_INT64 + 1 then Ok(0 - Value(s[1..]))
    else Err(BadNumber)
  }

  function TrimV(s: string): string {
    if s != "" && s[0] == 'v' then s[1..] else s
  }

  function Parse(s: string): Result<Version> {
    var (noMeta, metadata) := Cut(TrimV(s), '+');
    if metadata != "" && !IsDotted(metadata) then Err(BadMetadata)
    else
      var (core, preRelease) := Cut(noMeta, '-');
      if preRelease != "" && !IsDotted(preRelease) then Err(BadPreRelease)
      else ParseCore(core, preRelease, metadata)
  }

  function ParseCore(core: string, preRelease: string, metadata: string): Result<Version> {
    if Count(core, '.') != 2 then Err(NotThreeParts)
    else
      var (major, rest) := Cut(core, '.');
      var (minor, patch) := Cut(rest, '.');
      match (ParseInt(major), ParseInt(minor), ParseInt(patch))
      case (Ok(x), Ok(y), Ok(z)) => Ok(Version(x, y, z, preRelease, metadata))
      case _ => Err(BadNumber)
  }

  function CoreString(v: Version): string {
    FormatInt(v.major) + ['.'] + (FormatInt(v.minor) + ['.'] + FormatInt(v.patch))
  }

  function ToString(v: Version): string {
    CoreString(v) + Optional('-', v.preRelease) + Optional('+', v.metadata)
  }

  /** Appends the printed version to a buffer. */
  method AppendText(v: Version, buffer: string) returns (b: string)
    ensures b == buffer + ToString(v)
  {
    b := buffer + FormatInt(v.major) + ['.'];
    b := b + FormatInt(v.minor) + ['.'];
    b := b + FormatInt(v.patch);
    assert b == buffer + CoreString(v);
    if v.preRelease != "" {
      b := b + ['-'] + v.preRelease;
    }
    if v.metadata != "" {
      b := b + ['+'] + v.metadata;
    }
  }

  /** What every parsed version is like: signs never reach the numbers, which fit 64 bits. */
  predicate IsParsed(v: Version) {
    && 0 <= v.major <= MAX_INT64 && 0 <= v.minor <= MAX_INT64 && 0 <= v.patch <= MAX_INT64
    && (v.preRelease == "" || IsDotted(v.preRelease))
    && (v.metadata == "" || IsDotted(v.metadata))
  }

  lemma CutParts(s: string, sep: char)
    ensures var (before, after) := Cut(s, sep);
      && sep !in before
      && (forall c :: c in before || c in after ==> c in s)
  {
    var i := IndexFrom(s, sep, 0);
    assert forall j :: 0 <= j < i ==> s[..i][j] == s[j];
    if i < |s| {
      var after := s[i + 1..];
      assert forall j :: 0 <= j < |after| ==> after[j] == s[i + 1 + j];
    }
  }

  lemma CoreStringParts(v: Version)
    requires IsParsed(v)
    ensures '+' !in CoreString(v) && '-' !in CoreString(v)
    ensures Count(CoreString(v), '.') == 2
    ensures TrimV(CoreString(v)) == CoreString(v) && CoreString(v) != "" && CoreString(v)[0] != 'v'
  {
    CoreCount(FormatInt(v.major), FormatInt(v.minor), FormatInt(v.patch));
    assert CoreString(v)[0] == FormatInt(v.major)[0];
  }

  lemma CoreCount(x: string, y: string, z: string)
    requires '.' !in x && '.' !in y && '.' !in z
    ensures Count(x + ['.'] + (y + ['.'] + z), '.') == 2
  {
    CountAppend(x + ['.'], y + ['.'] + z, '.');
    CountAppend(x, ['.'], '.');
    CountAppend(y + ['.'], z, '.');
    CountAppend(y, ['.'], '.');
    CountNone(x, '.');
    CountNone(y, '.');
    CountNone(z, '.');
    assert Count(['.'], '.') == 1 by {
      assert ['.'][..0] == "";
    }
  }

  function Optional(sep: char, s: string): string {
    if s != "" then [sep] + s else ""
  }

  lemma CutOptional(before: string, sep: char, after: string)
    requires sep !in before
    ensures Cut(before + Optional(sep, after), sep) == (before, after)
  {
    CutAtFirst(before, sep, after);
    if after != "" {
      assert before + Optional(sep, after) == before + [sep] + after;
    } else {
      assert before + Optional(sep, after) == before;
    }
  }

  lemma ParseCoreString(v: Version)
    requires IsParsed(v)
    ensures ParseCore(CoreString(v), v.preRelease, v.metadata) == Ok(v)
  {
    var x, y, z := FormatInt(v.major), FormatInt(v.minor), FormatInt(v.patch);
    CoreStringParts(v);
    CutAtFirst(x, '.', y + ['.'] + z);
    CutAtFirst(y, '.', z);
  }

  /** Printing a parsed version and parsing it again gives it back. */
  lemma ParseToString(v: Version)
    requires IsParsed(v)
    ensures Parse(ToString(v)) == Ok(v)
  {
    var core := CoreString(v);
    var withPre := core + Optional('-', v.preRelease);
    CoreStringParts(v);
    ParseCoreString(v);
    assert '+' !in withPre;
    CutOptional(withPre, '+', v.metadata);
    CutOptional(core, '-', v.preRelease);
    assert withPre[0] == core[0];
    assert ToString(v) == withPre + Optional('+', v.metadata);
    assert ToString(v)[0] == withPre[0];
    assert TrimV(ToString(v)) == ToString(v);
  }

  // ----- What is accepted -----

  /** The choices in writing a version: a leading v, the numerals, and a dash or plus with nothing after it. */
  datatype Spelling = Spelling(lead: bool, x: string, y: string, z: string, dash: bool, plus: bool)

  function Tail(sep: char, bare: bool, s: string): string {
    if s != "" then [sep] + s else if bare then [sep] else ""
  }

  function Core(p: Spelling): string {
    p.x + ['.'] + (p.y + ['.'] + p.z)
  }

  function TextOf(p: Spelling, v: Version): string {
    (if p.lead then "v" else "") + (Core(p) + Tail('-', p.dash, v.preRelease) + Tail('+', p.plus, v.metadata))
  }

  predicate IsNumber(s: string, n: int) {
    IsNumeral(s) && Value(s) == n <= MAX_INT64
  }

  /** The numerals have the values of the version, whose texts are empty or well-formed. */
  predicate Spells(p: Spelling, v: Version) {
    && IsNumber(p.x, v.major) && IsNumber(p.y, v.minor) && IsNumber(p.z, v.patch)
    && (v.preRelease == "" || IsDotted(v.preRelease)) && (v.metadata == "" || IsDotted(v.metadata))
  }

  lemma CutTail(before: string, sep: char, bare: bool, after: string)
    requires sep !in before
    ensures Cut(before + Tail(sep, bare, after), sep) == (before, after)
  {
    CutAtFirst(before, sep, after);
    if after != "" {
      assert before + Tail(sep, bare, after) == before + [sep] + after;
    } else if bare {
      assert before + Tail(sep, bare, after) == before + [sep] + "";
    } else {
      assert before + Tail(sep, bare, after) == before;
    }
  }

  lemma CutShape(s: string, sep: char)
    ensures var (before, after) := Cut(s, sep); s == before + Tail(sep, sep in s, after)
  {
    var i := IndexFrom(s, sep, 0);
    if i < |s| {
      assert s == s[..i] + ([sep] + s[i + 1..]);
    } else {
      assert sep !in s;
    }
  }

  lemma CoreHasNo(p: Spelling, v: Version)
    requires Spells(p, v)
    ensures '+' !in Core(p) && '-' !in Core(p) && Core(p) != "" && IsDigit(Core(p)[0])
    ensures Count(Core(p), '.') == 2
  {
    CoreCount(p.x, p.y, p.z);
  }

  lemma CoreParses(p: Spelling, v: Version)
    requires Spells(p, v)
    ensures ParseCore(Core(p), v.preRelease, v.metadata) == Ok(v)
  {
    CoreHasNo(p, v);
    CutAtFirst(p.x, '.', p.y + ['.'] + p.z);
    CutAtFirst(p.y, '.', p.z);
  }

  lemma SpellingParses(p: Spelling, v: Version)
    requires Spells(p, v)
    ensures Parse(TextOf(p, v)) == Ok(v)
  {
    var withPre := Core(p) + Tail('-', p.dash, v.preRelease);
    var text := withPre + Tail('+', p.plus, v.metadata);
    CoreHasNo(p, v);
    assert text[0] == Core(p)[0];
    TrimLead(p.lead, text);
    NoPlusBefore(Core(p), p.dash, v.preRelease);
    CutTail(withPre, '+', p.plus, v.metadata);
    CutTail(Core(p), '-', p.dash, v.preRelease);
    CoreParses(p, v);
    ParseOfParts(TextOf(p, v), text, withPre, v.metadata, Core(p), v.preRelease);
  }

  lemma TrimLead(lead: bool, text: string)
    requires text != "" && text[0] != 'v'
    ensures TrimV((if lead then "v" else "") + text) == text
  {
    if lead {
      assert ("v" + text)[1..] == text;
    } else {
      assert "" + text == text;
    }
  }

  lemma NoPlusBefore(core: string, dash: bool, preRelease: string)
    requires '+' !in core && (preRelease == "" || IsDotted(preRelease))
    ensures '+' !in core + Tail('-', dash, preRelease)
  {
  }

  /** Parse, given what its cuts give. */
  lemma ParseOfParts(s: string, text: string, noMeta: string, metadata: string, core: string, preRelease: string)
    requires TrimV(s) == text && Cut(text, '+') == (noMeta, metadata) && Cut(noMeta, '-') == (core, preRelease)
    ensures Parse(s) ==
      if metadata != "" && !IsDotted(metadata) then Err(BadMetadata)
      else if preRelease != "" && !IsDotted(preRelease) then Err(BadPreRelease)
      else ParseCore(core, preRelease, metadata)
  {
  }

  lemma CutCore(core: string) returns (x: string, y: string, z: string)
    requires Count(core, '.') == 2
    ensures core == x + ['.'] + (y + ['.'] + z)
    ensures Cut(core, '.') == (x, y + ['.'] + z) && Cut(y + ['.'] + z, '.') == (y, z)
  {
    var (first, rest) := Cut(core, '.');
    CutOnce(core, first, rest);
    var (second, third) := Cut(rest, '.');
    CutOnce(rest, second, third);
    x, y, z := first, second, third;
  }

  lemma CutOnce(s: string, before: string, after: string)
    requires Count(s, '.') > 0 && Cut(s, '.') == (before, after)
    ensures s == before + ['.'] + after && Count(after, '.') == Count(s, '.') - 1
  {
    if '.' !in s {
      CountNone(s, '.');
    }
    CutParts(s, '.');
    var i := IndexFrom(s, '.', 0);
    assert s == before + ['.'] + after;
    CountAppend(before + ['.'], after, '.');
    CountAppend(before, ['.'], '.');
    CountNone(before, '.');
    assert Count(['.'], '.') == 1 by {
      assert ['.'][..0] == "";
    }
  }

  lemma ParsedIsSpelled(s: string) returns (p: Spelling)
    requires Parse(s).Ok?
    ensures Spells(p, Parse(s).value) && s == TextOf(p, Parse(s).value)
  {
    var text := TrimV(s);
    var (noMeta, metadata) := Cut(text, '+');
    var (core, preRelease) := Cut(noMeta, '-');
    ParseOfParts(s, text, noMeta, metadata, core, preRelease);
    CutParts(text, '+');
    CutParts(noMeta, '-');
    var x, y, z := CoreSpelled(core, preRelease, metadata);
    p := Spelling(text != s, x, y, z, '-' in noMeta, '+' in text);
    CutShape(text, '+');
    CutShape(noMeta, '-');
    Untrimmed(s);
  }

  lemma Untrimmed(s: string)
    ensures s == (if TrimV(s) != s then "v" else "") + TrimV(s)
  {
  }

  lemma CoreSpelled(core: string, preRelease: string, metadata: string) returns (x: string, y: string, z: string)
    requires ParseCore(core, preRelease, metadata).Ok? && '+' !in core && '-' !in core
    ensures core == x + ['.'] + (y + ['.'] + z)
    ensures var v := ParseCore(core, preRelease, metadata).value;
      && IsNumber(x, v.major) && IsNumber(y, v.minor) && IsNumber(z, v.patch)
      && v.preRelease == preRelease && v.metadata == metadata
  {
    x, y, z := CutCore(core);
    Unsigned(core, x, y, z);
    assert x in [x, y, z] && y in [x, y, z] && z in [x, y, z];
  }

  /** Without signs, a number that converts is a numeral. */
  lemma Unsigned(core: string, x: string, y: string, z: string)
    requires core == x + ['.'] + (y + ['.'] + z) && '+' !in core && '-' !in core
    ensures forall part <- [x, y, z] :: ParseInt(part).Ok? ==> IsNumber(part, ParseInt(part).value)
  {
    assert forall c :: c in x || c in y || c in z ==> c in core;
    assert forall part <- [x, y, z] :: part != "" ==> part[0] in part;
  }

  lemma ParsedIsParsed(s: string)
    requires Parse(s).Ok?
    ensures IsParsed(Parse(s).value)
  {
    var p := ParsedIsSpelled(s);
  }

  lemma RoundTrip(s: string)
    requires Parse(s).Ok?
    ensures Parse(ToString(Parse(s).value)) == Parse(s)
  {
    ParsedIsParsed(s);
    ParseToString(Parse(s).value);
  }

  /** What Parse accepts: exactly the spellings of versions. */
  lemma ParseAccepts(s: string, v: Version)
    ensures Parse(s) == Ok(v) <==> exists p :: Spells(p, v) && s == TextOf(p, v)
  {
    if Parse(s) == Ok(v) {
      var p := ParsedIsSpelled(s);
    }
    if p :| Spells(p, v) && s == TextOf(p, v) {
      SpellingParses(p, v);
    }
  }

  /** A leading v makes no difference. */
  lemma LeadIsIgnored(v: Version)
    requires IsParsed(v)
    ensures Parse("v" + ToString(v)) == Ok(v)
  {
    var p := Spelling(true, FormatInt(v.major), FormatInt(v.minor), FormatInt(v.patch), false, false);
    CanonicalSpelling(v);
    SpellingParses(p, v);
  }

  /** What is printed has no leading v, no leading zeros and no empty tails. */
  lemma CanonicalSpelling(v: Version)
    requires IsParsed(v)
    ensures var p := Spelling(false, Format(v.major), Format(v.minor), Format(v.patch), false, false);
      Spells(p, v) && ToString(v) == TextOf(p, v)
  {
    var p := Spelling(false, Format(v.major), Format(v.minor), Format(v.patch), false, false);
    assert TextOf(p, v) == Core(p) + Tail('-', false, v.preRelease) + Tail('+', false, v.metadata);
  }
}
