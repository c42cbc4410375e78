/** File URIs, byte by byte: internal/lsp/uri/uri.go. Path separators are slashes throughout. */
module Uri {

  /** A string of bytes. */
  type Bytes = string

  predicate IsBytes(s: Bytes) {
    forall i :: 0 <= i < |s| ==> s[i] as int < 256
  }

  datatype Option<T> = None | Some(value: T)

  datatype Client = VSCode | OtherClient

  const SCHEME := "file://"

  // ----- The string functions that are used -----

  function TrimPrefix(s: Bytes, prefix: Bytes): Bytes {
    if prefix <= s then s[|prefix|..] else s
  }

  /** The part before the first separator, the part after it, and whether there is one. */
  function Cut(s: Bytes, sep: char): (Bytes, Bytes, bool) {
    if s == [] then ([], [], false)
    else if s[0] == sep then ([], s[1..], true)
    else
      var (before, after, found) := Cut(s[1..], sep);
      ([s[0]] + before, after, found)
  }

  predicate IsLetter(c: char) {
    'a' <= c <= 'z' || 'A' <= c <= 'Z'
  }

  predicate IsUnreserved(c: char) {
    IsLetter(c) || '0' <= c <= '9' || c == '-' || c == '_' || c == '.' || c == '~'
  }

  function Hex(n: nat): char
    requires n < 16
  {
    "0123456789ABCDEF"[n]
  }

  function Unhex(c: char): Option<nat> {
    if '0' <= c <= '9' then Some(c as int - '0' as int)
    else if 'a' <= c <= 'f' then Some(c as int - 'a' as int + 10)
    else if 'A' <= c <= 'F' then Some(c as int - 'A' as int + 10)
    else None
  }

  function Percent(c: char): Bytes {
    ['%', Hex(c as int / 16 % 16), Hex(c as int % 16)]
  }

  /** url.QueryEscape. */
  function QueryEscape(s: Bytes): Bytes {
    if s == [] then []
    else
      (if IsUnreserved(s[0]) then [s[0]] else if s[0] == ' ' then ['+'] else Percent(s[0])) + QueryEscape(s[1..])
  }

  /** url.QueryUnescape, which fails on a percent sign that is not followed by two digits. */
  function QueryUnescape(s: Bytes): Option<Bytes> {
    if s == [] then Some([])
    else if s[0] == '%' then
      if |s| < 3 || Unhex(s[1]) == None || Unhex(s[2]) == None then None
      else Prepend((Unhex(s[1]).value * 16 + Unhex(s[2]).value) as char, QueryUnescape(s[3..]))
    else Prepend(if s[0] == '+' then ' ' else s[0], QueryUnescape(s[1..]))
  }

  function Prepend(c: char, rest: Option<Bytes>): Option<Bytes> {
    if rest.Some? then Some([c] + rest.value) else None
  }

  /** strings.ReplaceAll(s, "+", "%20"). */
  function ReplacePluses(s: Bytes): Bytes {
    if s == [] then [] else (if s[0] == '+' then "%20" else [s[0]]) + ReplacePluses(s[1..])
  }

  /** A letter and a colon, perhaps after one slash. */
  predicate HasDrive(s: Bytes) {
    StartsWithDrive(s) || (|s| > 0 && s[0] == '/' && StartsWithDrive(s[1..]))
  }

  predicate StartsWithDrive(s: Bytes) {
    |s| >= 2 && IsLetter(s[0]) && s[1] == ':'
  }

  /** The letter and the colon. */
  function DriveOf(s: Bytes): Bytes
    requires HasDrive(s)
  {
    if StartsWithDrive(s) then s[..2] else s[1..3]
  }

  // ----- What a URI is made of -----

  function EscapeByte(c: char): Bytes {
    if IsUnreserved(c) || c == '/' then [c] else Percent(c)
  }

  /** Percent-encoding (RFC 3986, section 2.1) of all but unreserved bytes and slashes. */
  function EscapePath(s: Bytes): Bytes {
    if s == [] then [] else EscapeByte(s[0]) + EscapePath(s[1..])
  }

  function Normal(path: Bytes): Bytes {
    TrimPrefix(TrimPrefix(path, SCHEME), "/")
  }

  function UriOf(client: Client, path: Bytes): Bytes {
    SCHEME + EncodedPath(client, Normal(path))
  }

  /** A path without its first slash, encoded; only a drive depends on the client. */
  function EncodedPath(client: Client, p: Bytes): Bytes {
    if HasDrive(p) then "/" + (DriveText(client, DriveOf(p)) + EscapePath(TrimPrefix(p, DriveOf(p))))
    else "/" + EscapePath(p)
  }

  function DriveText(client: Client, drive: Bytes): Bytes {
    if client.VSCode? then QueryEscape(drive) else drive
  }

  lemma {:induction false} EscapedPart(s: Bytes)
    requires '/' !in s
    ensures ReplacePluses(QueryEscape(s)) == EscapePath(s)
  {
    if s != [] {
      EscapedPart(s[1..]);
      var first := if IsUnreserved(s[0]) then [s[0]] else if s[0] == ' ' then ['+'] else Percent(s[0]);
      ReplaceInConcat(first, QueryEscape(s[1..]));
      HexIsNoPlus(s[0]);
      assert ReplacePluses(first) == EscapeByte(s[0]);
    }
  }

  lemma HexIsNoPlus(c: char)
    ensures Percent(' ') == "%20"
    ensures ReplacePluses(Percent(c)) == Percent(c)
  {
    KeepOther('%', [Hex(c as int / 16 % 16), Hex(c as int % 16)]);
    KeepOther(Hex(c as int / 16 % 16), [Hex(c as int % 16)]);
    KeepOther(Hex(c as int % 16), []);
  }

  lemma KeepOther(c: char, s: Bytes)
    requires c != '+'
    ensures ReplacePluses([c] + s) == [c] + ReplacePluses(s)
  {
    assert ([c] + s)[1..] == s;
  }

  lemma {:induction false} ReplaceInConcat(a: Bytes, b: Bytes)
    ensures ReplacePluses(a + b) == ReplacePluses(a) + ReplacePluses(b)
  {
    if a == [] {
      assert a + b == b;
    } else {
      assert (a + b)[1..] == a[1..] + b;
      ReplaceInConcat(a[1..], b);
    }
  }

  lemma {:induction false} EscapeConcat(a: Bytes, b: Bytes)
    ensures EscapePath(a + b) == EscapePath(a) + EscapePath(b)
  {
    if a == [] {
      assert a + b == b;
    } else {
      assert (a + b)[1..] == a[1..] + b;
      EscapeConcat(a[1..], b);
    }
  }

  lemma {:induction false} CutMeans(s: Bytes, sep: char)
    ensures var (before, after, found) := Cut(s, sep);
      sep !in before && s == before + (if found then [sep] + after else []) && (!found ==> after == [])
  {
    if s != [] && s[0] != sep {
      CutMeans(s[1..], sep);
    }
  }

  /** What the first part of a path is escaped to. */
  lemma EscapeFirst(s: Bytes)
    ensures var (before, after, found) := Cut(s, '/');
      EscapePath(s) == ReplacePluses(QueryEscape(before)) + Rest(after, found)
  {
    var (before, after, found) := Cut(s, '/');
    CutMeans(s, '/');
    EscapedPart(before);
    if found {
      EscapeConcat(before, "/" + after);
      assert ("/" + after)[1..] == after;
      assert EscapePath("/" + after) == "/" + EscapePath(after);
    } else {
      assert s == before;
    }
  }

  method FromPath(client: Client, path: Bytes) returns (uri: Bytes)
    ensures uri == UriOf(client, path)
  {
    var rest := TrimPrefix(path, SCHEME);
    rest := TrimPrefix(rest, "/");
    var drive := "";
    if HasDrive(rest) {
      drive := DriveOf(rest);
      rest := TrimPrefix(rest, drive);
    }
    uri := "file:///";
    Assembled(uri, DriveText(client, drive), EscapePath(rest));
    if drive != "" {
      uri := uri + if client.VSCode? then QueryEscape(drive) else drive;
    }
    uri := WriteEscaped(uri, rest);
  }

  lemma Assembled(slashes: Bytes, drive: Bytes, escaped: Bytes)
    requires slashes == "file:///"
    ensures slashes + drive + escaped == SCHEME + ("/" + (drive + escaped))
    ensures slashes + escaped == SCHEME + ("/" + escaped)
  {
    assert slashes == SCHEME + "/";
    Regrouped(SCHEME, "/", drive, escaped);
  }

  lemma Regrouped(a: Bytes, b: Bytes, c: Bytes, d: Bytes)
    ensures a + b + c + d == a + (b + (c + d))
    ensures a + b + d == a + (b + d)
  {
  }

  /** Appends the parts between slashes, each escaped. */
  method WriteEscaped(sb: Bytes, path: Bytes) returns (r: Bytes)
    ensures r == sb + EscapePath(path)
  {
    var (part, remaining, found) := Cut(path, '/');
    EscapeFirst(path);
    ghost var done := ReplacePluses(QueryEscape(part));
    r := sb + ReplacePluses(QueryEscape(part));
    while found
      invariant r == sb + done && EscapePath(path) == done + Rest(remaining, found)
      decreases |remaining|, found
    {
      EscapeFirst(remaining);
      CutMeans(remaining, '/');
      var (part', remaining', found') := Cut(remaining, '/');
      var next := ReplacePluses(QueryEscape(part'));
      r := r + "/" + next;
      OnePart(sb, done, next, Rest(remaining', found'));
      done := done + "/" + next;
      remaining, found := remaining', found';
    }
  }

  /** What is still to be written. */
  function Rest(remaining: Bytes, found: bool): Bytes {
    if found then "/" + EscapePath(remaining) else []
  }

  lemma OnePart(sb: Bytes, done: Bytes, next: Bytes, rest: Bytes)
    ensures sb + done + "/" + next == sb + (done + "/" + next)
    ensures done + ("/" + (next + rest)) == done + "/" + next + rest
  {
  }

  /** A Windows path loses its slash; the regular expression is tried on the decoded path. */
  function ToPath(uri: Bytes): Bytes {
    var hadPrefix := SCHEME <= uri;
    var path := TrimPrefix(uri, SCHEME);
    var decoded := if hadPrefix && QueryUnescape(path).Some? then QueryUnescape(path).value else path;
    if HasDrive(decoded) then TrimPrefix(decoded, "/") else decoded
  }

  // ----- What is written -----

  /** A letter and a colon, from position i on. */
  predicate DriveAt(path: Bytes, i: nat) {
    i + 1 < |path| && ('a' <= path[i] <= 'z' || 'A' <= path[i] <= 'Z') && path[i + 1] == ':'
  }

  /** Upper-case hexadecimal digits. */
  function HexDigit(n: nat): char
    requires n < 16
  {
    if n < 10 then '0' + n as char else 'A' + (n - 10) as char
  }

  /** Letters, digits and - _ . ~ (RFC 3986, section 2.3) stay, and so do slashes; every other byte becomes a percent
      sign and two digits. */
  lemma EscapedByteMeans(c: char)
    requires c as int < 256
    ensures EscapePath([c]) ==
      if 'a' <= c <= 'z' || 'A' <= c <= 'Z' || '0' <= c <= '9' ||
         c == '-' || c == '_' || c == '.' || c == '~' || c == '/'
      then [c]
      else ['%', HexDigit(c as int / 16), HexDigit(c as int % 16)]
  {
    assert [c][1..] == [];
    HexIsHexDigit(c as int / 16);
    HexIsHexDigit(c as int % 16);
  }

  lemma HexIsHexDigit(n: nat)
    requires n < 16
    ensures Hex(n) == HexDigit(n)
  {
  }

  /** A path without a drive, as a URI: the scheme and an empty host, and the path byte by byte. */
  lemma UriMeans(client: Client, path: Bytes)
    requires path != [] && path[0] == '/'
    requires !DriveAt(path, 1) && !(|path| > 1 && path[1] == '/' && DriveAt(path, 2))
    ensures UriOf(client, path) == "file://" + EscapePath(path)
  {
    assert !(SCHEME <= path) by {
      assert SCHEME[0] != path[0];
    }
    assert Normal(path) == path[1..] && path == "/" + path[1..];
  }

  /** How a URI is decoded: digits in either case, pluses as spaces, and every other byte as it is. */
  lemma DecodingMeans(c: char, high: nat, low: nat, s: Bytes)
    requires high < 16 && low < 16
    ensures QueryUnescape("%" + [HexDigit(high), HexDigit(low)] + s) ==
            Prepend((16 * high + low) as char, QueryUnescape(s))
    ensures QueryUnescape("%" + [LowerHexDigit(high), LowerHexDigit(low)] + s) ==
            Prepend((16 * high + low) as char, QueryUnescape(s))
    ensures QueryUnescape("+" + s) == Prepend(' ', QueryUnescape(s))
    ensures c != '%' && c != '+' ==> QueryUnescape([c] + s) == Prepend(c, QueryUnescape(s))
    ensures QueryUnescape("%") == None && QueryUnescape("%" + [c]) == None
  {
    TwoDigits(HexDigit(high), HexDigit(low), s);
    TwoDigits(LowerHexDigit(high), LowerHexDigit(low), s);
    assert ("+" + s)[1..] == s && ([c] + s)[1..] == s;
  }

  function LowerHexDigit(n: nat): char
    requires n < 16
  {
    if n < 10 then '0' + n as char else 'a' + (n - 10) as char
  }

  lemma TwoDigits(h: char, l: char, s: Bytes)
    requires Unhex(h).Some? && Unhex(l).Some?
    ensures QueryUnescape("%" + [h, l] + s) == Prepend((16 * Unhex(h).value + Unhex(l).value) as char, QueryUnescape(s))
  {
    assert ("%" + [h, l] + s)[3..] == s;
  }

  /** What is no file URI stays as it is, and what cannot be decoded only loses the scheme; but for drives. */
  lemma UndecodedPaths(uri: Bytes, s: Bytes)
    ensures !("file://" <= uri) && !HasDrive(uri) ==> ToPath(uri) == uri
    ensures QueryUnescape(s) == None && !HasDrive(s) ==> ToPath("file://" + s) == s
  {
    assert ("file://" + s)[7..] == s;
  }

  // ----- There and back -----

  lemma UnescapeOne(c: char, s: Bytes)
    requires c as int < 256
    ensures QueryUnescape(EscapeByte(c) + s) == Prepend(c, QueryUnescape(s))
  {
    if EscapeByte(c) == [c] {
      UnescapePlain(c, s);
    } else {
      UnescapePercent(c, s);
    }
  }

  lemma UnescapePlain(c: char, s: Bytes)
    requires c != '%' && c != '+'
    ensures QueryUnescape([c] + s) == Prepend(c, QueryUnescape(s))
  {
    assert ([c] + s)[1..] == s;
  }

  lemma UnescapePercent(c: char, s: Bytes)
    requires c as int < 256
    ensures QueryUnescape(Percent(c) + s) == Prepend(c, QueryUnescape(s))
  {
    HexDigits(c as int / 16);
    HexDigits(c as int % 16);
    var e := Percent(c) + s;
    assert e[0] == '%' && e[1] == Hex(c as int / 16) && e[2] == Hex(c as int % 16) && e[3..] == s;
  }

  lemma HexDigits(n: nat)
    requires n < 16
    ensures Unhex(Hex(n)) == Some(n)
  {
  }

  lemma {:induction false} UnescapeEscaped(s: Bytes)
    requires IsBytes(s)
    ensures QueryUnescape(EscapePath(s)) == Some(s)
  {
    if s != [] {
      UnescapeEscaped(s[1..]);
      UnescapeOne(s[0], EscapePath(s[1..]));
      assert [s[0]] + s[1..] == s;
    }
  }

  /** What a path becomes as a URI and back, for every client. */
  lemma ThereAndBack(client: Client, path: Bytes)
    requires IsBytes(path)
    ensures var p := Normal(path);
      ToPath(UriOf(client, path)) ==
        if !HasDrive(p) then "/" + p else DriveOf(p) + TrimPrefix(p, DriveOf(p))
  {
    var p := Normal(path);
    UnescapeUri(client, p);
    WithoutScheme(EncodedPath(client, p));
    if HasDrive(p) {
      DriveInFront(DriveOf(p), TrimPrefix(p, DriveOf(p)));
    } else {
      PlainInFront(p);
    }
  }

  lemma WithoutScheme(s: Bytes)
    ensures SCHEME <= SCHEME + s && TrimPrefix(SCHEME + s, SCHEME) == s
  {
  }

  lemma DriveInFront(drive: Bytes, rest: Bytes)
    requires |drive| == 2 && StartsWithDrive(drive)
    ensures HasDrive("/" + (drive + rest)) && TrimPrefix("/" + (drive + rest), "/") == drive + rest
  {
    assert ("/" + (drive + rest))[1..] == drive + rest;
    assert (drive + rest)[0] == drive[0] && (drive + rest)[1] == drive[1];
  }

  lemma PlainInFront(p: Bytes)
    requires !HasDrive(p)
    ensures !HasDrive("/" + p)
  {
    assert ("/" + p)[1..] == p;
  }

  lemma UnescapeUri(client: Client, p: Bytes)
    requires IsBytes(p)
    ensures QueryUnescape(EncodedPath(client, p)) ==
      Some("/" + if HasDrive(p) then DriveOf(p) + TrimPrefix(p, DriveOf(p)) else p)
  {
    if HasDrive(p) {
      var drive, rest := DriveOf(p), TrimPrefix(p, DriveOf(p));
      UnescapeDrive(client, drive, rest);
      UnescapePlain('/', DriveText(client, drive) + EscapePath(rest));
    } else {
      UnescapeEscaped(p);
      UnescapePlain('/', EscapePath(p));
    }
  }

  lemma UnescapeDrive(client: Client, drive: Bytes, rest: Bytes)
    requires |drive| == 2 && StartsWithDrive(drive) && IsBytes(drive) && IsBytes(rest)
    ensures QueryUnescape(DriveText(client, drive) + EscapePath(rest)) == Some(drive + rest)
  {
    if client.VSCode? {
      EscapedDrive(drive);
      EscapeConcat(drive, rest);
      UnescapeEscaped(drive + rest);
    } else {
      UnescapeEscaped(rest);
      TwoPlain(drive[0], drive[1], EscapePath(rest), rest);
      TwoInFront(drive, EscapePath(rest));
      TwoInFront(drive, rest);
    }
  }

  lemma TwoPlain(a: char, b: char, e: Bytes, s: Bytes)
    requires a != '%' && a != '+' && b != '%' && b != '+' && QueryUnescape(e) == Some(s)
    ensures QueryUnescape([a] + ([b] + e)) == Some([a] + ([b] + s))
  {
    UnescapePlain(b, e);
    UnescapePlain(a, [b] + e);
  }

  lemma TwoInFront(two: Bytes, s: Bytes)
    requires |two| == 2
    ensures two + s == [two[0]] + ([two[1]] + s)
  {
  }

  lemma EscapedDrive(drive: Bytes)
    requires |drive| == 2 && StartsWithDrive(drive)
    ensures QueryEscape(drive) == EscapePath(drive)
  {
    assert drive == [drive[0], ':'];
    assert drive[1..] == ":" && drive[1..][1..] == [];
    assert QueryEscape(":") == Percent(':') + QueryEscape([]);
    assert EscapePath(":") == Percent(':') + EscapePath([]);
  }

  /** Absolute paths come back exactly if neither one slash nor two are followed by a drive, whichever client the URI
      is for. */
  lemma AbsoluteRoundTrip(client: Client, path: Bytes)
    requires IsBytes(path) && path != [] && path[0] == '/'
    ensures ToPath(UriOf(client, path)) == path <==>
            !DriveAt(path, 1) && !(|path| > 1 && path[1] == '/' && DriveAt(path, 2))
  {
    ThereAndBack(client, path);
    assert !(SCHEME <= path) by {
      assert SCHEME[0] != path[0];
    }
    assert Normal(path) == path[1..];
    assert "/" + path[1..] == path;
    if HasDrive(path[1..]) {
      assert (DriveOf(path[1..]) + TrimPrefix(path[1..], DriveOf(path[1..])))[0] != '/';
    }
  }

  /** For example, this path loses its slash. */
  lemma DriveLosesSlash(client: Client)
    ensures ToPath(UriOf(client, "/C:/x")) == "C:/x"
  {
    var path := "/C:/x";
    ThereAndBack(client, path);
    assert path[1..] == "C:/x" && Normal(path) == path[1..];
    assert DriveOf("C:/x") + TrimPrefix("C:/x", DriveOf("C:/x")) == "C:/x";
  }
}
