/** Cutting spans out of a text given as lines: removeLocations in pkg/fixer/fixes/fixes.go. */
module RemoveLocations {

  datatype End = Nowhere | At(row: int, column: int)

  /** Rows and columns count from one; the end is exclusive. */
  datatype Location = Location(row: int, column: int, end: End)

  // ----- Lines and flat offsets -----

  function Terminated(lines: seq<string>): string {
    if lines == [] then "" else Terminated(lines[..|lines| - 1]) + lines[|lines| - 1] + "\n"
  }

  /** strings.Join with newlines. */
  function JoinLines(lines: seq<string>): string {
    if lines == [] then "" else Terminated(lines[..|lines| - 1]) + lines[|lines| - 1]
  }

  ghost function Offset(lines: seq<string>, row: int, column: int): int
    requires 0 <= row <= |lines|
  {
    |Terminated(lines[..row])| + column
  }

  /** What follows a line in the joined text. */
  function AfterLine(rest: seq<string>): string {
    if rest == [] then "" else "\n" + JoinLines(rest)
  }

  lemma JoinSplit(before: seq<string>, line: string, rest: seq<string>)
    ensures JoinLines(before + [line] + rest) == Terminated(before) + (line + AfterLine(rest))
  {
    if rest == [] {
      assert before + [line] + rest == before + [line];
      TerminatedInit(before, line);
      assert line + "" == line;
    } else {
      var init, last := rest[..|rest| - 1], rest[|rest| - 1];
      assert before + [line] + rest == (before + [line] + init) + [last];
      TerminatedInit(before + [line] + init, last);
      TerminatedSplit(before, line, init);
      Associate5(Terminated(before), line, "\n", Terminated(init), last);
    }
  }

  lemma Associate5(s: string, t: string, u: string, v: string, w: string)
    ensures s + (t + (u + v)) + w == s + (t + (u + (v + w)))
  {
    Associate(u, v, w);
    Associate(t, u + v, w);
    Associate(s, t + (u + v), w);
  }

  lemma Associate(s: string, t: string, u: string)
    ensures s + t + u == s + (t + u)
  {
  }

  lemma {:induction false} TerminatedSplit(before: seq<string>, line: string, rest: seq<string>)
    ensures Terminated(before + [line] + rest) == Terminated(before) + (line + ("\n" + Terminated(rest)))
    decreases |rest|
  {
    var lines := before + [line] + rest;
    if rest == [] {
      assert lines == before + [line];
      assert lines[..|lines| - 1] == before;
      Associate(Terminated(before), line, "\n");
      assert "\n" + "" == "\n";
    } else {
      var init, last := rest[..|rest| - 1], rest[|rest| - 1];
      assert lines[..|lines| - 1] == before + [line] + init;
      TerminatedSplit(before, line, init);
      Associate5(Terminated(before), line, "\n", Terminated(init), last + "\n");
      Associate(Terminated(init), last, "\n");
      Associate(Terminated(before + [line] + init), last, "\n");
    }
  }

  lemma TerminatedInit(init: seq<string>, last: string)
    ensures JoinLines(init + [last]) == Terminated(init) + last
  {
    assert (init + [last])[..|init|] == init;
  }

  /** The text up to a column of a line, and from that column on. */
  lemma TextAt(lines: seq<string>, row: int, column: int)
    requires 0 <= row < |lines| && 0 <= column <= |lines[row]|
    ensures var text, offset := JoinLines(lines), Offset(lines, row, column);
      && 0 <= offset <= |text|
      && text[..offset] == Terminated(lines[..row]) + lines[row][..column]
      && text[offset..] == lines[row][column..] + AfterLine(lines[row + 1..])
  {
    JoinSplit(lines[..row], lines[row], lines[row + 1..]);
    assert lines == lines[..row] + [lines[row]] + lines[row + 1..];
    assert lines[row] == lines[row][..column] + lines[row][column..];
  }

  /** A part of one line and a part of a later one make one line; the lines between are gone. */
  function Cut(lines: seq<string>, r: int, column: int, e: int, endColumn: int): seq<string>
    requires 0 <= r <= e < |lines| && 0 <= column <= |lines[r]| && 0 <= endColumn <= |lines[e]|
  {
    lines[..r] + [lines[r][..column] + lines[e][endColumn..]] + lines[e + 1..]
  }

  /** Joining the first part of one line and the second part of a later one removes the text between. */
  lemma CutText(lines: seq<string>, row: int, column: int, endRow: int, endColumn: int)
    requires 0 <= row <= endRow < |lines| && 0 <= column <= |lines[row]| && 0 <= endColumn <= |lines[endRow]|
    ensures var start, end, text := Offset(lines, row, column), Offset(lines, endRow, endColumn), JoinLines(lines);
      && 0 <= start <= |text| && 0 <= end <= |text|
      && JoinLines(Cut(lines, row, column, endRow, endColumn)) == text[..start] + text[end..]
  {
    var merged := lines[row][..column] + lines[endRow][endColumn..];
    JoinSplit(lines[..row], merged, lines[endRow + 1..]);
    TextAt(lines, row, column);
    TextAt(lines, endRow, endColumn);
    Regroup(Terminated(lines[..row]), lines[row][..column], lines[endRow][endColumn..], AfterLine(lines[endRow + 1..]));
  }

  lemma Regroup(s: string, t: string, u: string, v: string)
    ensures s + ((t + u) + v) == (s + t) + (u + v)
  {
  }

  lemma {:induction false} TerminatedGrows(lines: seq<string>, row: int, row': int)
    requires 0 <= row < row' <= |lines|
    ensures Offset(lines, row', 0) >= Offset(lines, row, |lines[row]|) + 1
    decreases row'
  {
    assert lines[..row'][..row' - 1] == lines[..row' - 1];
    if row < row' - 1 {
      TerminatedGrows(lines, row, row' - 1);
    }
  }

  // ----- Spans -----

  /** A range of flat offsets, the end excluded. */
  datatype Span = Span(start: int, end: int)

  ghost predicate Covered(spans: set<Span>, i: int) {
    exists span :: span in spans && span.start <= i < span.end
  }

  /** The characters of the text from position i on that no span covers. */
  ghost function Uncovered(text: string, spans: set<Span>, i: nat): string
    requires i <= |text|
    decreases |text| - i
  {
    if i == |text| then ""
    else (if Covered(spans, i) then "" else [text[i]]) + Uncovered(text, spans, i + 1)
  }

  lemma {:induction false} SkipCovered(text: string, spans: set<Span>, i: nat, j: nat)
    requires i <= j <= |text| && forall k :: i <= k < j ==> Covered(spans, k)
    ensures Uncovered(text, spans, i) == Uncovered(text, spans, j)
    decreases j - i
  {
    if i < j {
      SkipCovered(text, spans, i + 1, j);
      assert Covered(spans, i);
    }
  }

  lemma {:induction false} KeepUncovered(text: string, spans: set<Span>, i: nat, j: nat)
    requires i <= j <= |text| && forall k :: i <= k < j ==> !Covered(spans, k)
    ensures Uncovered(text, spans, i) == text[i..j] + Uncovered(text, spans, j)
    decreases j - i
  {
    if i < j {
      KeepUncovered(text, spans, i + 1, j);
      assert !Covered(spans, i);
      assert text[i..j] == [text[i]] + text[i + 1..j];
      Associate([text[i]], text[i + 1..j], Uncovered(text, spans, j));
    }
  }

  lemma {:induction false} SameCover(text: string, spans: set<Span>, spans': set<Span>, i: nat)
    requires i <= |text| && forall k :: i <= k ==> Covered(spans, k) == Covered(spans', k)
    ensures Uncovered(text, spans, i) == Uncovered(text, spans', i)
    decreases |text| - i
  {
    if i < |text| {
      SameCover(text, spans, spans', i + 1);
      assert Covered(spans, i) == Covered(spans', i);
    }
  }

  /** Adding a span in front of all others skips it and keeps what lies between. */
  lemma SpanAdded(text: string, spans: set<Span>, span: Span, p: int)
    requires 0 <= span.start < span.end <= p <= |text|
    requires forall s :: s in spans ==> p <= s.start
    ensures Uncovered(text, spans + {span}, span.start) == text[span.end..p] + Uncovered(text, spans, p)
  {
    var all := spans + {span};
    forall k | span.start <= k < span.end
      ensures Covered(all, k)
    {
      assert span in all;
    }
    SkipCovered(text, all, span.start, span.end);
    KeepUncovered(text, all, span.end, p);
    SameCover(text, spans, all, p);
  }

  /** Both ends are positions of the text, up to and including the end of a line. */
  predicate InText(lines: seq<string>, loc: Location) {
    && loc.end.At?
    && 1 <= loc.row <= loc.end.row <= |lines|
    && 1 <= loc.column <= |lines[loc.row - 1]| + 1
    && 1 <= loc.end.column <= |lines[loc.end.row - 1]| + 1
  }

  /** What the code cuts: the location also starts before the end of its line. */
  predicate Within(lines: seq<string>, loc: Location) {
    InText(lines, loc) && loc.column <= |lines[loc.row - 1]|
  }

  ghost function SpanOf(lines: seq<string>, loc: Location): Span
    requires InText(lines, loc)
  {
    Span(Offset(lines, loc.row - 1, loc.column - 1), Offset(lines, loc.end.row - 1, loc.end.column - 1))
  }

  ghost predicate IsSpan(lines: seq<string>, loc: Location) {
    InText(lines, loc) && SpanOf(lines, loc).start < SpanOf(lines, loc).end
  }

  ghost predicate Apart(s: Span, t: Span) {
    s.end <= t.start || t.end <= s.start
  }

  /** Every location with an end is a non-empty span of the text, listed once, and apart from all others. */
  ghost predicate Disjoint(lines: seq<string>, locations: multiset<Location>) {
    && (forall a :: a in locations && a.end.At? ==> IsSpan(lines, a) && locations[a] == 1)
    && (forall a, b :: a in locations && b in locations && a.end.At? && b.end.At? && a != b ==>
          Apart(SpanOf(lines, a), SpanOf(lines, b)))
  }

  /** The spans of all locations that have an end. */
  ghost function SpansOf(lines: seq<string>, locations: multiset<Location>): set<Span> {
    set loc | loc in locations && InText(lines, loc) :: SpanOf(lines, loc)
  }

  /** The spans of those that start before the end of their line. */
  ghost function CutSpans(lines: seq<string>, locations: multiset<Location>): set<Span> {
    set loc | loc in locations && Within(lines, loc) :: SpanOf(lines, loc)
  }

  // ----- Sorting -----

  /** a may stand before b: bottom-up, and right to left within a row. */
  predicate Before(a: Location, b: Location) {
    a.row > b.row || (a.row == b.row && a.column >= b.column)
  }

  predicate Sorted(s: seq<Location>) {
    forall i, j :: 0 <= i < j < |s| ==> Before(s[i], s[j])
  }

  /** Puts x behind all locations that need not stand behind it. */
  function Insert(s: seq<Location>, x: Location): seq<Location> {
    if s == [] || !Before(s[0], x) then [x] + s else [s[0]] + Insert(s[1..], x)
  }

  /** The order that slices.SortStableFunc puts the locations in. */
  function InOrder(locations: seq<Location>): seq<Location> {
    if locations == [] then [] else Insert(InOrder(locations[..|locations| - 1]), locations[|locations| - 1])
  }

  method Sort(locations: seq<Location>) returns (sorted: seq<Location>)
    ensures sorted == InOrder(locations)
  {
    sorted := [];
    for n := 0 to |locations|
      invariant sorted == InOrder(locations[..n])
    {
      assert locations[..n + 1][..n] == locations[..n];
      sorted := Insert(sorted, locations[n]);
    }
    assert locations[..|locations|] == locations;
  }

  lemma {:induction false} InsertSorts(s: seq<Location>, x: Location)
    requires Sorted(s)
    ensures multiset(Insert(s, x)) == multiset(s) + multiset{x}
    ensures Sorted(Insert(s, x))
  {
    if s == [] || !Before(s[0], x) {
      assert forall j :: 1 <= j < |s| ==> s != [] && Before(s[0], s[j]);
    } else {
      var r := Insert(s[1..], x);
      InsertSorts(s[1..], x);
      assert s == [s[0]] + s[1..];
      forall j | 0 <= j < |r|
        ensures Before(s[0], r[j])
      {
        assert r[j] in multiset(r);
        assert r[j] == x || r[j] in s[1..];
      }
    }
  }

  lemma {:induction false} InOrderSorts(locations: seq<Location>)
    ensures Sorted(InOrder(locations)) && multiset(InOrder(locations)) == multiset(locations)
  {
    if locations != [] {
      var n := |locations| - 1;
      InOrderSorts(locations[..n]);
      InsertSorts(InOrder(locations[..n]), locations[n]);
      assert locations == locations[..n] + [locations[n]];
    }
  }

  // ----- Cutting bottom-up -----

  /** The lines above a row, and the part of that row before a column, are as they were. */
  ghost predicate SameBefore(now: seq<string>, lines: seq<string>, row: int, column: int) {
    && 0 <= row < |now| && row < |lines| && 0 <= column <= |now[row]| && column <= |lines[row]|
    && now[..row] == lines[..row] && now[row][..column] == lines[row][..column]
  }

  /** From a position on, the spans have been cut out; all before it is untouched. */
  ghost predicate CutDownTo(now: seq<string>, lines: seq<string>, row: int, column: int, done: set<Span>) {
    && SameBefore(now, lines, row, column)
    && var text, p := JoinLines(lines), Offset(lines, row, column);
      && 0 <= p <= |text|
      && JoinLines(now) == text[..p] + Uncovered(text, done, p)
      && forall span :: span in done ==> p <= span.start
  }

  /** A span that ends before the untouched part does still has its coordinates. */
  lemma StillInPlace(now: seq<string>, lines: seq<string>, row: int, column: int, loc: Location)
    requires SameBefore(now, lines, row, column)
    requires IsSpan(lines, loc) && SpanOf(lines, loc).end <= Offset(lines, row, column)
    ensures InText(now, loc) && SpanOf(now, loc) == SpanOf(lines, loc)
    ensures Within(now, loc) <==> Within(lines, loc)
    ensures SameBefore(now, lines, loc.row - 1, loc.column - 1)
  {
    var r, e := loc.row - 1, loc.end.row - 1;
    if e > row {
      TerminatedGrows(lines, row, e);
    }
    assert e < row || (e == row && loc.end.column - 1 <= column);
    assert now[..row][..r] == now[..r] && lines[..row][..r] == lines[..r];
    assert now[..row][..e] == now[..e] && lines[..row][..e] == lines[..e];
    assert e < row ==> now[e] == now[..row][e] == lines[..row][e] == lines[e];
    assert r < row ==> now[r] == now[..row][r] == lines[..row][r] == lines[r];
    if r == row {
      assert now[row][..column][..loc.column - 1] == lines[row][..column][..loc.column - 1];
    }
  }

  function CutAt(lines: seq<string>, loc: Location): seq<string>
    requires Within(lines, loc)
  {
    Cut(lines, loc.row - 1, loc.column - 1, loc.end.row - 1, loc.end.column - 1)
  }

  /** Locations without an end, or outside the lines as they are by then, are passed over. */
  function CutOrSkip(lines: seq<string>, loc: Location): seq<string> {
    if Within(lines, loc) then CutAt(lines, loc) else lines
  }

  /** The lines after the first n cuts. */
  function AfterCuts(lines: seq<string>, sorted: seq<Location>, n: nat): seq<string>
    requires n <= |sorted|
  {
    if n == 0 then lines else CutOrSkip(AfterCuts(lines, sorted, n - 1), sorted[n - 1])
  }

  /** Whether any of the first n locations was cut out. */
  predicate AnyCut(lines: seq<string>, sorted: seq<Location>, n: nat)
    requires n <= |sorted|
  {
    n > 0 && (AnyCut(lines, sorted, n - 1) || Within(AfterCuts(lines, sorted, n - 1), sorted[n - 1]))
  }

  lemma CutKeepsBefore(now: seq<string>, lines: seq<string>, r: int, c: int, e: int, endColumn: int)
    requires SameBefore(now, lines, r, c)
    requires r <= e < |now| && 0 <= endColumn <= |now[e]|
    ensures SameBefore(Cut(now, r, c, e, endColumn), lines, r, c)
  {
    var cut := Cut(now, r, c, e, endColumn);
    assert cut[..r] == now[..r] && cut[r] == now[r][..c] + now[e][endColumn..];
    assert cut[r][..c] == now[r][..c];
  }

  /** The text after a cut: what stands before the span, and what stands uncovered after it. */
  lemma TextAfterCut(text: string, done: set<Span>, p: int, span: Span, joined: string, cut: string)
    requires 0 <= span.start < span.end <= p <= |text|
    requires joined == text[..p] + Uncovered(text, done, p)
    requires cut == joined[..span.start] + joined[span.end..]
    requires forall s :: s in done ==> p <= s.start
    ensures cut == text[..span.start] + Uncovered(text, done + {span}, span.start)
  {
    SpanAdded(text, done, span, p);
    CutAround(text, p, Uncovered(text, done, p), span);
  }

  lemma CutFacts(now: seq<string>, lines: seq<string>, row: int, column: int, loc: Location) returns (cut: seq<string>)
    requires SameBefore(now, lines, row, column)
    requires IsSpan(lines, loc) && Within(lines, loc) && SpanOf(lines, loc).end <= Offset(lines, row, column)
    ensures Within(now, loc) && cut == CutAt(now, loc)
    ensures SameBefore(cut, lines, loc.row - 1, loc.column - 1)
    ensures var span, joined := SpanOf(lines, loc), JoinLines(now);
      && 0 <= span.start && span.end <= |joined|
      && JoinLines(cut) == joined[..span.start] + joined[span.end..]
  {
    StillInPlace(now, lines, row, column, loc);
    cut := CutAt(now, loc);
    CutKeepsBefore(now, lines, loc.row - 1, loc.column - 1, loc.end.row - 1, loc.end.column - 1);
    CutAtText(now, loc);
  }

  lemma CutAtText(lines: seq<string>, loc: Location)
    requires Within(lines, loc)
    ensures var span, joined := SpanOf(lines, loc), JoinLines(lines);
      && 0 <= span.start <= |joined| && 0 <= span.end <= |joined|
      && JoinLines(CutAt(lines, loc)) == joined[..span.start] + joined[span.end..]
  {
    var row, column, endRow, endColumn := loc.row - 1, loc.column - 1, loc.end.row - 1, loc.end.column - 1;
    CutText(lines, row, column, endRow, endColumn);
    assert CutAt(lines, loc) == Cut(lines, row, column, endRow, endColumn);
    assert SpanOf(lines, loc) == Span(Offset(lines, row, column), Offset(lines, endRow, endColumn));
  }

  lemma SpanCut(now: seq<string>, lines: seq<string>, row: int, column: int, done: set<Span>, loc: Location,
      cut: seq<string>)
    requires CutDownTo(now, lines, row, column, done)
    requires IsSpan(lines, loc) && SpanOf(lines, loc).end <= Offset(lines, row, column)
    requires SameBefore(cut, lines, loc.row - 1, loc.column - 1)
    requires var span, joined := SpanOf(lines, loc), JoinLines(now);
      && 0 <= span.start && span.end <= |joined|
      && JoinLines(cut) == joined[..span.start] + joined[span.end..]
    ensures CutDownTo(cut, lines, loc.row - 1, loc.column - 1, done + {SpanOf(lines, loc)})
  {
    TextAfterCut(JoinLines(lines), done, Offset(lines, row, column), SpanOf(lines, loc), JoinLines(now),
                 JoinLines(cut));
  }

  lemma CutAround(text: string, p: int, tail: string, span: Span)
    requires 0 <= span.start <= span.end <= p <= |text|
    ensures (text[..p] + tail)[..span.start] == text[..span.start]
    ensures (text[..p] + tail)[span.end..] == text[span.end..p] + tail
  {
  }

  lemma ListedTwice<T>(s: seq<T>, i: int, j: int)
    requires 0 <= i < j < |s| && s[i] == s[j]
    ensures multiset(s)[s[i]] >= 2
  {
    assert s == s[..i] + [s[i]] + s[i + 1..j] + [s[j]] + s[j + 1..];
  }

  /** In sorted order every span ends before the ones before it start. */
  lemma SortedSpansApart(lines: seq<string>, sorted: seq<Location>, i: int, j: int)
    requires Disjoint(lines, multiset(sorted)) && Sorted(sorted)
    requires 0 <= i < j < |sorted| && sorted[i].end.At? && sorted[j].end.At?
    ensures IsSpan(lines, sorted[i]) && IsSpan(lines, sorted[j])
    ensures SpanOf(lines, sorted[j]).end <= SpanOf(lines, sorted[i]).start
  {
    var a, b := sorted[i], sorted[j];
    assert a in multiset(sorted) && b in multiset(sorted);
    assert a != b by {
      if a == b {
        ListedTwice(sorted, i, j);
      }
    }
    assert Before(a, b);
    if a.row > b.row {
      TerminatedGrows(lines, b.row - 1, a.row - 1);
    }
    assert Apart(SpanOf(lines, a), SpanOf(lines, b));
  }

  lemma SpanInText(lines: seq<string>, loc: Location)
    requires InText(lines, loc)
    ensures SpanOf(lines, loc).end <= Offset(lines, |lines| - 1, |lines[|lines| - 1]|)
  {
    if loc.end.row < |lines| {
      TerminatedGrows(lines, loc.end.row - 1, |lines| - 1);
    }
  }

  /** The text without the characters that any of the spans covers. */
  ghost function Without(lines: seq<string>, locations: multiset<Location>): string {
    Uncovered(JoinLines(lines), SpansOf(lines, locations), 0)
  }

  /** The locations from n on are still to be cut, and end before what has been cut starts. */
  ghost predicate Ahead(lines: seq<string>, sorted: seq<Location>, n: int, row: int, column: int)
    requires 0 <= row <= |lines|
  {
    forall m :: 0 <= n <= m < |sorted| && sorted[m].end.At? ==>
      IsSpan(lines, sorted[m]) && SpanOf(lines, sorted[m]).end <= Offset(lines, row, column)
  }

  lemma AllCut(now: seq<string>, lines: seq<string>, row: int, column: int, done: set<Span>)
    requires CutDownTo(now, lines, row, column, done)
    ensures JoinLines(now) == Uncovered(JoinLines(lines), done, 0)
  {
    var text, p := JoinLines(lines), Offset(lines, row, column);
    KeepUncovered(text, done, 0, p);
    assert text[..p] == text[0..p];
  }

  lemma AheadOfNext(lines: seq<string>, sorted: seq<Location>, n: int)
    requires Disjoint(lines, multiset(sorted)) && Sorted(sorted)
    requires 0 <= n < |sorted| && sorted[n].end.At?
    ensures IsSpan(lines, sorted[n])
    ensures Ahead(lines, sorted, n + 1, sorted[n].row - 1, sorted[n].column - 1)
  {
    assert sorted[n] in multiset(sorted);
    forall m | n + 1 <= m < |sorted| && sorted[m].end.At?
      ensures IsSpan(lines, sorted[m]) && SpanOf(lines, sorted[m]).end <= SpanOf(lines, sorted[n]).start
    {
      SortedSpansApart(lines, sorted, n, m);
    }
  }

  lemma SpansGrow(lines: seq<string>, before: seq<Location>, loc: Location)
    ensures CutSpans(lines, multiset(before + [loc])) ==
            CutSpans(lines, multiset(before)) + if Within(lines, loc) then {SpanOf(lines, loc)} else {}
  {
  }

  ghost predicate AnyWithin(lines: seq<string>, locations: multiset<Location>) {
    exists loc :: loc in locations && Within(lines, loc)
  }

  lemma PrefixGrows(lines: seq<string>, sorted: seq<Location>, n: int)
    requires 0 <= n < |sorted|
    ensures CutSpans(lines, multiset(sorted[..n + 1])) == CutSpans(lines, multiset(sorted[..n]))
            + if Within(lines, sorted[n]) then {SpanOf(lines, sorted[n])} else {}
    ensures AnyWithin(lines, multiset(sorted[..n + 1])) <==>
            AnyWithin(lines, multiset(sorted[..n])) || Within(lines, sorted[n])
  {
    assert sorted[..n + 1] == sorted[..n] + [sorted[n]];
    SpansGrow(lines, sorted[..n], sorted[n]);
    assert forall loc :: loc in multiset(sorted[..n + 1]) <==> loc in multiset(sorted[..n]) || loc == sorted[n];
  }

  /** After n locations in sorted order. */
  ghost predicate Progress(now: seq<string>, fixed: bool, lines0: seq<string>, sorted: seq<Location>, n: nat,
      row: int, column: int) {
    && n <= |sorted|
    && 0 <= row < |lines0| && Ahead(lines0, sorted, n, row, column)
    && CutDownTo(now, lines0, row, column, CutSpans(lines0, multiset(sorted[..n])))
    && (fixed <==> AnyWithin(lines0, multiset(sorted[..n])))
  }

  lemma NothingToCut(now: seq<string>, fixed: bool, lines0: seq<string>, sorted: seq<Location>, n: nat, row: int,
      column: int)
    requires n < |sorted| && !Within(lines0, sorted[n])
    requires Progress(now, fixed, lines0, sorted, n, row, column)
    ensures Progress(CutOrSkip(now, sorted[n]), fixed || Within(now, sorted[n]), lines0, sorted, n + 1, row, column)
  {
    PrefixGrows(lines0, sorted, n);
    if sorted[n].end.At? {
      StillInPlace(now, lines0, row, column, sorted[n]);
    }
    assert CutSpans(lines0, multiset(sorted[..n + 1])) == CutSpans(lines0, multiset(sorted[..n]));
  }

  lemma CutMade(now: seq<string>, fixed: bool, lines0: seq<string>, sorted: seq<Location>, n: nat, row: int,
      column: int)
    requires Disjoint(lines0, multiset(sorted)) && Sorted(sorted)
    requires n < |sorted| && Within(lines0, sorted[n])
    requires Progress(now, fixed, lines0, sorted, n, row, column)
    ensures Progress(CutOrSkip(now, sorted[n]), fixed || Within(now, sorted[n]), lines0, sorted, n + 1,
                     sorted[n].row - 1, sorted[n].column - 1)
  {
    assert IsSpan(lines0, sorted[n]);
    var cut := CutFacts(now, lines0, row, column, sorted[n]);
    SpanCut(now, lines0, row, column, CutSpans(lines0, multiset(sorted[..n])), sorted[n], cut);
    PrefixGrows(lines0, sorted, n);
    AheadOfNext(lines0, sorted, n);
  }

  /** One turn of the loop. */
  method RemoveOne(lines: seq<string>, fixed: bool, loc: Location) returns (lines': seq<string>, fixed': bool)
    ensures lines' == CutOrSkip(lines, loc)
    ensures fixed' <==> fixed || Within(lines, loc)
  {
    if loc.end.Nowhere? {
      return lines, fixed;
    }
    var startRow, endRow := loc.row - 1, loc.end.row - 1;
    if startRow < 0 || endRow < startRow || endRow >= |lines| {
      return lines, fixed;
    }
    var startCol, endCol := loc.column - 1, loc.end.column - 1;
    if startCol < 0 || startCol >= |lines[startRow]| || endCol < 0 || endCol > |lines[endRow]| {
      return lines, fixed;
    }
    var merged := lines[startRow][..startCol] + lines[endRow][endCol..];
    return lines[..startRow] + [merged] + lines[endRow + 1..], true;
  }

  method RemoveAll(lines0: seq<string>, locations: seq<Location>) returns (lines: seq<string>, fixed: bool)
    ensures lines == AfterCuts(lines0, InOrder(locations), |InOrder(locations)|)
    ensures fixed <==> AnyCut(lines0, InOrder(locations), |InOrder(locations)|)
  {
    lines, fixed := lines0, false;
    var sorted := Sort(locations);
    for n := 0 to |sorted|
      invariant lines == AfterCuts(lines0, sorted, n)
      invariant fixed <==> AnyCut(lines0, sorted, n)
    {
      lines, fixed := RemoveOne(lines, fixed, sorted[n]);
    }
  }

  ghost predicate IsProgress(lines: seq<string>, sorted: seq<Location>, n: nat)
    requires n <= |sorted|
  {
    exists row, column :: Progress(AfterCuts(lines, sorted, n), AnyCut(lines, sorted, n), lines, sorted, n, row, column)
  }

  /** Of disjoint spans every one is still where it was when its turn comes. */
  lemma {:induction false} CutsProgress(lines: seq<string>, sorted: seq<Location>, n: nat)
    requires lines != [] && Disjoint(lines, multiset(sorted)) && Sorted(sorted) && n <= |sorted|
    ensures IsProgress(lines, sorted, n)
  {
    if n == 0 {
      FirstProgress(lines, sorted);
    } else {
      CutsProgress(lines, sorted, n - 1);
      NextProgress(lines, sorted, n - 1);
    }
  }

  lemma FirstProgress(lines: seq<string>, sorted: seq<Location>)
    requires lines != [] && Disjoint(lines, multiset(sorted))
    ensures IsProgress(lines, sorted, 0)
  {
    NothingCutYet(lines, sorted);
    assert AfterCuts(lines, sorted, 0) == lines && !AnyCut(lines, sorted, 0);
  }

  lemma NextProgress(lines: seq<string>, sorted: seq<Location>, n: nat)
    requires Disjoint(lines, multiset(sorted)) && Sorted(sorted) && n < |sorted|
    requires IsProgress(lines, sorted, n)
    ensures IsProgress(lines, sorted, n + 1)
  {
    var now, fixed := AfterCuts(lines, sorted, n), AnyCut(lines, sorted, n);
    var row, column :| Progress(now, fixed, lines, sorted, n, row, column);
    var row', column' := OneMoreCut(now, fixed, lines, sorted, n, row, column);
    var now', fixed' := AfterCuts(lines, sorted, n + 1), AnyCut(lines, sorted, n + 1);
    assert now' == CutOrSkip(now, sorted[n]) && fixed' == (fixed || Within(now, sorted[n]));
    assert Progress(now', fixed', lines, sorted, n + 1, row', column');
  }

  lemma OneMoreCut(now: seq<string>, fixed: bool, lines0: seq<string>, sorted: seq<Location>, n: nat, row: int,
      column: int)
    returns (row': int, column': int)
    requires Disjoint(lines0, multiset(sorted)) && Sorted(sorted) && n < |sorted|
    requires Progress(now, fixed, lines0, sorted, n, row, column)
    ensures Progress(CutOrSkip(now, sorted[n]), fixed || Within(now, sorted[n]), lines0, sorted, n + 1, row', column')
  {
    if !Within(lines0, sorted[n]) {
      row', column' := row, column;
      NothingToCut(now, fixed, lines0, sorted, n, row', column');
    } else {
      row', column' := sorted[n].row - 1, sorted[n].column - 1;
      CutMade(now, fixed, lines0, sorted, n, row, column);
    }
  }

  /** Of disjoint spans exactly those that start before the end of their line are cut out of the text. */
  lemma StartingBeforeLineEndIsCut(lines: seq<string>, locations: seq<Location>)
    requires lines != [] && Disjoint(lines, multiset(locations))
    ensures var sorted, spans := InOrder(locations), CutSpans(lines, multiset(locations));
      && JoinLines(AfterCuts(lines, sorted, |sorted|)) == Uncovered(JoinLines(lines), spans, 0)
      && (AnyCut(lines, sorted, |sorted|) <==> AnyWithin(lines, multiset(locations)))
  {
    var sorted := InOrder(locations);
    InOrderSorts(locations);
    CutsProgress(lines, sorted, |sorted|);
    var now, fixed := AfterCuts(lines, sorted, |sorted|), AnyCut(lines, sorted, |sorted|);
    var row, column :| Progress(now, fixed, lines, sorted, |sorted|, row, column);
    assert sorted[..|sorted|] == sorted;
    AllCut(now, lines, row, column, CutSpans(lines, multiset(sorted)));
  }

  /** Of disjoint spans exactly the characters are cut out of the text, whatever order they are given in, if and only if
      none of them starts at the end of a line. */
  lemma DisjointSpansAreCut(lines: seq<string>, locations: seq<Location>)
    requires lines != [] && Disjoint(lines, multiset(locations))
    ensures var sorted := InOrder(locations);
      JoinLines(AfterCuts(lines, sorted, |sorted|)) == Without(lines, multiset(locations)) <==>
      forall loc :: loc in locations && loc.end.At? ==> loc.column <= |lines[loc.row - 1]|
  {
    var all := multiset(locations);
    StartingBeforeLineEndIsCut(lines, locations);
    if loc :| loc in locations && loc.end.At? && loc.column > |lines[loc.row - 1]| {
      assert loc in all;
      SkippedStays(lines, all, loc);
    } else {
      assert CutSpans(lines, all) == SpansOf(lines, all);
    }
  }

  /** A span that is not cut leaves more text than there should be. */
  lemma SkippedStays(lines: seq<string>, locations: multiset<Location>, loc: Location)
    requires lines != [] && Disjoint(lines, locations) && loc in locations && InText(lines, loc) && !Within(lines, loc)
    ensures |Without(lines, locations)| < |Uncovered(JoinLines(lines), CutSpans(lines, locations), 0)|
  {
    var text, cut, all := JoinLines(lines), CutSpans(lines, locations), SpansOf(lines, locations);
    var span := SpanOf(lines, loc);
    assert span in all && cut <= all;
    assert !Covered(cut, span.start);
    SpanInText(lines, loc);
    TextAt(lines, |lines| - 1, |lines[|lines| - 1]|);
    TextAt(lines, loc.row - 1, loc.column - 1);
    FewerUncovered(text, cut, all, span.start, 0);
  }

  /** The more is covered, the less is left. */
  lemma {:induction false} FewerUncovered(text: string, spans: set<Span>, more: set<Span>, k: int, i: nat)
    requires spans <= more && i <= |text|
    requires 0 <= k < |text| && Covered(more, k) && !Covered(spans, k)
    ensures |Uncovered(text, more, i)| <= |Uncovered(text, spans, i)|
    ensures i <= k ==> |Uncovered(text, more, i)| < |Uncovered(text, spans, i)|
    decreases |text| - i
  {
    if i < |text| {
      FewerUncovered(text, spans, more, k, i + 1);
      assert Covered(spans, i) ==> Covered(more, i);
    }
  }

  /** A newline on its own is such a span: it stays. */
  lemma NewlineStays()
    ensures var lines, loc := ["a", "b"], Location(1, 2, At(2, 1));
      Disjoint(lines, multiset{loc}) && SpanOf(lines, loc) == Span(1, 2) && CutOrSkip(lines, loc) == lines
  {
    var lines := ["a", "b"];
    assert lines[..1] == ["a"] && lines[..0] == [] && ["a"][..0] == [];
    assert Terminated([]) == "" && Terminated(["a"]) == "a" + "\n";
  }

  lemma NothingCutYet(lines: seq<string>, sorted: seq<Location>)
    requires lines != [] && Disjoint(lines, multiset(sorted))
    ensures Progress(lines, false, lines, sorted, 0, |lines| - 1, |lines[|lines| - 1]|)
  {
    var row := |lines| - 1;
    TextAt(lines, row, |lines[row]|);
    assert lines[row][|lines[row]|..] == "" && lines[row + 1..] == [];
    forall m | 0 <= m < |sorted| && sorted[m].end.At?
      ensures IsSpan(lines, sorted[m]) && SpanOf(lines, sorted[m]).end <= Offset(lines, row, |lines[row]|)
    {
      assert sorted[m] in multiset(sorted);
      SpanInText(lines, sorted[m]);
    }
  }
}
