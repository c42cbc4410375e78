/** From line operations to the text edits of the Language Server Protocol: internal/lsp/format.go,
    with the meaning of positions from internal/lsp/types/types.go and internal/util/util.go. */
module TextEdits {
  import opened EditDistance
  import opened Operations

  datatype Position = Position(line: nat, character: nat)

  datatype Range = Range(start: Position, end: Position)

  datatype TextEdit = TextEdit(range: Range, newText: string)

  function RangeBetween(startLine: nat, startCharacter: nat, endLine: nat, endCharacter: nat): Range {
    Range(Position(startLine, startCharacter), Position(endLine, endCharacter))
  }

  // ----- Lines -----

  /** The pieces of a text, each but the last ending in a newline. */
  function SplitAfter(text: string): (pieces: seq<string>)
    ensures pieces != []
  {
    if '\n' !in text then [text]
    else
      var i := FirstNewline(text);
      [text[..i + 1]] + SplitAfter(text[i + 1..])
  }

  function FirstNewline(text: string): (i: nat)
    requires '\n' in text
    ensures i < |text| && text[i] == '\n' && '\n' !in text[..i]
  {
    NewlineFrom(text, 0)
  }

  function NewlineFrom(text: string, i: nat): (n: nat)
    requires i <= |text| && '\n' in text && '\n' !in text[..i]
    ensures n < |text| && text[n] == '\n' && '\n' !in text[..n]
    decreases |text| - i
  {
    if text[i] == '\n' then i
    else
      assert text[..i + 1] == text[..i] + [text[i]];
      NewlineFrom(text, i + 1)
  }

  function SplitLines(text: string): seq<Line> {
    var lines := SplitAfter(text);
    if lines[|lines| - 1] == "" then lines[..|lines| - 1] else lines
  }

  function Concat(lines: seq<string>): string {
    if lines == [] then "" else Concat(lines[..|lines| - 1]) + lines[|lines| - 1]
  }

  lemma {:induction false} ConcatAppend(s: seq<string>, t: seq<string>)
    ensures Concat(s + t) == Concat(s) + Concat(t)
    decreases |t|
  {
    if t == [] {
      assert s + t == s;
    } else {
      var init := t[..|t| - 1];
      assert (s + t)[..|s + t| - 1] == s + init;
      ConcatAppend(s, init);
    }
  }

  lemma ConcatOne(piece: string)
    ensures Concat([piece]) == piece
  {
    assert [piece][..0] == [];
  }

  lemma SplitAfterOnce(text: string) returns (head: string, rest: string)
    requires '\n' in text
    ensures text == head + rest && head != ""
    ensures SplitAfter(text) == [head] + SplitAfter(rest)
  {
    head, rest := text[..FirstNewline(text) + 1], text[FirstNewline(text) + 1..];
  }

  lemma {:induction false} SplitAfterConcat(text: string)
    ensures Concat(SplitAfter(text)) == text
    decreases |text|
  {
    if '\n' !in text {
      ConcatOne(text);
    } else {
      var head, rest := SplitAfterOnce(text);
      SplitAfterConcat(rest);
      ConcatOne(head);
      ConcatAppend([head], SplitAfter(rest));
    }
  }

  /** No character is lost by splitting, and no line is empty. */
  lemma SplitLinesConcat(text: string)
    ensures Concat(SplitLines(text)) == text
    ensures "" !in SplitLines(text)
  {
    SplitAfterConcat(text);
    OnlyLastPieceEmpty(text);
    DropEmptyLast(SplitAfter(text));
  }

  lemma DropEmptyLast(pieces: seq<string>)
    requires pieces != [] && forall i :: 0 <= i < |pieces| - 1 ==> pieces[i] != ""
    ensures var lines := if pieces[|pieces| - 1] == "" then pieces[..|pieces| - 1] else pieces;
      Concat(lines) == Concat(pieces) && "" !in lines
  {
  }

  lemma {:induction false} OnlyLastPieceEmpty(text: string)
    ensures var pieces := SplitAfter(text); forall i :: 0 <= i < |pieces| - 1 ==> pieces[i] != ""
    decreases |text|
  {
    if '\n' in text {
      var head, rest := SplitAfterOnce(text);
      OnlyLastPieceEmpty(rest);
    }
  }

  // ----- Positions -----

  function CountNewlines(text: string): nat {
    if text == "" then 0 else CountNewlines(text[..|text| - 1]) + if text[|text| - 1] == '\n' then 1 else 0
  }

  /** i is the index of the n-th newline of text. */
  ghost predicate IsNthNewline(text: string, n: nat, i: int) {
    n > 0 && 0 <= i < |text| && text[i] == '\n' && CountNewlines(text[..i]) == n - 1
  }

  lemma {:induction false} CountNewlinesAppend(s: string, t: string)
    ensures CountNewlines(s + t) == CountNewlines(s) + CountNewlines(t)
    decreases |t|
  {
    if t == "" {
      assert s + t == s;
    } else {
      assert (s + t)[..|s + t| - 1] == s + t[..|t| - 1];
      CountNewlinesAppend(s, t[..|t| - 1]);
    }
  }

  lemma {:induction false} NoNewlines(s: string)
    requires '\n' !in s
    ensures CountNewlines(s) == 0
  {
    if s != "" {
      NoNewlines(s[..|s| - 1]);
    }
  }

  lemma CountOfPrefix(s: string, i: nat)
    requires i <= |s|
    ensures CountNewlines(s[..i]) <= CountNewlines(s)
    ensures '\n' !in s[i..] ==> CountNewlines(s[..i]) == CountNewlines(s)
  {
    CountNewlinesAppend(s[..i], s[i..]);
    assert s == s[..i] + s[i..];
    if '\n' !in s[i..] {
      NoNewlines(s[i..]);
    }
  }

  lemma CountUpTo(s: string, i: nat, n: nat)
    requires i <= n < |s| && s[n] == '\n' && '\n' !in s[i..n]
    ensures CountNewlines(s[..n]) == CountNewlines(s[..i])
    ensures CountNewlines(s[..n + 1]) == CountNewlines(s[..i]) + 1
  {
    assert s[..n][i..] == s[i..n] && s[..n][..i] == s[..i];
    CountOfPrefix(s[..n], i);
    assert s[..n + 1][..n] == s[..n];
  }

  /** The index of the first newline from position i on, or -1. */
  method IndexOfNewline(s: string, i: nat) returns (d: int)
    requires i <= |s|
    ensures d == -1 ==> '\n' !in s[i..]
    ensures d != -1 ==> 0 <= d && i + d < |s| && s[i + d] == '\n' && '\n' !in s[i..i + d]
  {
    var j := i;
    while j < |s|
      invariant i <= j <= |s| && '\n' !in s[i..j]
    {
      if s[j] == '\n' {
        return j - i;
      }
      j := j + 1;
    }
    assert s[i..] == s[i..j];
    return -1;
  }

  /** The index of the n-th newline, or -1 when there are fewer, or when n is zero. */
  method IndexNewlineNth(s: string, n0: nat) returns (index: int)
    ensures index == -1 <==> n0 == 0 || CountNewlines(s) < n0
    ensures index != -1 ==> IsNthNewline(s, n0, index)
  {
    var i: nat, n := 0, n0;
    while n > 0
      invariant 0 <= n <= n0 && i <= |s|
      invariant CountNewlines(s[..i]) == n0 - n
      invariant if n == n0 then i == 0 else i > 0 && s[i - 1] == '\n' && CountNewlines(s[..i - 1]) == n0 - n - 1
    {
      var d := IndexOfNewline(s, i);
      if d == -1 {
        CountOfPrefix(s, i);
        return -1;
      }
      CountUpTo(s, i, i + d);
      i := i + d + 1;
      n := n - 1;
    }
    CountOfPrefix(s, i);
    return i - 1;
  }

  /** Where line n of text starts: after its n-th newline, or at the end of a text with fewer lines. */
  ghost function LineStart(text: string, n: nat): nat {
    if n == 0 then 0
    else if '\n' !in text then |text|
    else FirstNewline(text) + 1 + LineStart(text[FirstNewline(text) + 1..], n - 1)
  }

  /** The flat offset of a position; a line beyond the last one means the end of the text. */
  ghost function Offset(p: Position, text: string): nat {
    if p.line <= CountNewlines(text) then LineStart(text, p.line) + p.character else |text|
  }

  lemma CountAcrossNewline(text: string, f: nat)
    requires f < |text| && text[f] == '\n'
    ensures CountNewlines(text) == CountNewlines(text[..f]) + 1 + CountNewlines(text[f + 1..])
  {
    assert text == text[..f] + ("\n" + text[f + 1..]);
    CountNewlinesAppend(text[..f], "\n" + text[f + 1..]);
    CountNewlinesAppend("\n", text[f + 1..]);
    assert CountNewlines("\n") == 1;
  }

  lemma CutTwice(text: string, f: nat, i: nat)
    requires f < i <= |text|
    ensures text[..i][..f] == text[..f] && text[..i][f + 1..] == text[f + 1..][..i - f - 1]
  {
  }

  lemma {:induction false} LineStartAfterNewline(text: string, n: nat, i: int)
    requires IsNthNewline(text, n, i)
    ensures LineStart(text, n) == i + 1
    decreases n
  {
    var f := FirstNewline(text);
    NoNewlines(text[..f]);
    assert forall j :: 0 <= j < f ==> text[j] == text[..f][j];
    if i > f {
      var rest := text[f + 1..];
      CountAcrossNewline(text[..i], f);
      CutTwice(text, f, i);
      LineStartAfterNewline(rest, n - 1, i - f - 1);
    }
  }

  method ToOffset(p: Position, text: string) returns (offset: nat)
    ensures offset == Offset(p, text)
  {
    if p.line == 0 {
      return p.character;
    }
    var newline := IndexNewlineNth(text, p.line);
    if newline > -1 {
      LineStartAfterNewline(text, p.line, newline);
      return newline + 1 + p.character;
    }
    return |text|;
  }

  lemma NthIsCounted(text: string, n: nat, i: int)
    requires IsNthNewline(text, n, i)
    ensures n <= CountNewlines(text)
  {
    CountAcrossNewline(text, i);
  }

  /** What a position means: so many characters after the newline that ends the line before; past the last line, the
      end of the text. */
  lemma PositionMeans(p: Position, text: string, i: int)
    ensures p.line == 0 ==> Offset(p, text) == p.character
    ensures IsNthNewline(text, p.line, i) ==> Offset(p, text) == i + 1 + p.character
    ensures p.line > CountNewlines(text) ==> Offset(p, text) == |text|
  {
    if IsNthNewline(text, p.line, i) {
      LineStartAfterNewline(text, p.line, i);
      NthIsCounted(text, p.line, i);
    }
  }

  lemma {:induction false} LineStartOfPiece(text: string, n: nat)
    requires n < |SplitAfter(text)|
    ensures LineStart(text, n) == |Concat(SplitAfter(text)[..n])|
    decreases |text|
  {
    if n > 0 {
      var f := FirstNewline(text);
      var rest := text[f + 1..];
      LineStartOfPiece(rest, n - 1);
      assert SplitAfter(text)[..n] == [text[..f + 1]] + SplitAfter(rest)[..n - 1];
      ConcatAppend([text[..f + 1]], SplitAfter(rest)[..n - 1]);
      ConcatOne(text[..f + 1]);
    }
  }

  lemma {:induction false} NewlinesAndPieces(text: string)
    ensures |SplitAfter(text)| == CountNewlines(text) + 1
    decreases |text|
  {
    if '\n' in text {
      var f := FirstNewline(text);
      NewlinesAndPieces(text[f + 1..]);
      NoNewlines(text[..f]);
      CountAcrossNewline(text, f);
    } else {
      NoNewlines(text);
    }
  }

  /** Line n, counted up to and including the line after the last, starts where n lines end. */
  lemma OffsetOfLine(text: string, n: nat)
    requires n <= |SplitLines(text)|
    ensures Offset(Position(n, 0), text) == |Concat(SplitLines(text)[..n])|
  {
    NewlinesAndPieces(text);
    var pieces, lines := SplitAfter(text), SplitLines(text);
    if n < |pieces| {
      LineStartOfPiece(text, n);
      assert lines[..n] == pieces[..n];
    } else {
      assert lines[..n] == lines;
      SplitLinesConcat(text);
    }
  }

  function NumLines(s: string): nat {
    CountNewlines(s) + 1
  }

  /** The characters from i to e are a line without its newline, if one starts at i. */
  predicate EndsLine(text: string, i: nat, e: nat) {
    i <= e <= |text| && '\n' !in text[i..e] && (e < |text| ==> text[e] == '\n')
  }

  function WithNewline(text: string, i: nat, e: nat): string
    requires EndsLine(text, i, e)
  {
    text[i..e] + if e < |text| then "\n" else ""
  }

  /** What Line cuts out is a piece of the text. */
  lemma {:induction false} PieceIsLine(text: string, n: nat, e: nat)
    requires n <= CountNewlines(text) && EndsLine(text, LineStart(text, n), e)
    ensures n < |SplitAfter(text)| && (n + 1 < |SplitAfter(text)| <==> e < |text|)
    ensures SplitAfter(text)[n] == WithNewline(text, LineStart(text, n), e)
    decreases n
  {
    if n == 0 {
      FirstPiece(text, e);
    } else {
      var g := LaterLine(text, n);
      InTheRest(text, g, n, e);
      PieceIsLine(text[g..], n - 1, e - g);
      assert SplitAfter(text)[n] == SplitAfter(text)[1..][n - 1];
    }
  }

  lemma FirstPiece(text: string, e: nat)
    requires EndsLine(text, 0, e)
    ensures 1 < |SplitAfter(text)| <==> e < |text|
    ensures SplitAfter(text)[0] == WithNewline(text, 0, e)
  {
    if e < |text| {
      var f := FirstNewline(text);
      assert forall j :: 0 <= j < e ==> text[j] == text[0..e][j];
      assert forall j :: 0 <= j < f ==> text[j] == text[..f][j];
      assert text[..e + 1] == text[0..e] + "\n";
    } else {
      assert text[0..e] == text;
    }
  }

  /** A line but the first is a line of what follows the first newline. */
  lemma LaterLine(text: string, n: nat) returns (g: nat)
    requires 0 < n <= CountNewlines(text)
    ensures 0 < g <= |text| && n - 1 <= CountNewlines(text[g..])
    ensures |SplitAfter(text)| == 1 + |SplitAfter(text[g..])| && SplitAfter(text)[1..] == SplitAfter(text[g..])
    ensures LineStart(text, n) == g + LineStart(text[g..], n - 1)
  {
    if '\n' !in text {
      NoNewlines(text);
    }
    g := FirstNewline(text) + 1;
    NoNewlines(text[..g - 1]);
    CountAcrossNewline(text, g - 1);
  }

  lemma InTheRest(text: string, g: nat, n: nat, e: nat)
    requires n > 0 && g <= |text| && LineStart(text, n) == g + LineStart(text[g..], n - 1)
    requires EndsLine(text, LineStart(text, n), e)
    ensures EndsLine(text[g..], LineStart(text[g..], n - 1), e - g)
    ensures WithNewline(text[g..], LineStart(text[g..], n - 1), e - g) == WithNewline(text, LineStart(text, n), e)
  {
    CutFromRest(text, g, LineStart(text[g..], n - 1), e);
  }

  lemma CutFromRest(text: string, g: nat, i: nat, e: nat)
    requires g <= |text| && EndsLine(text, g + i, e)
    ensures EndsLine(text[g..], i, e - g) && WithNewline(text[g..], i, e - g) == WithNewline(text, g + i, e)
  {
    assert text[g..][i..e - g] == text[g + i..e];
  }

  /** Line lineNum, counted from one, without its newline. */
  method Line(s: string, lineNum: nat) returns (line: string, ok: bool)
    ensures ok <==> 1 <= lineNum <= NumLines(s)
    ensures |SplitAfter(s)| == NumLines(s)
    ensures ok ==> SplitAfter(s)[lineNum - 1] == line + if lineNum < NumLines(s) then "\n" else ""
  {
    NewlinesAndPieces(s);
    if lineNum == 0 {
      return "", false;
    }
    var start := 0;
    if lineNum > 1 {
      var newline := IndexNewlineNth(s, lineNum - 1);
      if newline == -1 {
        return "", false;
      }
      LineStartAfterNewline(s, lineNum - 1, newline);
      CountOfPrefix(s, newline + 1);
      assert s[..newline + 1][..newline] == s[..newline];
      start := newline + 1;
    }
    line := LineFrom(s, lineNum - 1, start);
    return line, true;
  }

  method LineFrom(s: string, ghost n: nat, start: nat) returns (line: string)
    requires n <= CountNewlines(s) && start == LineStart(s, n) && start <= |s|
    ensures n < |SplitAfter(s)|
    ensures SplitAfter(s)[n] == line + if n + 1 < |SplitAfter(s)| then "\n" else ""
  {
    var length := IndexOfNewline(s, start);
    if length == -1 {
      assert s[start..] == s[start..|s|];
      PieceIsLine(s, n, |s|);
      return s[start..];
    }
    PieceIsLine(s, n, start + length);
    return s[start..start + length];
  }

  // ----- Edits -----

  /** The edits are in order, do not overlap and lie within the first n characters of text. */
  ghost predicate InOrder(edits: seq<TextEdit>, text: string, n: nat) {
    edits == [] ||
    var range := edits[|edits| - 1].range;
    && Offset(range.start, text) <= Offset(range.end, text) <= n <= |text|
    && InOrder(edits[..|edits| - 1], text, Offset(range.start, text))
  }

  /** What a client makes of the first n characters of text: every range is replaced by its new text. */
  ghost function Apply(edits: seq<TextEdit>, text: string, n: nat): string
    requires n <= |text| && InOrder(edits, text, n)
    decreases |edits|
  {
    if edits == [] then text[..n]
    else
      var edit := edits[|edits| - 1];
      Apply(edits[..|edits| - 1], text, Offset(edit.range.start, text)) +
      edit.newText + text[Offset(edit.range.end, text)..n]
  }

  function EditOf(op: Operation): TextEdit {
    if op.kind.Insert? then TextEdit(RangeBetween(op.i1, 0, op.i1, 0), Concat(op.content))
    else TextEdit(RangeBetween(op.i1, 0, op.i2, 0), "")
  }

  /** The length of the first x lines of text. */
  ghost function LengthOf(text: string, x: nat): nat
    requires x <= |SplitLines(text)|
  {
    |Concat(SplitLines(text)[..x])|
  }

  /** Edits made one by one from line operations do to the text what the operations do to its lines. */
  lemma {:induction false} EditsRewrite(ops: seq<Operation>, edits: seq<TextEdit>, text: string, x: nat)
    requires |edits| == |ops| && forall i :: 0 <= i < |ops| ==> edits[i] == EditOf(ops[i])
    requires x <= |SplitLines(text)| && WellPlaced(ops, x)
    ensures LengthOf(text, x) <= |text| && InOrder(edits, text, LengthOf(text, x))
    ensures Apply(edits, text, LengthOf(text, x)) == Concat(Rewrite(ops, SplitLines(text)[..x]))
    decreases |ops|
  {
    PrefixOfText(text, x);
    if ops != [] {
      var op := ops[|ops| - 1];
      EditsRewrite(ops[..|ops| - 1], edits[..|edits| - 1], text, op.i1);
      OffsetOfLine(text, op.i1);
      OffsetOfLine(text, op.i2);
      SliceOfText(text, op.i1, op.i2);
      SliceOfText(text, op.i2, x);
      ConcatRewrite(ops, SplitLines(text), x);
      assert edits[|edits| - 1] == EditOf(op);
    }
  }

  lemma ConcatRewrite(ops: seq<Operation>, lines: seq<Line>, x: nat)
    requires ops != [] && x <= |lines| && WellPlaced(ops, x)
    ensures var op, init := ops[|ops| - 1], ops[..|ops| - 1];
      Concat(Rewrite(ops, lines[..x])) ==
      Concat(Rewrite(init, lines[..op.i1])) + EditOf(op).newText + Concat(lines[op.i2..x])
  {
    var op := ops[|ops| - 1];
    var init := Rewrite(ops[..|ops| - 1], lines[..op.i1]);
    var content := if op.kind.Insert? then op.content else [];
    assert lines[..x][..op.i1] == lines[..op.i1] && lines[..x][op.i2..] == lines[op.i2..x];
    ConcatAppend(init, content);
    ConcatAppend(init + content, lines[op.i2..x]);
  }

  lemma PrefixOfText(text: string, x: nat)
    requires x <= |SplitLines(text)|
    ensures var n := |Concat(SplitLines(text)[..x])|; n <= |text| && text[..n] == Concat(SplitLines(text)[..x])
  {
    var lines := SplitLines(text);
    SplitLinesConcat(text);
    ConcatAppend(lines[..x], lines[x..]);
    assert lines == lines[..x] + lines[x..];
  }

  lemma SliceOfText(text: string, x: nat, x': nat)
    requires x <= x' <= |SplitLines(text)|
    ensures var lines := SplitLines(text);
      var n, n' := |Concat(lines[..x])|, |Concat(lines[..x'])|;
      n <= n' <= |text| && text[n..n'] == Concat(lines[x..x'])
  {
    var lines := SplitLines(text);
    PrefixOfText(text, x);
    PrefixOfText(text, x');
    ConcatAppend(lines[..x], lines[x..x']);
    assert lines[..x'] == lines[..x] + lines[x..x'];
  }

  lemma {:induction false} InsertedTextIsNotEmpty(ops: seq<Operation>, a: seq<Line>)
    requires WellPlaced(ops, |a|)
    requires "" !in Rewrite(ops, a)
    ensures forall i :: 0 <= i < |ops| && ops[i].kind.Insert? ==> Concat(ops[i].content) != ""
    decreases |ops|
  {
    if ops != [] {
      var op, init := ops[|ops| - 1], ops[..|ops| - 1];
      assert forall line :: line in Rewrite(init, a[..op.i1]) ==> line in Rewrite(ops, a);
      InsertedTextIsNotEmpty(init, a[..op.i1]);
      if op.kind.Insert? {
        assert op.content[|op.content| - 1] in Rewrite(ops, a);
      }
      forall i | 0 <= i < |ops| && ops[i].kind.Insert?
        ensures Concat(ops[i].content) != ""
      {
        assert i < |init| ==> init[i] == ops[i];
      }
    }
  }

  lemma {:induction false} KindsOf(ops: seq<Operation>, n: nat)
    requires WellPlaced(ops, n)
    ensures forall i :: 0 <= i < |ops| ==> ops[i].kind.Delete? || ops[i].kind.Insert?
    decreases |ops|
  {
    if ops != [] {
      KindsOf(ops[..|ops| - 1], ops[|ops| - 1].i1);
      forall i | 0 <= i < |ops|
        ensures ops[i].kind.Delete? || ops[i].kind.Insert?
      {
        assert i < |ops| - 1 ==> ops[..|ops| - 1][i] == ops[i];
      }
    }
  }

  /** One turn of the loop. */
  method AppendEdit(edits: seq<TextEdit>, op: Operation) returns (r: seq<TextEdit>)
    requires op.kind.Delete? || (op.kind.Insert? && Concat(op.content) != "")
    ensures r == edits + [EditOf(op)]
  {
    r := edits;
    match op.kind {
      case Delete =>
        r := edits + [TextEdit(RangeBetween(op.i1, 0, op.i2, 0), "")];
      case Insert =>
        var content := Concat(op.content);
        if content != "" {
          r := edits + [TextEdit(RangeBetween(op.i1, 0, op.i1, 0), content)];
        }
      case Equal =>
    }
  }

  /** The edits turn before into after, whatever the two texts are, and never overlap. */
  method ComputeEdits(before: string, after: string) returns (edits: seq<TextEdit>)
    ensures InOrder(edits, before, |before|)
    ensures Apply(edits, before, |before|) == after
  {
    var lines := SplitLines(before);
    var ops := LineOperations(lines, SplitLines(after));
    SplitLinesConcat(before);
    SplitLinesConcat(after);
    InsertedTextIsNotEmpty(ops, lines);
    KindsOf(ops, |lines|);

    edits := [];
    var i := 0;
    while i < |ops|
      invariant 0 <= i <= |ops| && |edits| == i
      invariant forall j :: 0 <= j < i ==> edits[j] == EditOf(ops[j])
    {
      edits := AppendEdit(edits, ops[i]);
      i := i + 1;
    }
    EditsRewrite(ops, edits, before, |lines|);
    assert lines[..|lines|] == lines;
  }
}
