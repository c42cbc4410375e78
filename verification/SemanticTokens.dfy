/** Semantic tokens in the relative encoding of LSP 3.17: internal/lsp/semantictokens/semantictokens.go. */
module SemanticTokens {
  import S = StableSort

  const WORD := 0x1_0000_0000

  type Word = n: nat | n < WORD

  datatype Token = Token(line: nat, col: nat, length: nat, kind: nat, modifiers: nat)

  /** All fields are 32-bit words. */
  predicate Fits(t: Token) {
    t.line < WORD && t.col < WORD && t.length < WORD && t.kind < WORD && t.modifiers < WORD
  }

  predicate AllFit(tokens: seq<Token>) {
    forall i :: 0 <= i < |tokens| ==> Fits(tokens[i])
  }

  /** Unsigned subtraction, which wraps. */
  function Minus(a: Word, b: Word): Word {
    (a - b + WORD) % WORD
  }

  /** The comparison by position; its arguments are converted to wider integers first. */
  function ByPosition(a: Token, b: Token): int {
    if a.line != b.line then a.line - b.line else a.col - b.col
  }

  /** Reads five words a token. */
  function Decoded(data: seq<Word>): seq<Token>
    requires |data| % 5 == 0
  {
    if data == [] then []
    else
      var before := Decoded(data[..|data| - 5]);
      before + [TokenAfter(PositionOf(before), data[|data| - 5..])]
  }

  /** The line is relative to the token before; so is the column, on the same line. */
  function TokenAfter(position: (nat, nat), five: seq<Word>): Token
    requires |five| == 5
  {
    Token(position.0 + five[0], if five[0] == 0 then position.1 + five[1] else five[1], five[2], five[3], five[4])
  }

  /** The position of the last token. */
  function PositionOf(tokens: seq<Token>): (nat, nat) {
    if tokens == [] then (0, 0) else (tokens[|tokens| - 1].line, tokens[|tokens| - 1].col)
  }

  lemma ByPositionIsOrder()
    ensures S.IsOrder(ByPosition)
  {
    var cmp := ByPosition;
    assert forall x :: cmp(x, x) == ByPosition(x, x);
    assert forall x, y :: cmp(x, y) == ByPosition(x, y);
  }

  lemma SortedFits(tokens: seq<Token>, sorted: seq<Token>)
    requires AllFit(tokens) && multiset(sorted) == multiset(tokens)
    ensures AllFit(sorted)
  {
    forall i | 0 <= i < |sorted|
      ensures Fits(sorted[i])
    {
      assert sorted[i] in multiset(tokens);
    }
  }

  /** Decoding gives back all tokens, by position. Since the reader's additions do not wrap, no difference has. */
  method Full(packages: seq<Token>, vars: seq<Token>, imports: seq<Token>) returns (data: seq<Word>)
    requires AllFit(packages) && AllFit(vars) && AllFit(imports)
    ensures |data| % 5 == 0
    ensures S.Ascending(ByPosition, Decoded(data))
    ensures multiset(Decoded(data)) == multiset(packages) + multiset(vars) + multiset(imports)
  {
    var tokens := packages + vars + imports;
    if |tokens| == 0 {
      return [];
    }
    ByPositionIsOrder();
    S.SortSorts(ByPosition, tokens);
    SortedFits(tokens, S.Sort(ByPosition, tokens));
    tokens := S.Sort(ByPosition, tokens);
    data := Encode(tokens);
  }

  method Encode(tokens: seq<Token>) returns (data: seq<Word>)
    requires AllFit(tokens) && S.Ascending(ByPosition, tokens)
    ensures |data| % 5 == 0 && Decoded(data) == tokens
  {
    data := [];
    var prevLine, prevCol := 0, 0;
    for i := 0 to |tokens|
      invariant |data| % 5 == 0 && Decoded(data) == tokens[..i]
      invariant (prevLine, prevCol) == PositionOf(tokens[..i]) && prevLine < WORD && prevCol < WORD
    {
      NoUnderflow(tokens, i);
      var five := EncodeToken(tokens[i], prevLine, prevCol);
      OneMore(data, five);
      data := data + five;
      prevLine, prevCol := tokens[i].line, tokens[i].col;
    }
  }

  method EncodeToken(tok: Token, prevLine: Word, prevCol: Word) returns (five: seq<Word>)
    requires Fits(tok) && prevLine <= tok.line && (prevLine == tok.line ==> prevCol <= tok.col)
    ensures |five| == 5 && TokenAfter((prevLine, prevCol), five) == tok
  {
    var deltaLine := Minus(tok.line, prevLine);
    var deltaCol: Word := tok.col;
    if deltaLine == 0 {
      deltaCol := Minus(tok.col, prevCol);
    }
    five := [deltaLine, deltaCol, tok.length, tok.kind, tok.modifiers];
  }

  lemma NoUnderflow(tokens: seq<Token>, i: nat)
    requires S.Ascending(ByPosition, tokens) && i < |tokens|
    ensures var (line, col) := PositionOf(tokens[..i]);
      line <= tokens[i].line && (line == tokens[i].line ==> col <= tokens[i].col)
  {
    if i > 0 {
      assert ByPosition(tokens[i - 1], tokens[i]) <= 0;
    }
  }

  lemma OneMore(data: seq<Word>, five: seq<Word>)
    requires |data| % 5 == 0 && |five| == 5
    ensures |data + five| % 5 == 0
    ensures Decoded(data + five) == Decoded(data) + [TokenAfter(PositionOf(Decoded(data)), five)]
  {
    assert (data + five)[..|data|] == data && (data + five)[|data|..] == five;
  }
}
