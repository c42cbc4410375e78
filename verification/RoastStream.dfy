/** The streaming codecs: internal/roast/encoding and internal/roast/encoding/write/streams.go. */
module RoastStream {
  import opened Json
  import opened Roast

  // ----- Unfinished output -----

  /** Members in an object that is still open: each is followed by a comma. */
  function Opened(base: seq<Token>, members: seq<Member>): seq<Token> {
    base + ([Open] + PrintMembers(members) + if members == [] then [] else [Comma])
  }

  /** The first n elements of an array that is still open. */
  function UpTo(base: seq<Token>, items: seq<Json>, n: nat): seq<Token>
    requires n <= |items|
  {
    base + ([OpenList] + PrintItems(items[..n]))
  }

  function Trimmed(ts: seq<Token>): seq<Token> {
    if ts != [] && ts[|ts| - 1] == Comma then Trimmed(ts[..|ts| - 1]) else ts
  }

  lemma MemberWritten(base: seq<Token>, members: seq<Member>, m: Member)
    ensures Opened(base, members) + [Field(m.name)] + Print(m.value) + [Comma] == Opened(base, members + [m])
  {
    PrintOneMoreMember(members, m);
  }

  lemma NothingWritten(base: seq<Token>, members: seq<Member>)
    ensures Opened(base, members + []) == Opened(base, members)
  {
    assert members + [] == members;
  }

  lemma ItemWritten(base: seq<Token>, items: seq<Json>, n: nat)
    requires n < |items|
    ensures UpTo(base, items, n) + (if n > 0 then [Comma] else []) + Print(items[n]) == UpTo(base, items, n + 1)
  {
    PrintOneMoreItem(items[..n], items[n]);
    assert items[..n] + [items[n]] == items[..n + 1];
  }

  lemma ListWritten(base: seq<Token>, items: seq<Json>)
    ensures UpTo(base, items, |items|) + [CloseList] == base + Print(List(items))
  {
    assert items[..|items|] == items;
  }

  lemma {:induction false} MembersEnd(members: seq<Member>)
    requires members != []
    ensures PrintMembers(members) != [] && PrintMembers(members)[|PrintMembers(members)| - 1] != Comma
    decreases |members|
  {
    PrintEnds(members[0].value);
    if |members| > 1 {
      MembersEnd(members[1..]);
    }
  }

  /** The comma after the last member goes, and no other. */
  lemma ObjectClosed(base: seq<Token>, members: seq<Member>)
    ensures Trimmed(Opened(base, members)) + [Close] == base + Print(Record(members))
  {
    if members == [] {
      assert Opened(base, members)[|base|] == Open;
    } else {
      MembersEnd(members);
      var kept := base + ([Open] + PrintMembers(members));
      assert Opened(base, members) == kept + [Comma];
      assert (kept + [Comma])[..|kept|] == kept;
      assert kept[|kept| - 1] != Comma;
    }
  }

  /** The last member may also be written without a comma. */
  lemma LastMemberClosed(base: seq<Token>, members: seq<Member>, m: Member)
    ensures var ts := Opened(base, members) + [Field(m.name)] + Print(m.value);
      Trimmed(ts) == ts && ts + [Close] == base + Print(Record(members + [m]))
  {
    LastMember(base, members, m);
    PrintEnds(m.value);
    var ts := Opened(base, members) + [Field(m.name)] + Print(m.value);
    assert ts[|ts| - 1] == Print(m.value)[|Print(m.value)| - 1];
    assert ts + [Close] == base + ([Open] + PrintMembers(members + [m]) + [Close]);
  }

  lemma LastMember(base: seq<Token>, members: seq<Member>, m: Member)
    ensures Opened(base, members) + [Field(m.name)] + Print(m.value) == base + ([Open] + PrintMembers(members + [m]))
  {
    PrintOneMoreMember(members, m);
    Regroup(base, [Open], PrintMembers(members), if members == [] then [] else [Comma],
            [Field(m.name)], Print(m.value));
  }

  lemma Regroup(a: seq<Token>, b: seq<Token>, c: seq<Token>, d: seq<Token>, e: seq<Token>, f: seq<Token>)
    ensures a + (b + c + d) + e + f == a + (b + (c + d + (e + f)))
  {
    assert b + c + d + e + f == b + (c + d + (e + f));
    assert a + (b + c + d) + e + f == a + (b + c + d + e + f);
  }

  class Stream {
    var buf: seq<Token>
    /** Whether the attachment says that the next expression is a part of a template string. */
    var interpolated: bool

    constructor ()
      ensures buf == [] && !interpolated
    {
      buf, interpolated := [], false;
    }

    method Write(t: Token)
      modifies `buf
      ensures buf == old(buf) + [t]
    {
      buf := buf + [t];
    }

    /** The comma before every element of an array but the first. */
    method More(i: nat)
      modifies `buf
      ensures buf == old(buf) + if i > 0 then [Comma] else []
    {
      if i > 0 {
        Write(Comma);
      }
    }

    method ObjectStart(loc: Loc)
      modifies `buf
      ensures buf == Opened(old(buf), LocMember(loc))
    {
      Write(Open);
      if loc.Some? {
        NothingYet(old(buf));
        String(Location, loc.value, old(buf), []);
      }
    }

    method ObjectEnd()
      modifies `buf
      ensures buf == Trimmed(old(buf)) + [Close]
    {
      while buf != [] && buf[|buf| - 1] == Comma
        invariant Trimmed(buf) == Trimmed(old(buf))
        decreases |buf|
      {
        buf := buf[..|buf| - 1];
      }
      Write(Close);
    }

    /** Ends the object in which these members have been written. */
    method EndObject(ghost base: seq<Token>, ghost members: seq<Member>)
      requires buf == Opened(base, members)
      modifies `buf
      ensures buf == base + Print(Record(members))
    {
      ObjectEnd();
      ObjectClosed(base, members);
    }

    method String(field: Name, val: string, ghost base: seq<Token>, ghost members: seq<Member>)
      requires buf == Opened(base, members)
      modifies `buf
      ensures buf == Opened(base, members + [Member(field, TextJson(val))])
    {
      Write(Field(field));
      Write(Lit(Text(val)));
      Write(Comma);
      MemberWritten(base, members, Member(field, TextJson(val)));
    }

    method Bool(field: Name, val: bool, ghost base: seq<Token>, ghost members: seq<Member>)
      requires buf == Opened(base, members)
      modifies `buf
      ensures buf == Opened(base, members + [Member(field, Leaf(Truth(val)))])
    {
      Write(Field(field));
      Write(Lit(Truth(val)));
      Write(Comma);
      MemberWritten(base, members, Member(field, Leaf(Truth(val))));
    }

    /** A flag that is only written when it is set. */
    method SetFlag(field: Name, val: bool, ghost base: seq<Token>, ghost members: seq<Member>)
      requires buf == Opened(base, members)
      modifies `buf
      ensures buf == Opened(base, members + Flag(field, val))
    {
      NothingWritten(base, members);
      if val {
        Bool(field, val, base, members);
      }
    }

    // ----- Terms and values -----

    method EncodeTerm(t: Term)
      requires !interpolated
      modifies this
      ensures !interpolated && buf == old(buf) + Print(TermJson(t))
      decreases t, 2
    {
      ghost var base, members := buf, LocMember(t.loc);
      ObjectStart(t.loc);
      String(Type, NameOf(t.value), base, members);
      members := members + [Member(Type, TextJson(NameOf(t.value)))];
      Write(Field(Name.Value));
      EncodeValue(t.value);
      Write(Comma);
      ghost var m := Member(Name.Value, ValueJson(t.value));
      MemberWritten(base, members, m);
      EndObject(base, members + [m]);
    }

    /** A member that holds a term. */
    method TermAttr(field: Name, t: Term, ghost base: seq<Token>, ghost members: seq<Member>)
      requires !interpolated && buf == Opened(base, members)
      modifies this
      ensures !interpolated && buf == Opened(base, members + [Member(field, TermJson(t))])
      decreases t, 3
    {
      Write(Field(field));
      EncodeTerm(t);
      Write(Comma);
      MemberWritten(base, members, Member(field, TermJson(t)));
    }

    method EncodeTerms(ts: seq<Term>)
      requires !interpolated
      modifies this
      ensures !interpolated && buf == old(buf) + Print(TermsJson(ts))
      decreases ts, 0
    {
      ghost var base, items := buf, TermsJson(ts).items;
      Write(OpenList);
      for i := 0 to |ts|
        invariant !interpolated && buf == UpTo(base, items, i)
      {
        More(i);
        EncodeTerm(ts[i]);
        ItemWritten(base, items, i);
      }
      Write(CloseList);
      ListWritten(base, items);
    }

    method EncodePairs(pairs: seq<Pair>)
      requires !interpolated
      modifies this
      ensures !interpolated && buf == old(buf) + Print(PairsJson(pairs))
      decreases pairs, 0
    {
      ghost var base, items := buf, PairsJson(pairs).items;
      Write(OpenList);
      for i := 0 to |pairs|
        invariant !interpolated && buf == UpTo(base, items, i)
      {
        More(i);
        EncodePair(pairs[i]);
        ItemWritten(base, items, i);
      }
      Write(CloseList);
      ListWritten(base, items);
    }

    method EncodePair(p: Pair)
      requires !interpolated
      modifies this
      ensures !interpolated && buf == old(buf) + Print(PairJson(p))
      decreases p, 0
    {
      Write(OpenList);
      EncodeTerm(p.key);
      Write(Comma);
      EncodeTerm(p.value);
      Write(CloseList);
      PairWritten(old(buf), p);
    }

    method EncodeValue(v: Value)
      requires !interpolated
      modifies this
      ensures !interpolated && buf == old(buf) + Print(ValueJson(v))
      decreases v, 1
    {
      match v {
        case Scalar(_, atom) =>
          Write(Lit(atom));
        case Terms(_, terms) =>
          EncodeTerms(terms);
        case ObjectValue(pairs) =>
          EncodePairs(pairs);
        case ArrayComprehension(_, _) =>
          EncodeComprehension(v);
        case SetComprehension(_, _) =>
          EncodeComprehension(v);
        case ObjectComprehension(_, _, _) =>
          EncodeObjectComprehension(v);
        case TemplateString(_, _) =>
          EncodeTemplate(v);
      }
    }

    method EncodeComprehension(v: Value)
      requires v.ArrayComprehension? || v.SetComprehension?
      requires !interpolated
      modifies this
      ensures !interpolated && buf == old(buf) + Print(ValueJson(v))
      decreases v, 0
    {
      ghost var base, members := buf, [Member(Name.Term, TermJson(v.term))];
      Write(Open);
      NothingYet(base);
      TermAttr(Name.Term, v.term, base, []);
      assert [] + members == members;
      Write(Field(Body));
      EncodeBody(v.body);
      LastMemberClosed(base, members, Member(Body, BodyJson(v.body)));
      Write(Close);
    }

    method EncodeObjectComprehension(v: Value)
      requires v.ObjectComprehension?
      requires !interpolated
      modifies this
      ensures !interpolated && buf == old(buf) + Print(ValueJson(v))
      decreases v, 0
    {
      ghost var base, members := buf, [Member(Key, TermJson(v.key))];
      ObjectStart(None);
      TermAttr(Key, v.key, base, []);
      assert [] + members == members;
      TermAttr(Name.Value, v.value, base, members);
      members := members + [Member(Name.Value, TermJson(v.value))];
      BodyAttr(Body, v.body, base, members);
      EndObject(base, members + [Member(Body, BodyJson(v.body))]);
    }

    // ----- Template strings -----

    method EncodeTemplate(v: Value)
      requires v.TemplateString?
      requires !interpolated
      modifies this
      ensures !interpolated && buf == old(buf) + Print(ValueJson(v))
      decreases v, 0
    {
      ghost var base, members := buf, Flag(MultiLine, v.multiLine);
      Write(Open);
      NothingYet(base);
      SetFlag(MultiLine, v.multiLine, base, []);
      assert [] + members == members;
      Write(Field(Parts));
      EncodeParts(v.parts);
      LastMemberClosed(base, members, Member(Parts, PartsJson(v.parts)));
      Write(Close);
    }

    method EncodeParts(parts: seq<Part>)
      requires !interpolated
      modifies this
      ensures !interpolated && buf == old(buf) + Print(PartsJson(parts))
      decreases parts, 0
    {
      ghost var base, items := buf, PartsJson(parts).items;
      Write(OpenList);
      for i := 0 to |parts|
        invariant !interpolated && buf == UpTo(base, items, i)
      {
        More(i);
        if parts[i].ExprPart? {
          interpolated := true;
        }
        EncodePart(parts[i]);
        ItemWritten(base, items, i);
      }
      Write(CloseList);
      ListWritten(base, items);
    }

    method EncodePart(p: Part)
      requires interpolated == p.ExprPart?
      modifies this
      ensures !interpolated && buf == old(buf) + Print(PartJson(p))
      decreases p, 0
    {
      match p {
        case TermPart(term) =>
          EncodeTerm(term);
        case ExprPart(expr) =>
          EncodeExpr(expr);
      }
    }

    // ----- Expressions -----

    method EncodeBody(body: seq<Expr>)
      requires !interpolated
      modifies this
      ensures !interpolated && buf == old(buf) + Print(BodyJson(body))
      decreases body, 0
    {
      ghost var base, items := buf, BodyJson(body).items;
      Write(OpenList);
      for i := 0 to |body|
        invariant !interpolated && buf == UpTo(base, items, i)
      {
        More(i);
        EncodeExpr(body[i]);
        ItemWritten(base, items, i);
      }
      Write(CloseList);
      ListWritten(base, items);
    }

    /** A member that holds a body. */
    method BodyAttr(field: Name, body: seq<Expr>, ghost base: seq<Token>, ghost members: seq<Member>)
      requires !interpolated && buf == Opened(base, members)
      modifies this
      ensures !interpolated && buf == Opened(base, members + [Member(field, BodyJson(body))])
      decreases body, 1
    {
      Write(Field(field));
      EncodeBody(body);
      Write(Comma);
      MemberWritten(base, members, Member(field, BodyJson(body)));
    }

    /** The attachment, if there is one, is spent before anything below the expression is written. */
    method EncodeExpr(e: Expr)
      modifies this
      ensures !interpolated && buf == old(buf) + Print(ExprJson(e, old(interpolated)))
      decreases e, 1
    {
      ghost var base, members := buf, LocMember(e.loc);
      ObjectStart(e.loc);
      SetFlag(Negated, e.negated, base, members);
      members := members + Flag(Negated, e.negated);
      SetFlag(Generated, e.generated, base, members);
      members := members + Flag(Generated, e.generated);
      SetFlag(Interpolated, interpolated, base, members);
      members := members + Flag(Interpolated, interpolated);
      interpolated := false;
      WithsAttr(e.withs, base, members);
      members := members + WithsMember(e.withs);
      EncodeExprTerms(e.terms, base, members);
    }

    method WithsAttr(withs: seq<With>, ghost base: seq<Token>, ghost members: seq<Member>)
      requires !interpolated && buf == Opened(base, members)
      modifies this
      ensures !interpolated && buf == Opened(base, members + WithsMember(withs))
      decreases withs, 1
    {
      if |withs| > 0 {
        Write(Field(Name.With));
        EncodeWiths(withs);
        Write(Comma);
        MemberWritten(base, members, Member(Name.With, WithsJson(withs)));
      } else {
        NothingWritten(base, members);
      }
    }

    method EncodeWiths(withs: seq<With>)
      requires !interpolated
      modifies this
      ensures !interpolated && buf == old(buf) + Print(WithsJson(withs))
      decreases withs, 0
    {
      ghost var base, items := buf, WithsJson(withs).items;
      Write(OpenList);
      for i := 0 to |withs|
        invariant !interpolated && buf == UpTo(base, items, i)
      {
        More(i);
        EncodeWith(withs[i]);
        ItemWritten(base, items, i);
      }
      Write(CloseList);
      ListWritten(base, items);
    }

    method EncodeWith(w: With)
      requires !interpolated
      modifies this
      ensures !interpolated && buf == old(buf) + Print(WithJson(w))
      decreases w, 0
    {
      ghost var base, members := buf, LocMember(w.loc);
      ObjectStart(w.loc);
      TermAttr(Target, w.target, base, members);
      members := members + [Member(Target, TermJson(w.target))];
      Write(Field(Name.Value));
      EncodeTerm(w.value);
      LastMemberClosed(base, members, Member(Name.Value, TermJson(w.value)));
      ObjectEnd();
    }

    /** The terms of an expression, and the end of its object. */
    method EncodeExprTerms(terms: ExprTerms, ghost base: seq<Token>, ghost members: seq<Member>)
      requires !interpolated && buf == Opened(base, members)
      modifies this
      ensures !interpolated && buf == base + Print(Record(members + ExprTermsMember(terms)))
      decreases terms, 2
    {
      if terms.NoTerms? {
        assert members + [] == members;
        EndObject(base, members);
      } else {
        Write(Field(Name.Terms));
        EncodeTermsOf(terms);
        LastMemberClosed(base, members, Member(Name.Terms, ExprTermsJson(terms)));
        ObjectEnd();
      }
    }

    method EncodeTermsOf(terms: ExprTerms)
      requires !interpolated && !terms.NoTerms?
      modifies this
      ensures !interpolated && buf == old(buf) + Print(ExprTermsJson(terms))
      decreases terms, 1
    {
      match terms {
        case OneTerm(term) =>
          EncodeTerm(term);
        case ManyTerms(ts) =>
          EncodeTerms(ts);
        case SomeDecl(_, _) =>
          EncodeSomeDecl(terms);
        case Every(_, _, _, _, _) =>
          EncodeEvery(terms);
        case Not(_, _, _) =>
          EncodeNot(terms);
        case Logical(_, _, _, _, _, _) =>
          EncodeLogical(terms);
      }
    }

    method EncodeSomeDecl(t: ExprTerms)
      requires t.SomeDecl?
      requires !interpolated
      modifies this
      ensures !interpolated && buf == old(buf) + Print(ExprTermsJson(t))
      decreases t, 0
    {
      ghost var base, members := buf, LocMember(t.loc);
      ObjectStart(t.loc);
      Write(Field(Symbols));
      EncodeTerms(t.symbols);
      Write(Comma);
      ghost var m := Member(Symbols, TermsJson(t.symbols));
      MemberWritten(base, members, m);
      EndObject(base, members + [m]);
    }

    method EncodeEvery(t: ExprTerms)
      requires t.Every?
      requires !interpolated
      modifies this
      ensures !interpolated && buf == old(buf) + Print(ExprTermsJson(t))
      decreases t, 0
    {
      ghost var base, members := buf, LocMember(t.loc);
      ObjectStart(t.loc);
      NothingWritten(base, members);
      if t.key.Some? {
        TermAttr(Key, t.key.value, base, members);
      }
      members := members + KeyMember(t.key);
      TermAttr(Name.Value, t.value, base, members);
      members := members + [Member(Name.Value, TermJson(t.value))];
      TermAttr(Domain, t.domain, base, members);
      members := members + [Member(Domain, TermJson(t.domain))];
      Write(Field(Body));
      EncodeBody(t.body);
      LastMemberClosed(base, members, Member(Body, BodyJson(t.body)));
      Write(Close);
    }

    method EncodeNot(t: ExprTerms)
      requires t.Not?
      requires !interpolated
      modifies this
      ensures !interpolated && buf == old(buf) + Print(ExprTermsJson(t))
      decreases t, 0
    {
      ghost var base, members := buf, LocMember(t.loc);
      ObjectStart(t.loc);
      String(Type, "not", base, members);
      members := members + [Member(Type, TextJson("not"))];
      SetFlag(ExplicitBody, t.explicitBody, base, members);
      members := members + Flag(ExplicitBody, t.explicitBody);
      BodyAttr(Body, t.body, base, members);
      EndObject(base, members + [Member(Body, BodyJson(t.body))]);
    }

    method EncodeLogical(t: ExprTerms)
      requires t.Logical?
      requires !interpolated
      modifies this
      ensures !interpolated && buf == old(buf) + Print(ExprTermsJson(t))
      decreases t, 0
    {
      ghost var base, members := buf, LocMember(t.loc);
      ObjectStart(t.loc);
      String(Type, OperatorName(t.op), base, members);
      members := members + [Member(Type, TextJson(OperatorName(t.op)))];
      SetFlag(ExplicitLhs, t.explicitLhs, base, members);
      members := members + Flag(ExplicitLhs, t.explicitLhs);
      SetFlag(ExplicitRhs, t.explicitRhs, base, members);
      members := members + Flag(ExplicitRhs, t.explicitRhs);
      BodyAttr(Lhs, t.lhs, base, members);
      members := members + [Member(Lhs, BodyJson(t.lhs))];
      BodyAttr(Rhs, t.rhs, base, members);
      EndObject(base, members + [Member(Rhs, BodyJson(t.rhs))]);
    }
  }

  lemma PairWritten(base: seq<Token>, p: Pair)
    ensures base + [OpenList] + Print(TermJson(p.key)) + [Comma] + Print(TermJson(p.value)) + [CloseList] ==
            base + Print(PairJson(p))
  {
    var items := PairJson(p).items;
    var key, value := Print(items[0]), Print(items[1]);
    assert items[1..] == [items[1]];
    assert PrintItems(items) == key + [Comma] + value;
    assert base + [OpenList] + key + [Comma] + value + [CloseList] ==
           base + ([OpenList] + (key + [Comma] + value) + [CloseList]);
  }

  lemma NothingYet(base: seq<Token>)
    ensures base + [Open] == Opened(base, [])
  {
  }
}
