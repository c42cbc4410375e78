/** The direct conversion of the AST to a value: internal/roast/transforms/module/module.go. It is meant to give what
    encoding and decoding gives. */
module RoastTree {
  import opened Json
  import opened Roast
  import RoastStream

  type Fields = map<Name, Tree>

  function TextTree(s: string): Tree {
    Tree.Scalar(Text(s))
  }

  const TRUE := Tree.Scalar(Truth(true))

  function ObjectWithLocation(loc: Loc): Fields {
    if loc.None? then map[] else map[Location := TextTree(loc.value)]
  }

  function InsertIf(obj: Fields, name: Name, b: bool): Fields {
    if b then obj[name := TRUE] else obj
  }

  function TermTree(t: Term): Tree
    decreases t, 1
  {
    var obj: Fields := map[Type := TextTree(NameOf(t.value)), Name.Value := ValueTree(t.value)];
    if t.loc.Some? then Object(obj[Location := TextTree(t.loc.value)]) else Object(obj)
  }

  function TermsTree(ts: seq<Term>): Tree
    decreases ts, 0
  {
    Array(seq(|ts|, i requires 0 <= i < |ts| => TermTree(ts[i])))
  }

  function ValueTree(v: Value): Tree
    decreases v, 0
  {
    match v
    case Scalar(_, atom) => Tree.Scalar(atom)
    case Terms(_, terms) => TermsTree(terms)
    case ObjectValue(pairs) => PairsTree(pairs)
    case ArrayComprehension(term, body) => Object(map[Name.Term := TermTree(term), Body := BodyTree(body)])
    case SetComprehension(term, body) => Object(map[Name.Term := TermTree(term), Body := BodyTree(body)])
    case ObjectComprehension(key, value, body) =>
      Object(map[Key := TermTree(key), Name.Value := TermTree(value), Body := BodyTree(body)])
    case TemplateString(multiLine, parts) =>
      if multiLine then Object(map[Parts := PartsTree(parts), MultiLine := TRUE])
      else Object(map[Parts := PartsTree(parts)])
  }

  function PairsTree(pairs: seq<Pair>): Tree
    decreases pairs, 0
  {
    Array(seq(|pairs|, i requires 0 <= i < |pairs| => PairTree(pairs[i])))
  }

  function PartsTree(parts: seq<Part>): Tree
    decreases parts, 0
  {
    Array(seq(|parts|, i requires 0 <= i < |parts| => PartTree(parts[i])))
  }

  function PairTree(p: Pair): Tree
    decreases p, 0
  {
    Array([TermTree(p.key), TermTree(p.value)])
  }

  /** Of an expression that is a part, only the location and plain terms are kept. */
  function PartTree(p: Part): Tree
    decreases p, 0
  {
    match p
    case TermPart(term) => TermTree(term)
    case ExprPart(expr) =>
      var obj := ObjectWithLocation(expr.loc);
      var obj' := match expr.terms
        case OneTerm(term) => obj[Name.Terms := TermTree(term)]
        case ManyTerms(ts) => obj[Name.Terms := TermsTree(ts)]
        case _ => obj;
      Object(obj'[Interpolated := TRUE])
  }

  function WithTree(w: With): Tree
    decreases w, 0
  {
    Object(ObjectWithLocation(w.loc)[Target := TermTree(w.target)][Name.Value := TermTree(w.value)])
  }

  function WithsTree(withs: seq<With>): Tree
    decreases withs, 0
  {
    Array(seq(|withs|, i requires 0 <= i < |withs| => WithTree(withs[i])))
  }

  function BodyTree(body: seq<Expr>): Tree
    decreases body, 0
  {
    Array(seq(|body|, i requires 0 <= i < |body| => ExprTree(body[i])))
  }

  function ExprTree(e: Expr): Tree
    decreases e, 0
  {
    var obj := InsertIf(InsertIf(ObjectWithLocation(e.loc), Negated, e.negated), Generated, e.generated);
    var obj' := if e.withs == [] then obj else obj[Name.With := WithsTree(e.withs)];
    Object(if e.terms.NoTerms? then obj' else obj'[Name.Terms := ExprTermsTree(e.terms)])
  }

  function ExprTermsTree(terms: ExprTerms): Tree
    requires !terms.NoTerms?
    decreases terms, 0
  {
    match terms
    case OneTerm(term) => TermTree(term)
    case ManyTerms(ts) => TermsTree(ts)
    case SomeDecl(loc, symbols) => Object(ObjectWithLocation(loc)[Symbols := TermsTree(symbols)])
    case Every(loc, key, value, domain, body) =>
      var obj := ObjectWithLocation(loc);
      var obj' := if key.Some? then obj[Key := TermTree(key.value)] else obj;
      Object(obj'[Name.Value := TermTree(value)][Domain := TermTree(domain)][Body := BodyTree(body)])
    case Not(loc, explicitBody, body) =>
      Object(InsertIf(ObjectWithLocation(loc)[Type := TextTree("not")][Body := BodyTree(body)],
                      ExplicitBody, explicitBody))
    case Logical(op, loc, lhs, rhs, explicitLhs, explicitRhs) =>
      Object(LogicalFlags(terms)[Lhs := BodyTree(lhs)][Rhs := BodyTree(rhs)])
  }

  // ----- Where the two agree -----

  /** Every expression that is a part of a template string has no more than a location and plain terms. */
  predicate PlainTerm(t: Term)
    decreases t, 1
  {
    PlainValue(t.value)
  }

  predicate PlainTerms(ts: seq<Term>)
    decreases ts, 0
  {
    forall i :: 0 <= i < |ts| ==> PlainTerm(ts[i])
  }

  predicate PlainValue(v: Value)
    decreases v, 0
  {
    match v
    case Scalar(_, _) => true
    case Terms(_, terms) => PlainTerms(terms)
    case ObjectValue(pairs) => forall i :: 0 <= i < |pairs| ==> PlainPair(pairs[i])
    case ArrayComprehension(term, body) => PlainTerm(term) && PlainBody(body)
    case SetComprehension(term, body) => PlainTerm(term) && PlainBody(body)
    case ObjectComprehension(key, value, body) => PlainTerm(key) && PlainTerm(value) && PlainBody(body)
    case TemplateString(_, parts) => forall i :: 0 <= i < |parts| ==> PlainPart(parts[i])
  }

  predicate PlainPair(p: Pair)
    decreases p, 0
  {
    PlainTerm(p.key) && PlainTerm(p.value)
  }

  predicate PlainPart(p: Part)
    decreases p, 0
  {
    match p
    case TermPart(term) => PlainTerm(term)
    case ExprPart(expr) =>
      && !expr.negated && !expr.generated && expr.withs == []
      && match expr.terms
         case NoTerms => true
         case OneTerm(term) => PlainTerm(term)
         case ManyTerms(ts) => PlainTerms(ts)
         case _ => false
  }

  predicate PlainWith(w: With)
    decreases w, 0
  {
    PlainTerm(w.target) && PlainTerm(w.value)
  }

  predicate PlainBody(body: seq<Expr>)
    decreases body, 0
  {
    forall i :: 0 <= i < |body| ==> PlainExpr(body[i])
  }

  predicate PlainExpr(e: Expr)
    decreases e, 0
  {
    && (forall i :: 0 <= i < |e.withs| ==> PlainWith(e.withs[i]))
    && (e.terms.NoTerms? || PlainExprTerms(e.terms))
  }

  predicate PlainExprTerms(terms: ExprTerms)
    requires !terms.NoTerms?
    decreases terms, 0
  {
    match terms
    case OneTerm(term) => PlainTerm(term)
    case ManyTerms(ts) => PlainTerms(ts)
    case SomeDecl(_, symbols) => PlainTerms(symbols)
    case Every(_, key, value, domain, body) =>
      (key.Some? ==> PlainTerm(key.value)) && PlainTerm(value) && PlainTerm(domain) && PlainBody(body)
    case Not(_, _, body) => PlainBody(body)
    case Logical(_, _, lhs, rhs, _, _) => PlainBody(lhs) && PlainBody(rhs)
  }

  // ----- Members of an object -----

  lemma CollectLoc(loc: Loc)
    ensures Collect(LocMember(loc)) == ObjectWithLocation(loc)
  {
    if loc.Some? {
      CollectMore([], LocMember(loc)[0]);
      assert [] + LocMember(loc) == LocMember(loc);
    }
  }

  lemma CollectFlag(members: seq<Member>, name: Name, b: bool)
    ensures Collect(members + Flag(name, b)) == InsertIf(Collect(members), name, b)
  {
    if b {
      CollectMore(members, Flag(name, b)[0]);
    } else {
      assert members + [] == members;
    }
  }

  lemma CollectOne(m: Member)
    ensures Collect([m]) == map[m.name := Decode(m.value)]
  {
    CollectMore([], m);
    assert [] + [m] == [m];
  }

  lemma TermFields(loc: Loc, name: string, value: Json)
    ensures Collect(LocMember(loc) + [Member(Type, TextJson(name))] + [Member(Name.Value, value)]) ==
            ObjectWithLocation(loc)[Type := TextTree(name)][Name.Value := Decode(value)]
  {
    var members, kind := LocMember(loc), Member(Type, TextJson(name));
    CollectLoc(loc);
    CollectMore(members, kind);
    CollectMore(members + [kind], Member(Name.Value, value));
  }

  // ----- Agreement -----

  lemma {:induction false} TermAgrees(t: Term)
    ensures Decode(TermJson(t)) == TermTree(t) <==> PlainTerm(t)
    decreases t, 1
  {
    ValueAgrees(t.value);
    TermFields(t.loc, NameOf(t.value), ValueJson(t.value));
    OneField(Decode(TermJson(t)).fields, TermTree(t).fields, Name.Value);
  }

  /** Objects that can only differ in one field. */
  lemma OneField(a: Fields, b: Fields, name: Name)
    requires name in a && name in b
    requires a.Keys == b.Keys && forall k :: k in a && k != name ==> a[k] == b[k]
    ensures a == b <==> a[name] == b[name]
  {
  }

  lemma {:induction false} TermsAgree(ts: seq<Term>)
    ensures Decode(TermsJson(ts)) == TermsTree(ts) <==> PlainTerms(ts)
    decreases ts, 0
  {
    var a, b := Decode(TermsJson(ts)).items, TermsTree(ts).items;
    forall i | 0 <= i < |ts|
      ensures a[i] == b[i] <==> PlainTerm(ts[i])
    {
      TermAgrees(ts[i]);
      assert a[i] == Decode(TermsJson(ts).items[i]);
    }
    SameItems(a, b);
  }

  lemma SameItems(a: seq<Tree>, b: seq<Tree>)
    requires |a| == |b|
    ensures a == b <==> forall i :: 0 <= i < |a| ==> a[i] == b[i]
  {
  }

  lemma {:induction false} PairsAgree(pairs: seq<Pair>)
    ensures Decode(PairsJson(pairs)) == PairsTree(pairs) <==> forall i :: 0 <= i < |pairs| ==> PlainPair(pairs[i])
    decreases pairs, 0
  {
    var a, b := Decode(PairsJson(pairs)).items, PairsTree(pairs).items;
    forall i | 0 <= i < |pairs|
      ensures a[i] == b[i] <==> PlainPair(pairs[i])
    {
      PairAgrees(pairs[i]);
      assert a[i] == Decode(PairsJson(pairs).items[i]);
    }
    SameItems(a, b);
  }

  lemma {:induction false} PairAgrees(p: Pair)
    ensures Decode(PairJson(p)) == PairTree(p) <==> PlainPair(p)
    decreases p, 0
  {
    TermAgrees(p.key);
    TermAgrees(p.value);
    var a, b := Decode(PairJson(p)).items, PairTree(p).items;
    assert a[0] == Decode(PairJson(p).items[0]) && a[1] == Decode(PairJson(p).items[1]);
    SameItems(a, b);
  }

  lemma {:induction false} ValueAgrees(v: Value)
    ensures Decode(ValueJson(v)) == ValueTree(v) <==> PlainValue(v)
    decreases v, 1
  {
    match v {
      case Scalar(_, _) =>
      case Terms(_, terms) =>
        TermsAgree(terms);
      case ObjectValue(pairs) =>
        PairsAgree(pairs);
      case ArrayComprehension(term, body) =>
        ComprehensionAgrees(v);
      case SetComprehension(term, body) =>
        ComprehensionAgrees(v);
      case ObjectComprehension(key, value, body) =>
        ObjectComprehensionAgrees(v);
      case TemplateString(multiLine, parts) =>
        TemplateAgrees(v);
    }
  }

  lemma {:induction false} ComprehensionAgrees(v: Value)
    requires v.ArrayComprehension? || v.SetComprehension?
    ensures Decode(ValueJson(v)) == ValueTree(v) <==> PlainValue(v)
    decreases v, 0
  {
    TermAgrees(v.term);
    BodyAgrees(v.body);
    var term := Member(Name.Term, TermJson(v.term));
    CollectOne(term);
    CollectMore([term], Member(Body, BodyJson(v.body)));
    TwoUpdates(map[], Name.Term, Decode(TermJson(v.term)), TermTree(v.term),
               Body, Decode(BodyJson(v.body)), BodyTree(v.body));
  }

  lemma {:induction false} ObjectComprehensionAgrees(v: Value)
    requires v.ObjectComprehension?
    ensures Decode(ValueJson(v)) == ValueTree(v) <==> PlainValue(v)
    decreases v, 0
  {
    TermAgrees(v.key);
    TermAgrees(v.value);
    BodyAgrees(v.body);
    var key, value := Member(Key, TermJson(v.key)), Member(Name.Value, TermJson(v.value));
    CollectOne(key);
    CollectMore([key], value);
    CollectMore([key] + [value], Member(Body, BodyJson(v.body)));
    ThreeUpdates(map[], Key, Decode(TermJson(v.key)), TermTree(v.key),
                 Name.Value, Decode(TermJson(v.value)), TermTree(v.value),
                 Body, Decode(BodyJson(v.body)), BodyTree(v.body));
  }

  lemma {:induction false} TemplateAgrees(v: Value)
    requires v.TemplateString?
    ensures Decode(ValueJson(v)) == ValueTree(v) <==> PlainValue(v)
    decreases v, 0
  {
    PartsAgree(v.parts);
    TemplateFields(v);
    var obj := InsertIf(map[], MultiLine, v.multiLine);
    assert ValueTree(v).fields == obj[Parts := PartsTree(v.parts)];
    OneUpdate(obj, Parts, Decode(PartsJson(v.parts)), PartsTree(v.parts));
  }

  lemma TemplateFields(v: Value)
    requires v.TemplateString?
    ensures Decode(ValueJson(v)) == Object(InsertIf(map[], MultiLine, v.multiLine)[Parts := Decode(PartsJson(v.parts))])
  {
    var flags := Flag(MultiLine, v.multiLine);
    CollectFlag([], MultiLine, v.multiLine);
    assert [] + flags == flags;
    CollectMore(flags, Member(Parts, PartsJson(v.parts)));
  }

  lemma {:induction false} PartsAgree(parts: seq<Part>)
    ensures Decode(PartsJson(parts)) == PartsTree(parts) <==> forall i :: 0 <= i < |parts| ==> PlainPart(parts[i])
    decreases parts, 0
  {
    var a, b := Decode(PartsJson(parts)).items, PartsTree(parts).items;
    forall i | 0 <= i < |parts|
      ensures a[i] == b[i] <==> PlainPart(parts[i])
    {
      PartAgrees(parts[i]);
      assert a[i] == Decode(PartsJson(parts).items[i]);
    }
    SameItems(a, b);
  }

  function FlagMembers(e: Expr, interpolated: bool): seq<Member> {
    LocMember(e.loc) + Flag(Negated, e.negated) + Flag(Generated, e.generated) + Flag(Interpolated, interpolated)
  }

  lemma FlagFields(e: Expr, interpolated: bool)
    ensures Collect(FlagMembers(e, interpolated)) ==
      InsertIf(InsertIf(InsertIf(ObjectWithLocation(e.loc), Negated, e.negated), Generated, e.generated),
               Interpolated, interpolated)
  {
    var members := LocMember(e.loc);
    CollectLoc(e.loc);
    CollectFlag(members, Negated, e.negated);
    members := members + Flag(Negated, e.negated);
    CollectFlag(members, Generated, e.generated);
    CollectFlag(members + Flag(Generated, e.generated), Interpolated, interpolated);
  }

  /** What the codec makes of an expression. */
  lemma ExprFields(e: Expr, interpolated: bool)
    ensures var obj := Collect(FlagMembers(e, interpolated));
      var obj' := if e.withs == [] then obj else obj[Name.With := Decode(WithsJson(e.withs))];
      Decode(ExprJson(e, interpolated)) ==
        Object(if e.terms.NoTerms? then obj' else obj'[Name.Terms := Decode(ExprTermsJson(e.terms))])
  {
    var members := FlagMembers(e, interpolated);
    CollectWiths(members, e.withs);
    CollectTerms(members + WithsMember(e.withs), e.terms);
    assert ExprJson(e, interpolated) == Record(members + WithsMember(e.withs) + ExprTermsMember(e.terms));
  }

  lemma CollectWiths(members: seq<Member>, withs: seq<With>)
    ensures Collect(members + WithsMember(withs)) ==
      if withs == [] then Collect(members) else Collect(members)[Name.With := Decode(WithsJson(withs))]
  {
    CollectOptional(members, Name.With, WithsMember(withs));
  }

  lemma CollectTerms(members: seq<Member>, terms: ExprTerms)
    ensures Collect(members + ExprTermsMember(terms)) ==
      if terms.NoTerms? then Collect(members) else Collect(members)[Name.Terms := Decode(ExprTermsJson(terms))]
  {
    CollectOptional(members, Name.Terms, ExprTermsMember(terms));
  }

  lemma CollectOptional(members: seq<Member>, name: Name, more: seq<Member>)
    requires |more| <= 1 && (more != [] ==> more[0].name == name)
    ensures Collect(members + more) ==
      if more == [] then Collect(members) else Collect(members)[name := Decode(more[0].value)]
  {
    if more == [] {
      assert members + more == members;
    } else {
      assert more == [more[0]];
      CollectMore(members, more[0]);
    }
  }

  lemma {:induction false} PartAgrees(p: Part)
    ensures Decode(PartJson(p)) == PartTree(p) <==> PlainPart(p)
    decreases p, 1
  {
    match p {
      case TermPart(term) =>
        TermAgrees(term);
      case ExprPart(_) =>
        ExprPartAgrees(p);
    }
  }

  lemma {:induction false} ExprPartAgrees(p: Part)
    requires p.ExprPart?
    ensures Decode(PartJson(p)) == PartTree(p) <==> PlainPart(p)
    decreases p, 0
  {
    var e := p.expr;
    if e.negated || e.generated || e.withs != [] || !(e.terms.NoTerms? || e.terms.OneTerm? || e.terms.ManyTerms?) {
      FieldTooMany(p);
    } else {
      SameFields(p);
      var obj := ObjectWithLocation(e.loc)[Interpolated := TRUE];
      match e.terms {
        case NoTerms =>
        case OneTerm(term) =>
          TermAgrees(term);
          OneUpdate(obj, Name.Terms, Decode(TermJson(term)), TermTree(term));
        case ManyTerms(ts) =>
          TermsAgree(ts);
          OneUpdate(obj, Name.Terms, Decode(TermsJson(ts)), TermsTree(ts));
      }
    }
  }

  /** The codec writes a field that the conversion leaves out. */
  lemma FieldTooMany(p: Part)
    requires p.ExprPart?
    requires var e := p.expr;
      e.negated || e.generated || e.withs != [] || !(e.terms.NoTerms? || e.terms.OneTerm? || e.terms.ManyTerms?)
    ensures Decode(PartJson(p)) != PartTree(p)
  {
    var e := p.expr;
    ExprFields(e, true);
    FlagFields(e, true);
    var name := if e.negated then Negated else if e.generated then Generated
      else if e.withs != [] then Name.With else Name.Terms;
    assert name in Decode(PartJson(p)).fields && name !in PartTree(p).fields;
  }

  lemma SameFields(p: Part)
    requires p.ExprPart?
    requires var e := p.expr;
      !e.negated && !e.generated && e.withs == [] && (e.terms.NoTerms? || e.terms.OneTerm? || e.terms.ManyTerms?)
    ensures var e, obj := p.expr, ObjectWithLocation(p.expr.loc)[Interpolated := TRUE];
      if e.terms.NoTerms? then Decode(PartJson(p)) == Object(obj) == PartTree(p)
      else
        && Decode(PartJson(p)) == Object(obj[Name.Terms := Decode(ExprTermsJson(e.terms))])
        && PartTree(p) == Object(obj[Name.Terms := ExprTermsTree(e.terms)])
  {
    var e := p.expr;
    ExprFields(e, true);
    FlagFields(e, true);
    var obj := ObjectWithLocation(e.loc);
    if !e.terms.NoTerms? {
      var terms := ExprTermsTree(e.terms);
      assert obj[Name.Terms := terms][Interpolated := TRUE] == obj[Interpolated := TRUE][Name.Terms := terms];
    }
  }

  /** For a body, converting it directly gives what encoding and decoding gives exactly if its parts are plain. */
  lemma {:induction false} BodyAgrees(body: seq<Expr>)
    ensures Decode(BodyJson(body)) == BodyTree(body) <==> PlainBody(body)
    decreases body, 0
  {
    var a, b := Decode(BodyJson(body)).items, BodyTree(body).items;
    forall i | 0 <= i < |body|
      ensures a[i] == b[i] <==> PlainExpr(body[i])
    {
      ExprAgrees(body[i]);
      assert a[i] == Decode(BodyJson(body).items[i]);
    }
    SameItems(a, b);
  }

  lemma {:induction false} ExprAgrees(e: Expr)
    ensures Decode(ExprJson(e, false)) == ExprTree(e) <==> PlainExpr(e)
    decreases e, 0
  {
    ExprFields(e, false);
    FlagFields(e, false);
    WithsAgree(e.withs);
    var obj := InsertIf(InsertIf(ObjectWithLocation(e.loc), Negated, e.negated), Generated, e.generated);
    var withs, withs' := Decode(WithsJson(e.withs)), WithsTree(e.withs);
    if e.terms.NoTerms? {
      OneUpdate(obj, Name.With, withs, withs');
    } else {
      ExprTermsAgree(e.terms);
      var terms, terms' := Decode(ExprTermsJson(e.terms)), ExprTermsTree(e.terms);
      OneUpdate(obj, Name.Terms, terms, terms');
      TwoUpdates(obj, Name.With, withs, withs', Name.Terms, terms, terms');
    }
  }

  lemma OneUpdate(m: Fields, name: Name, x: Tree, y: Tree)
    ensures m[name := x] == m[name := y] <==> x == y
  {
    assert m[name := x][name] == x;
  }

  lemma TwoUpdates(m: Fields, name: Name, x: Tree, y: Tree, name': Name, x': Tree, y': Tree)
    requires name != name'
    ensures m[name := x][name' := x'] == m[name := y][name' := y'] <==> x == y && x' == y'
  {
    var a, b := m[name := x][name' := x'], m[name := y][name' := y'];
    assert a[name] == x && a[name'] == x' && b[name] == y && b[name'] == y';
  }

  lemma {:induction false} WithsAgree(withs: seq<With>)
    ensures Decode(WithsJson(withs)) == WithsTree(withs) <==> forall i :: 0 <= i < |withs| ==> PlainWith(withs[i])
    decreases withs, 0
  {
    var a, b := Decode(WithsJson(withs)).items, WithsTree(withs).items;
    forall i | 0 <= i < |withs|
      ensures a[i] == b[i] <==> PlainWith(withs[i])
    {
      WithAgrees(withs[i]);
      assert a[i] == Decode(WithsJson(withs).items[i]);
    }
    SameItems(a, b);
  }

  lemma {:induction false} WithAgrees(w: With)
    ensures Decode(WithJson(w)) == WithTree(w) <==> PlainWith(w)
    decreases w, 0
  {
    TermAgrees(w.target);
    TermAgrees(w.value);
    var members, target := LocMember(w.loc), Member(Target, TermJson(w.target));
    CollectLoc(w.loc);
    CollectMore(members, target);
    CollectMore(members + [target], Member(Name.Value, TermJson(w.value)));
    TwoUpdates(ObjectWithLocation(w.loc), Target, Decode(TermJson(w.target)), TermTree(w.target),
               Name.Value, Decode(TermJson(w.value)), TermTree(w.value));
  }

  lemma {:induction false} ExprTermsAgree(terms: ExprTerms)
    requires !terms.NoTerms?
    ensures Decode(ExprTermsJson(terms)) == ExprTermsTree(terms) <==> PlainExprTerms(terms)
    decreases terms, 1
  {
    match terms {
      case OneTerm(term) =>
        TermAgrees(term);
      case ManyTerms(ts) =>
        TermsAgree(ts);
      case SomeDecl(loc, symbols) =>
        SomeDeclAgrees(terms);
      case Every(_, _, _, _, _) =>
        EveryAgrees(terms);
      case Not(loc, explicitBody, body) =>
        NotAgrees(terms);
      case Logical(_, _, _, _, _, _) =>
        LogicalAgrees(terms);
    }
  }

  lemma {:induction false} SomeDeclAgrees(t: ExprTerms)
    requires t.SomeDecl?
    ensures Decode(ExprTermsJson(t)) == ExprTermsTree(t) <==> PlainExprTerms(t)
    decreases t, 0
  {
    TermsAgree(t.symbols);
    CollectLoc(t.loc);
    CollectMore(LocMember(t.loc), Member(Symbols, TermsJson(t.symbols)));
    OneUpdate(ObjectWithLocation(t.loc), Symbols, Decode(TermsJson(t.symbols)), TermsTree(t.symbols));
  }

  lemma {:induction false} NotAgrees(t: ExprTerms)
    requires t.Not?
    ensures Decode(ExprTermsJson(t)) == ExprTermsTree(t) <==> PlainExprTerms(t)
    decreases t, 0
  {
    BodyAgrees(t.body);
    NotFields(t);
    var obj := InsertIf(ObjectWithLocation(t.loc)[Type := TextTree("not")], ExplicitBody, t.explicitBody);
    assert ExprTermsTree(t).fields == obj[Body := BodyTree(t.body)];
    OneUpdate(obj, Body, Decode(BodyJson(t.body)), BodyTree(t.body));
  }

  lemma NotFields(t: ExprTerms)
    requires t.Not?
    ensures Decode(ExprTermsJson(t)) ==
      Object(InsertIf(ObjectWithLocation(t.loc)[Type := TextTree("not")], ExplicitBody, t.explicitBody)
               [Body := Decode(BodyJson(t.body))])
  {
    var members, kind := LocMember(t.loc), Member(Type, TextJson("not"));
    CollectLoc(t.loc);
    CollectMore(members, kind);
    CollectFlag(members + [kind], ExplicitBody, t.explicitBody);
    CollectMore(members + [kind] + Flag(ExplicitBody, t.explicitBody), Member(Body, BodyJson(t.body)));
  }

  lemma {:induction false} EveryAgrees(t: ExprTerms)
    requires t.Every?
    ensures Decode(ExprTermsJson(t)) == ExprTermsTree(t) <==> PlainExprTerms(t)
    decreases t, 0
  {
    EveryFields(t);
    TermAgrees(t.value);
    TermAgrees(t.domain);
    BodyAgrees(t.body);
    var obj := ObjectWithLocation(t.loc);
    var value, value' := Decode(TermJson(t.value)), TermTree(t.value);
    var domain, domain' := Decode(TermJson(t.domain)), TermTree(t.domain);
    var body, body' := Decode(BodyJson(t.body)), BodyTree(t.body);
    if t.key.Some? {
      TermAgrees(t.key.value);
      var key, key' := Decode(TermJson(t.key.value)), TermTree(t.key.value);
      ThreeUpdates(obj[Key := key], Name.Value, value, value', Domain, domain, domain', Body, body, body');
      assert ExprTermsTree(t).fields[Key] == key';
    } else {
      ThreeUpdates(obj, Name.Value, value, value', Domain, domain, domain', Body, body, body');
    }
  }

  lemma ThreeUpdates(m: Fields, name: Name, x: Tree, y: Tree, name': Name, x': Tree, y': Tree,
                     name'': Name, x'': Tree, y'': Tree)
    requires name != name' && name != name'' && name' != name''
    ensures m[name := x][name' := x'][name'' := x''] == m[name := y][name' := y'][name'' := y''] <==>
            x == y && x' == y' && x'' == y''
  {
    var a, b := m[name := x][name' := x'][name'' := x''], m[name := y][name' := y'][name'' := y''];
    assert a[name] == x && a[name'] == x' && a[name''] == x'';
    assert b[name] == y && b[name'] == y' && b[name''] == y'';
  }

  lemma EveryFields(t: ExprTerms)
    requires t.Every?
    ensures var obj := ObjectWithLocation(t.loc);
      var obj' := if t.key.Some? then obj[Key := Decode(TermJson(t.key.value))] else obj;
      Decode(ExprTermsJson(t)) ==
        Object(obj'[Name.Value := Decode(TermJson(t.value))][Domain := Decode(TermJson(t.domain))]
                 [Body := Decode(BodyJson(t.body))])
  {
    var members := LocMember(t.loc);
    CollectLoc(t.loc);
    CollectOptional(members, Key, KeyMember(t.key));
    members := members + KeyMember(t.key);
    CollectMore(members, Member(Name.Value, TermJson(t.value)));
    members := members + [Member(Name.Value, TermJson(t.value))];
    CollectMore(members, Member(Domain, TermJson(t.domain)));
    members := members + [Member(Domain, TermJson(t.domain))];
    CollectMore(members, Member(Body, BodyJson(t.body)));
  }

  lemma {:induction false} LogicalAgrees(t: ExprTerms)
    requires t.Logical?
    ensures Decode(ExprTermsJson(t)) == ExprTermsTree(t) <==> PlainExprTerms(t)
    decreases t, 0
  {
    BodyAgrees(t.lhs);
    BodyAgrees(t.rhs);
    LogicalFields(t);
    TwoUpdates(LogicalFlags(t), Lhs, Decode(BodyJson(t.lhs)), BodyTree(t.lhs),
               Rhs, Decode(BodyJson(t.rhs)), BodyTree(t.rhs));
  }

  function LogicalFlags(t: ExprTerms): Fields
    requires t.Logical?
  {
    InsertIf(InsertIf(ObjectWithLocation(t.loc)[Type := TextTree(OperatorName(t.op))], ExplicitLhs, t.explicitLhs),
             ExplicitRhs, t.explicitRhs)
  }

  lemma LogicalFields(t: ExprTerms)
    requires t.Logical?
    ensures Decode(ExprTermsJson(t)) ==
      Object(LogicalFlags(t)[Lhs := Decode(BodyJson(t.lhs))][Rhs := Decode(BodyJson(t.rhs))])
  {
    var members, kind := LocMember(t.loc), Member(Type, TextJson(OperatorName(t.op)));
    CollectLoc(t.loc);
    CollectMore(members, kind);
    members := members + [kind];
    CollectFlag(members, ExplicitLhs, t.explicitLhs);
    members := members + Flag(ExplicitLhs, t.explicitLhs);
    CollectFlag(members, ExplicitRhs, t.explicitRhs);
    members := members + Flag(ExplicitRhs, t.explicitRhs);
    CollectMore(members, Member(Lhs, BodyJson(t.lhs)));
    CollectMore(members + [Member(Lhs, BodyJson(t.lhs))], Member(Rhs, BodyJson(t.rhs)));
  }

  // ----- Type names -----

  /** What a decoder reads from the tokens that are written for a term. */
  function DecodedTerm(t: Term): Tree {
    var r := Parse(Print(TermJson(t)));
    if r.Parsed? then Decode(r.json) else Tree.Scalar(Encoded(""))
  }

  /** What it reads from the tokens that are written for the terms of an expression. */
  function DecodedTerms(terms: ExprTerms): Tree
    requires !terms.NoTerms?
  {
    var r := Parse(Print(ExprTermsJson(terms)));
    if r.Parsed? then Decode(r.json) else Tree.Scalar(Encoded(""))
  }

  predicate HasType(tree: Tree, name: string) {
    tree.Object? && Type in tree.fields && tree.fields[Type] == Tree.Scalar(Text(name))
  }

  /** Each kind of value is written with a type name of its own. */
  lemma TermTypes(t: Term)
    ensures var tree, v := DecodedTerm(t), t.value;
      && (HasType(tree, "var") <==> v.Scalar? && v.kind == VarKind)
      && (HasType(tree, "null") <==> v.Scalar? && v.kind == NullKind)
      && (HasType(tree, "boolean") <==> v.Scalar? && v.kind == BooleanKind)
      && (HasType(tree, "number") <==> v.Scalar? && v.kind == NumberKind)
      && (HasType(tree, "string") <==> v.Scalar? && v.kind == StringKind)
      && (HasType(tree, "ref") <==> v.Terms? && v.list == Ref)
      && (HasType(tree, "call") <==> v.Terms? && v.list == Call)
      && (HasType(tree, "array") <==> v.Terms? && v.list == ArrayValue)
      && (HasType(tree, "set") <==> v.Terms? && v.list == SetValue)
      && (HasType(tree, "object") <==> v.ObjectValue?)
      && (HasType(tree, "arraycomprehension") <==> v.ArrayComprehension?)
      && (HasType(tree, "setcomprehension") <==> v.SetComprehension?)
      && (HasType(tree, "objectcomprehension") <==> v.ObjectComprehension?)
      && (HasType(tree, "templatestring") <==> v.TemplateString?)
  {
    TermHasType(t);
    NamesDiffer(t.value);
  }

  lemma TermHasType(t: Term)
    ensures forall name :: HasType(DecodedTerm(t), name) <==> name == NameOf(t.value)
    ensures forall name :: HasType(TermTree(t), name) <==> name == NameOf(t.value)
  {
    ParsePrinted(TermJson(t));
    WrittenType(t);
    OnlyType(Decode(TermJson(t)), NameOf(t.value));
    OnlyType(TermTree(t), NameOf(t.value));
  }

  lemma WrittenType(t: Term)
    ensures HasType(Decode(TermJson(t)), NameOf(t.value))
  {
    TermFields(t.loc, NameOf(t.value), ValueJson(t.value));
  }

  lemma OnlyType(tree: Tree, name: string)
    requires HasType(tree, name)
    ensures forall other :: HasType(tree, other) <==> other == name
  {
  }

  lemma NamesDiffer(v: Value)
    ensures var name := NameOf(v);
      && (name == "var" <==> v.Scalar? && v.kind == VarKind)
      && (name == "null" <==> v.Scalar? && v.kind == NullKind)
      && (name == "boolean" <==> v.Scalar? && v.kind == BooleanKind)
      && (name == "number" <==> v.Scalar? && v.kind == NumberKind)
      && (name == "string" <==> v.Scalar? && v.kind == StringKind)
      && (name == "ref" <==> v.Terms? && v.list == Ref)
      && (name == "call" <==> v.Terms? && v.list == Call)
      && (name == "array" <==> v.Terms? && v.list == ArrayValue)
      && (name == "set" <==> v.Terms? && v.list == SetValue)
      && (name == "object" <==> v.ObjectValue?)
      && (name == "arraycomprehension" <==> v.ArrayComprehension?)
      && (name == "setcomprehension" <==> v.SetComprehension?)
      && (name == "objectcomprehension" <==> v.ObjectComprehension?)
      && (name == "templatestring" <==> v.TemplateString?)
  {
    var first := NameOf(v)[0];
    assert first == 'v' || first == 'n' || first == 'b' || first == 's' || first == 'r' || first == 'c' || first == 'a'
        || first == 'o' || first == 't';
  }

  /** Logical expressions and negated bodies are told apart by their type. */
  lemma OperatorTypes(terms: ExprTerms)
    requires terms.Logical? || terms.Not?
    ensures HasType(DecodedTerms(terms), "and") <==> terms.Logical? && terms.op.And?
    ensures HasType(DecodedTerms(terms), "or") <==> terms.Logical? && terms.op.Or?
    ensures HasType(DecodedTerms(terms), "not") <==> terms.Not?
  {
    ParsePrinted(ExprTermsJson(terms));
    if terms.Logical? {
      LogicalFields(terms);
    } else {
      NotFields(terms);
    }
  }

  /** The two differ, for one, where a part is negated. */
  lemma NegatedPartIsLost()
    ensures var x := Roast.Term.Term(None, Value.Scalar(VarKind, Text("x")));
      var part := ExprPart(Expr(None, true, false, [], OneTerm(x)));
      var body := [Expr(None, false, false, [], OneTerm(Roast.Term.Term(None, TemplateString(false, [part]))))];
      Decode(BodyJson(body)) != BodyTree(body)
  {
    var x := Roast.Term.Term(None, Value.Scalar(VarKind, Text("x")));
    var part := ExprPart(Expr(None, true, false, [], OneTerm(x)));
    var body := [Expr(None, false, false, [], OneTerm(Roast.Term.Term(None, TemplateString(false, [part]))))];
    assert !PlainPart([part][0]);
    assert !PlainValue(TemplateString(false, [part]));
    assert !PlainTerm(Roast.Term.Term(None, TemplateString(false, [part])));
    assert !PlainExpr(body[0]);
    BodyAgrees(body);
  }

  // ----- The conversion, object by object -----

  method BodyToArray(body: seq<Expr>) returns (r: Tree)
    ensures r == BodyTree(body)
    decreases body, 0
  {
    var exprs: seq<Tree> := [];
    for i := 0 to |body|
      invariant exprs == BodyTree(body).items[..i]
    {
      var obj := ExprToObject(body[i]);
      exprs := exprs + [obj];
    }
    r := Array(exprs);
  }

  method ExprToObject(e: Expr) returns (r: Tree)
    ensures r == ExprTree(e)
    decreases e, 0
  {
    var obj := ObjectWithLocation(e.loc);
    if e.negated {
      obj := obj[Negated := TRUE];
    }
    if e.generated {
      obj := obj[Generated := TRUE];
    }
    if |e.withs| > 0 {
      obj := obj[Name.With := WithsTree(e.withs)];
    }
    if !e.terms.NoTerms? {
      var terms := TermsToTree(e.terms);
      obj := obj[Name.Terms := terms];
    }
    r := Object(obj);
  }

  method TermsToTree(t: ExprTerms) returns (r: Tree)
    requires !t.NoTerms?
    ensures r == ExprTermsTree(t)
    decreases t, 1
  {
    match t {
      case OneTerm(term) =>
        r := TermTree(term);
      case ManyTerms(ts) =>
        r := TermsTree(ts);
      case SomeDecl(loc, symbols) =>
        r := Object(ObjectWithLocation(loc)[Symbols := TermsTree(symbols)]);
      case Every(loc, key, value, domain, body) =>
        var obj := ObjectWithLocation(loc);
        if key.Some? {
          obj := obj[Key := TermTree(key.value)];
        }
        var exprs := BodyToArray(body);
        r := Object(obj[Name.Value := TermTree(value)][Domain := TermTree(domain)][Body := exprs]);
      case Not(loc, explicitBody, body) =>
        var exprs := BodyToArray(body);
        var obj := ObjectWithLocation(loc)[Type := TextTree("not")][Body := exprs];
        if explicitBody {
          obj := obj[ExplicitBody := TRUE];
        }
        r := Object(obj);
      case Logical(_, _, _, _, _, _) =>
        r := LogicalToTerm(t);
    }
  }

  method LogicalToTerm(t: ExprTerms) returns (r: Tree)
    requires t.Logical?
    ensures r == ExprTermsTree(t)
    decreases t, 0
  {
    var terms := ObjectWithLocation(t.loc)[Type := TextTree(OperatorName(t.op))];
    if t.explicitLhs {
      terms := terms[ExplicitLhs := TRUE];
    }
    if t.explicitRhs {
      terms := terms[ExplicitRhs := TRUE];
    }
    var lhs := BodyToArray(t.lhs);
    var rhs := BodyToArray(t.rhs);
    r := Object(terms[Lhs := lhs][Rhs := rhs]);
  }

  /** What the conversion replaces: encoding a body and decoding the result. */
  method EncodeAndDecode(body: seq<Expr>) returns (tree: Tree)
    ensures tree == BodyTree(body) <==> PlainBody(body)
  {
    var stream := new RoastStream.Stream();
    stream.EncodeBody(body);
    BodyAgrees(body);
    ParsePrinted(BodyJson(body));
    assert [] + Print(BodyJson(body)) == Print(BodyJson(body));
    tree := Decode(Parse(stream.buf).json);
  }
}
