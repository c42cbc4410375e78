/** The part of the Rego AST that expression bodies are made of, and the JSON that the codecs give it:
    internal/roast/encoding. */
module Roast {
  import opened Json

  datatype Option<T> = None | Some(value: T)

  /** A location comes as the text that it is encoded to. */
  type Loc = Option<string>

  datatype Term = Term(loc: Loc, value: Value)

  /** The values that are plain lists of terms. */
  datatype ListKind = Ref | Call | ArrayValue | SetValue

  datatype ScalarKind = VarKind | NullKind | BooleanKind | NumberKind | StringKind

  datatype Value =
    | Scalar(kind: ScalarKind, atom: Atom)
    | Terms(list: ListKind, terms: seq<Term>)
    | ObjectValue(pairs: seq<Pair>)
    | ArrayComprehension(term: Term, body: seq<Expr>)
    | SetComprehension(term: Term, body: seq<Expr>)
    | ObjectComprehension(key: Term, value: Term, body: seq<Expr>)
    | TemplateString(multiLine: bool, parts: seq<Part>)

  datatype Pair = Pair(key: Term, value: Term)

  datatype Part = TermPart(term: Term) | ExprPart(expr: Expr)

  datatype Expr = Expr(loc: Loc, negated: bool, generated: bool, withs: seq<With>, terms: ExprTerms)

  datatype With = With(loc: Loc, target: Term, value: Term)

  datatype Operator = And | Or

  datatype ExprTerms =
    | NoTerms
    | OneTerm(term: Term)
    | ManyTerms(terms: seq<Term>)
    | SomeDecl(loc: Loc, symbols: seq<Term>)
    | Every(loc: Loc, key: Option<Term>, value: Term, domain: Term, body: seq<Expr>)
    | Not(loc: Loc, explicitBody: bool, body: seq<Expr>)
    | Logical(op: Operator, loc: Loc, lhs: seq<Expr>, rhs: seq<Expr>, explicitLhs: bool, explicitRhs: bool)

  /** ast.ValueName. */
  function NameOf(v: Value): string {
    match v
    case Scalar(VarKind, _) => "var"
    case Scalar(NullKind, _) => "null"
    case Scalar(BooleanKind, _) => "boolean"
    case Scalar(NumberKind, _) => "number"
    case Scalar(StringKind, _) => "string"
    case Terms(Ref, _) => "ref"
    case Terms(Call, _) => "call"
    case Terms(ArrayValue, _) => "array"
    case Terms(SetValue, _) => "set"
    case ObjectValue(_) => "object"
    case ArrayComprehension(_, _) => "arraycomprehension"
    case SetComprehension(_, _) => "setcomprehension"
    case ObjectComprehension(_, _, _) => "objectcomprehension"
    case TemplateString(_, _) => "templatestring"
  }

  function OperatorName(op: Operator): string {
    if op.And? then "and" else "or"
  }

  // ----- What the codecs write -----

  function TextJson(s: string): Json {
    Leaf(Text(s))
  }

  function LocMember(loc: Loc): seq<Member> {
    if loc.Some? then [Member(Location, TextJson(loc.value))] else []
  }

  function Flag(name: Name, b: bool): seq<Member> {
    if b then [Member(name, Leaf(Truth(true)))] else []
  }

  function TermJson(t: Term): Json
    decreases t, 1
  {
    Record(LocMember(t.loc) + [Member(Type, TextJson(NameOf(t.value)))] + [Member(Name.Value, ValueJson(t.value))])
  }

  function TermsJson(ts: seq<Term>): Json
    decreases ts, 0
  {
    List(seq(|ts|, i requires 0 <= i < |ts| => TermJson(ts[i])))
  }

  function BodyJson(body: seq<Expr>): Json
    decreases body, 0
  {
    List(seq(|body|, i requires 0 <= i < |body| => ExprJson(body[i], false)))
  }

  function PairsJson(pairs: seq<Pair>): Json
    decreases pairs, 0
  {
    List(seq(|pairs|, i requires 0 <= i < |pairs| => PairJson(pairs[i])))
  }

  function PairJson(p: Pair): Json
    decreases p, 0
  {
    List([TermJson(p.key), TermJson(p.value)])
  }

  function ValueJson(v: Value): Json
    decreases v, 0
  {
    match v
    case Scalar(_, atom) => Leaf(atom)
    case Terms(_, terms) => TermsJson(terms)
    case ObjectValue(pairs) => PairsJson(pairs)
    case ArrayComprehension(term, body) =>
      Record([Member(Name.Term, TermJson(term))] + [Member(Body, BodyJson(body))])
    case SetComprehension(term, body) =>
      Record([Member(Name.Term, TermJson(term))] + [Member(Body, BodyJson(body))])
    case ObjectComprehension(key, value, body) =>
      Record([Member(Key, TermJson(key))] + [Member(Name.Value, TermJson(value))] + [Member(Body, BodyJson(body))])
    case TemplateString(multiLine, parts) =>
      Record(Flag(MultiLine, multiLine) + [Member(Parts, PartsJson(parts))])
  }

  function PartsJson(parts: seq<Part>): Json
    decreases parts, 0
  {
    List(seq(|parts|, i requires 0 <= i < |parts| => PartJson(parts[i])))
  }

  /** Only an expression that is itself a part is marked as interpolated. */
  function PartJson(p: Part): Json
    decreases p, 0
  {
    match p
    case TermPart(term) => TermJson(term)
    case ExprPart(expr) => ExprJson(expr, true)
  }

  function ExprJson(e: Expr, interpolated: bool): Json
    decreases e, 0
  {
    Record(LocMember(e.loc) + Flag(Negated, e.negated) + Flag(Generated, e.generated) + Flag(Interpolated, interpolated)
           + WithsMember(e.withs) + ExprTermsMember(e.terms))
  }

  function WithsMember(withs: seq<With>): seq<Member>
    decreases withs, 1
  {
    if withs == [] then []
    else [Member(Name.With, WithsJson(withs))]
  }

  function WithsJson(withs: seq<With>): Json
    decreases withs, 0
  {
    List(seq(|withs|, i requires 0 <= i < |withs| => WithJson(withs[i])))
  }

  function WithJson(w: With): Json
    decreases w, 0
  {
    Record(LocMember(w.loc) + [Member(Target, TermJson(w.target))] + [Member(Name.Value, TermJson(w.value))])
  }

  function ExprTermsMember(terms: ExprTerms): seq<Member>
    decreases terms, 1
  {
    if terms.NoTerms? then [] else [Member(Name.Terms, ExprTermsJson(terms))]
  }

  function ExprTermsJson(terms: ExprTerms): Json
    requires !terms.NoTerms?
    decreases terms, 0
  {
    match terms
    case OneTerm(term) => TermJson(term)
    case ManyTerms(ts) => TermsJson(ts)
    case SomeDecl(loc, symbols) => Record(LocMember(loc) + [Member(Symbols, TermsJson(symbols))])
    case Every(loc, key, value, domain, body) =>
      Record(LocMember(loc) + KeyMember(key) + [Member(Name.Value, TermJson(value))]
             + [Member(Domain, TermJson(domain))] + [Member(Body, BodyJson(body))])
    case Not(loc, explicitBody, body) =>
      Record(LocMember(loc) + [Member(Type, TextJson("not"))] + Flag(ExplicitBody, explicitBody)
             + [Member(Body, BodyJson(body))])
    case Logical(op, loc, lhs, rhs, explicitLhs, explicitRhs) =>
      Record(LocMember(loc) + [Member(Type, TextJson(OperatorName(op)))] + Flag(ExplicitLhs, explicitLhs)
             + Flag(ExplicitRhs, explicitRhs) + [Member(Lhs, BodyJson(lhs))] + [Member(Rhs, BodyJson(rhs))])
  }

  function KeyMember(key: Option<Term>): seq<Member>
    decreases key, 0
  {
    if key.Some? then [Member(Key, TermJson(key.value))] else []
  }
}
