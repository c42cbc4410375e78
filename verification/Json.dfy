/** JSON as the codecs write it and a decoder reads it (RFC 8259, sections 2 to 5), one token at a time. */
module Json {

  /** The member names of the RoAST format. */
  datatype Name =
    | Location | Type | Value | Negated | Generated | Interpolated | With | Terms
    | Symbols | Key | Domain | Body | ExplicitBody | ExplicitLhs | ExplicitRhs | Lhs | Rhs
    | Target | Term | MultiLine | Parts

  /** A scalar; leaf values of the AST come with their encoded form. */
  datatype Atom = Text(s: string) | Truth(b: bool) | Encoded(raw: string)

  datatype Token = Open | Close | OpenList | CloseList | Comma | Field(name: Name) | Lit(atom: Atom)

  /** JSON with the members of an object in the order in which they are written. */
  datatype Json = Leaf(atom: Atom) | List(items: seq<Json>) | Record(members: seq<Member>)

  datatype Member = Member(name: Name, value: Json)

  function Print(j: Json): seq<Token> {
    match j
    case Leaf(atom) => [Lit(atom)]
    case List(items) => [OpenList] + PrintItems(items) + [CloseList]
    case Record(members) => [Open] + PrintMembers(members) + [Close]
  }

  function PrintItems(items: seq<Json>): seq<Token> {
    if items == [] then []
    else if |items| == 1 then Print(items[0])
    else Print(items[0]) + [Comma] + PrintItems(items[1..])
  }

  function PrintMember(m: Member): seq<Token> {
    [Field(m.name)] + Print(m.value)
  }

  function PrintMembers(members: seq<Member>): seq<Token> {
    if members == [] then []
    else if |members| == 1 then PrintMember(members[0])
    else PrintMember(members[0]) + [Comma] + PrintMembers(members[1..])
  }

  // ----- Reading -----

  datatype Parsed = Malformed | Parsed(json: Json, rest: seq<Token>)

  function ParseValue(ts: seq<Token>): (r: Parsed)
    ensures r.Parsed? ==> |r.rest| < |ts|
    decreases |ts|, 0
  {
    if ts == [] then Malformed
    else if ts[0].Lit? then Parsed(Leaf(ts[0].atom), ts[1..])
    else if ts[0] == OpenList then
      if ts[1..] != [] && ts[1] == CloseList then Parsed(List([]), ts[2..]) else ParseItems(ts[1..], [])
    else if ts[0] == Open then
      if ts[1..] != [] && ts[1] == Close then Parsed(Record([]), ts[2..]) else ParseMembers(ts[1..], [])
    else Malformed
  }

  /** The rest of an array, from the start of an element. */
  function ParseItems(ts: seq<Token>, before: seq<Json>): (r: Parsed)
    ensures r.Parsed? ==> |r.rest| < |ts|
    decreases |ts|, 1
  {
    match ParseValue(ts)
    case Malformed => Malformed
    case Parsed(j, rest) =>
      if rest == [] then Malformed
      else if rest[0] == Comma then ParseItems(rest[1..], before + [j])
      else if rest[0] == CloseList then Parsed(List(before + [j]), rest[1..])
      else Malformed
  }

  /** The rest of an object, from the start of a member. */
  function ParseMembers(ts: seq<Token>, before: seq<Member>): (r: Parsed)
    ensures r.Parsed? ==> |r.rest| < |ts|
    decreases |ts|, 1
  {
    if ts == [] || !ts[0].Field? then Malformed
    else
      match ParseValue(ts[1..])
      case Malformed => Malformed
      case Parsed(j, rest) =>
        if rest == [] then Malformed
        else if rest[0] == Comma then ParseMembers(rest[1..], before + [Member(ts[0].name, j)])
        else if rest[0] == Close then Parsed(Record(before + [Member(ts[0].name, j)]), rest[1..])
        else Malformed
  }

  /** The JSON that a complete text stands for. */
  function Parse(ts: seq<Token>): Parsed {
    var r := ParseValue(ts);
    if r.Parsed? && r.rest == [] then r else Malformed
  }

  predicate StartsValue(t: Token) {
    t.Lit? || t == OpenList || t == Open
  }

  lemma {:induction false} PrintStarts(j: Json)
    ensures Print(j) != [] && StartsValue(Print(j)[0])
  {
  }

  lemma {:induction false} PrintEnds(j: Json)
    ensures Print(j) != [] && Print(j)[|Print(j)| - 1] != Comma
  {
  }

  lemma {:induction false} PrintedValue(j: Json, rest: seq<Token>)
    ensures ParseValue(Print(j) + rest) == Parsed(j, rest)
    decreases j, 0
  {
    var ts := Print(j) + rest;
    match j {
      case Leaf(atom) =>
        assert ts == [Lit(atom)] + rest;
        assert ts[1..] == rest;
      case List(items) =>
        var inner := PrintItems(items) + ([CloseList] + rest);
        assert ts == [OpenList] + inner;
        assert ts[1..] == inner;
        if items == [] {
          assert inner == [CloseList] + rest && ts[2..] == rest;
        } else {
          ItemsStart(items);
          assert ts[1] == PrintItems(items)[0];
          PrintedItems(items, rest, []);
          assert [] + items == items;
        }
      case Record(members) =>
        var inner := PrintMembers(members) + ([Close] + rest);
        assert ts == [Open] + inner;
        assert ts[1..] == inner;
        if members == [] {
          assert inner == [Close] + rest && ts[2..] == rest;
        } else {
          assert PrintMembers(members) != [] && PrintMembers(members)[0].Field?;
          assert ts[1] == PrintMembers(members)[0];
          PrintedMembers(members, rest, []);
          assert [] + members == members;
        }
    }
  }

  lemma ItemsStart(items: seq<Json>)
    requires items != []
    ensures PrintItems(items) != [] && StartsValue(PrintItems(items)[0])
  {
    PrintStarts(items[0]);
  }

  lemma {:induction false} PrintedItems(items: seq<Json>, rest: seq<Token>, before: seq<Json>)
    requires items != []
    ensures ParseItems(PrintItems(items) + ([CloseList] + rest), before) == Parsed(List(before + items), rest)
    decreases items, 1
  {
    var first := Print(items[0]);
    if |items| == 1 {
      PrintedValue(items[0], [CloseList] + rest);
      assert items == [items[0]] && ([CloseList] + rest)[1..] == rest;
    } else {
      var after := PrintItems(items[1..]) + ([CloseList] + rest);
      FirstItem(items, [CloseList] + rest);
      PrintedValue(items[0], [Comma] + after);
      assert ([Comma] + after)[1..] == after;
      PrintedItems(items[1..], rest, before + [items[0]]);
      assert before + [items[0]] + items[1..] == before + items;
    }
  }

  lemma {:induction false} PrintedMembers(members: seq<Member>, rest: seq<Token>, before: seq<Member>)
    requires members != []
    ensures ParseMembers(PrintMembers(members) + ([Close] + rest), before) == Parsed(Record(before + members), rest)
    decreases members, 1
  {
    var m := members[0];
    if |members| == 1 {
      PrintedMember(m, [Close] + rest);
      assert members == [m] && ([Close] + rest)[1..] == rest;
    } else {
      var after := PrintMembers(members[1..]) + ([Close] + rest);
      FirstMember(members, [Close] + rest);
      PrintedMember(m, [Comma] + after);
      assert ([Comma] + after)[1..] == after;
      PrintedMembers(members[1..], rest, before + [m]);
      assert before + [m] + members[1..] == before + members;
    }
  }

  lemma {:induction false} PrintedMember(m: Member, rest: seq<Token>)
    ensures var ts := PrintMember(m) + rest;
      ts != [] && ts[0] == Field(m.name) && ParseValue(ts[1..]) == Parsed(m.value, rest)
    decreases m, 0
  {
    PrintedValue(m.value, rest);
    assert (PrintMember(m) + rest)[1..] == Print(m.value) + rest;
  }

  /** What is printed is well-formed, and reading it gives back what was printed. */
  lemma ParsePrinted(j: Json)
    ensures Parse(Print(j)) == Parsed(j, [])
  {
    PrintedValue(j, []);
    assert Print(j) + [] == Print(j);
  }

  // ----- Only what is printed can be read -----

  lemma {:induction false} ValueIsPrinted(ts: seq<Token>)
    ensures var r := ParseValue(ts); r.Parsed? ==> ts == Print(r.json) + r.rest
    decreases |ts|, 0
  {
    var r := ParseValue(ts);
    if r.Parsed? {
      var inner := ts[1..];
      assert ts == [ts[0]] + inner;
      if ts[0] == OpenList {
        if inner != [] && inner[0] == CloseList {
          assert inner == [CloseList] + r.rest;
        } else {
          ItemsArePrinted(inner, []);
          assert r.json.items[0..] == r.json.items;
          assert ts == [OpenList] + (PrintItems(r.json.items) + ([CloseList] + r.rest));
        }
      } else if ts[0] == Open {
        if inner != [] && inner[0] == Close {
          assert inner == [Close] + r.rest;
        } else {
          MembersArePrinted(inner, []);
          assert r.json.members[0..] == r.json.members;
          assert ts == [Open] + (PrintMembers(r.json.members) + ([Close] + r.rest));
        }
      }
    }
  }

  lemma FirstItem(items: seq<Json>, rest: seq<Token>)
    requires |items| > 1
    ensures PrintItems(items) + rest == Print(items[0]) + ([Comma] + (PrintItems(items[1..]) + rest))
  {
    Regroup(Print(items[0]), [Comma], PrintItems(items[1..]), rest);
  }

  lemma Regroup(s: seq<Token>, t: seq<Token>, u: seq<Token>, v: seq<Token>)
    ensures s + t + u + v == s + (t + (u + v))
  {
  }

  lemma FirstMember(members: seq<Member>, rest: seq<Token>)
    requires |members| > 1
    ensures PrintMembers(members) + rest == PrintMember(members[0]) + ([Comma] + (PrintMembers(members[1..]) + rest))
  {
    Regroup(PrintMember(members[0]), [Comma], PrintMembers(members[1..]), rest);
  }

  lemma {:induction false} ItemsArePrinted(ts: seq<Token>, before: seq<Json>)
    ensures var r := ParseItems(ts, before);
      r.Parsed? ==>
        && r.json.List? && before < r.json.items
        && ts == PrintItems(r.json.items[|before|..]) + ([CloseList] + r.rest)
    decreases |ts|, 1
  {
    var r := ParseItems(ts, before);
    if r.Parsed? {
      ValueIsPrinted(ts);
      var Parsed(j, rest) := ParseValue(ts);
      assert rest == [rest[0]] + rest[1..];
      if rest[0] == Comma {
        ItemsArePrinted(rest[1..], before + [j]);
        var items := r.json.items[|before|..];
        assert items[0] == (before + [j])[|before|] && items[1..] == r.json.items[|before + [j]|..];
        FirstItem(items, [CloseList] + r.rest);
      } else {
        assert (before + [j])[|before|..] == [j];
      }
    }
  }

  lemma {:induction false} MembersArePrinted(ts: seq<Token>, before: seq<Member>)
    ensures var r := ParseMembers(ts, before);
      r.Parsed? ==>
        && r.json.Record? && before < r.json.members
        && ts == PrintMembers(r.json.members[|before|..]) + ([Close] + r.rest)
    decreases |ts|, 1
  {
    var r := ParseMembers(ts, before);
    if r.Parsed? {
      ValueIsPrinted(ts[1..]);
      var Parsed(j, rest) := ParseValue(ts[1..]);
      var m := Member(ts[0].name, j);
      MemberIsPrinted(ts, m, rest);
      assert rest == [rest[0]] + rest[1..];
      if rest[0] == Comma {
        MembersArePrinted(rest[1..], before + [m]);
        var members := r.json.members[|before|..];
        assert members[0] == (before + [m])[|before|] && members[1..] == r.json.members[|before + [m]|..];
        FirstMember(members, [Close] + r.rest);
      } else {
        assert (before + [m])[|before|..] == [m];
      }
    }
  }

  lemma MemberIsPrinted(ts: seq<Token>, m: Member, rest: seq<Token>)
    requires ts != [] && ts[0] == Field(m.name) && ts[1..] == Print(m.value) + rest
    ensures ts == PrintMember(m) + rest
  {
    assert ts == [ts[0]] + ts[1..];
  }

  /** A text is well-formed exactly if it is the printed form of some JSON, namely of what is read from it. */
  lemma ParsedIsPrinted(ts: seq<Token>, j: Json)
    ensures Parse(ts) == Parsed(j, []) <==> ts == Print(j)
  {
    ParsePrinted(j);
    ValueIsPrinted(ts);
  }

  // ----- Writing at the end -----

  lemma {:induction false} PrintOneMoreItem(items: seq<Json>, j: Json)
    ensures PrintItems(items + [j]) == PrintItems(items) + (if items == [] then [] else [Comma]) + Print(j)
  {
    if items == [] {
      assert items + [j] == [j];
    } else {
      PrintOneMoreItem(items[1..], j);
      assert (items + [j])[1..] == items[1..] + [j];
      if |items| > 1 {
        assert PrintItems(items + [j]) == Print(items[0]) + [Comma] + (PrintItems(items[1..]) + [Comma] + Print(j));
      }
    }
  }

  lemma {:induction false} PrintOneMoreMember(members: seq<Member>, m: Member)
    ensures PrintMembers(members + [m]) ==
            PrintMembers(members) + (if members == [] then [] else [Comma]) + PrintMember(m)
  {
    if members == [] {
      assert members + [m] == [m];
    } else {
      PrintOneMoreMember(members[1..], m);
      assert (members + [m])[1..] == members[1..] + [m];
      if |members| > 1 {
        assert PrintMembers(members + [m]) ==
               PrintMember(members[0]) + [Comma] + (PrintMembers(members[1..]) + [Comma] + PrintMember(m));
      }
    }
  }

  // ----- Meaning -----

  /** A decoded value: the order of members is gone. */
  datatype Tree = Scalar(atom: Atom) | Array(items: seq<Tree>) | Object(fields: map<Name, Tree>)

  function Decode(j: Json): Tree {
    match j
    case Leaf(atom) => Scalar(atom)
    case List(items) => Array(seq(|items|, i requires 0 <= i < |items| => Decode(items[i])))
    case Record(members) => Object(Collect(members))
  }

  /** The members of an object; of members with one name, the last. */
  function Collect(members: seq<Member>): map<Name, Tree> {
    if members == [] then map[]
    else
      var last := members[|members| - 1];
      Collect(members[..|members| - 1])[last.name := DecodeMember(last)]
  }

  function DecodeMember(m: Member): Tree {
    Decode(m.value)
  }

  lemma CollectMore(members: seq<Member>, m: Member)
    ensures Collect(members + [m]) == Collect(members)[m.name := Decode(m.value)]
  {
    assert (members + [m])[..|members|] == members;
  }
}
