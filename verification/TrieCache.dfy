/** The cache of base documents, a trie on the heap: internal/cache/cache.go. */
module TrieCache {

  datatype Option<T> = None | Some(value: T)

  /** A step of a reference. */
  datatype Key = Text(s: string) | Index(n: int) | Truth(b: bool) | Null

  type Ref = seq<Key>

  /** Steps are scalars, so of a set only the scalar members matter. */
  datatype Document =
    | Scalar(key: Key)
    | Array(elements: seq<Document>)
    | Object(fields: map<Key, Document>)
    | SetOf(members: set<Key>)

  function FindKey(doc: Document, k: Key): Option<Document> {
    match doc
    case Scalar(_) => None
    case Array(elements) => if k.Index? && 0 <= k.n < |elements| then Some(elements[k.n]) else None
    case Object(fields) => if k in fields then Some(fields[k]) else None
    case SetOf(members) => if k in members then Some(Scalar(k)) else None
  }

  /** The part of a document that a reference leads to. */
  function Find(doc: Document, ref: Ref): Option<Document>
    decreases |ref|
  {
    if ref == [] then Some(doc)
    else
      var next := FindKey(doc, ref[0]);
      if next == None then None else Find(next.value, ref[1..])
  }

  /** One step leads to the element with that index, to the value of that key, or to that member. */
  lemma FindStep(doc: Document, k: Key, ref: Ref)
    ensures doc.Scalar? ==> Find(doc, [k] + ref) == None
    ensures doc.Array? ==>
      Find(doc, [k] + ref) ==
        match k case Index(n) => (if 0 <= n < |doc.elements| then Find(doc.elements[n], ref) else None) case _ => None
    ensures doc.Object? ==> Find(doc, [k] + ref) == if k in doc.fields then Find(doc.fields[k], ref) else None
    ensures doc.SetOf? ==> Find(doc, [k] + ref) == if k in doc.members && ref == [] then Some(Scalar(k)) else None
  {
    assert ([k] + ref)[1..] == ref;
  }

  lemma {:induction false} FindInSteps(doc: Document, ref: Ref, i: nat)
    requires i <= |ref|
    ensures Find(doc, ref) == var part := Find(doc, ref[..i]); if part == None then None else Find(part.value, ref[i..])
    decreases i
  {
    if i == 0 {
      assert ref[..0] == [] && ref[0..] == ref;
    } else {
      var next := FindKey(doc, ref[0]);
      assert ref[..i][1..] == ref[1..][..i - 1] && ref[1..][i - 1..] == ref[i..];
      if next.Some? {
        FindInSteps(next.value, ref[1..], i - 1);
      }
    }
  }

  // ----- Places in the trie -----

  /** A place, by the steps that lead to it from the root. */
  datatype Place = Root | Under(parent: Place, key: Key)

  /** Where the first i steps of a reference lead. */
  function PlaceOf(ref: Ref, i: nat): Place
    requires i <= |ref|
  {
    if i == 0 then Root else Under(PlaceOf(ref, i - 1), ref[i - 1])
  }

  /** p is the place top, or somewhere below it. */
  predicate IsWithin(top: Place, p: Place) {
    p == top || (p.Under? && IsWithin(top, p.parent))
  }

  /** The documents that are cached. */
  type Entries = map<Place, Document>

  /** The part of the entry at the shortest prefix of ref with at least i steps. */
  function LookupFrom(m: Entries, ref: Ref, i: nat): Option<Document>
    requires i <= |ref| + 1
    decreases |ref| + 1 - i
  {
    if i > |ref| then None
    else if PlaceOf(ref, i) in m then Find(m[PlaceOf(ref, i)], ref[i..])
    else LookupFrom(m, ref, i + 1)
  }

  /** The empty prefix is never consulted. */
  function Lookup(m: Entries, ref: Ref): Option<Document> {
    LookupFrom(m, ref, 1)
  }

  /** A put replaces the entry at a place and discards all below it. */
  function AfterPut(m: Entries, top: Place, value: Option<Document>): Entries {
    var kept := map p | p in m && !IsWithin(top, p) :: m[p];
    if value.Some? then kept[top := value.value] else kept
  }

  class Elem {
    var value: Option<Document>
    var children: map<Key, Elem>

    constructor ()
      ensures value == None && children == map[]
    {
      value, children := None, map[];
    }

    method Set(v: Option<Document>)
      modifies this
      ensures value == v && children == map[]
    {
      value := v;
      children := map[];
    }
  }

  // ----- The shape of the trie -----

  /** A node with what it holds at some moment. */
  datatype Node = Node(self: Elem, value: Option<Document>, children: map<Key, Elem>)

  type Shape = map<Place, Node>

  /** Different places have different nodes, and the children lead to all places but the root. */
  ghost predicate IsTrie(t: Shape) {
    Root in t && AllDiffer(t) && AllHang(t) && AllLead(t)
  }

  ghost predicate AllDiffer(t: Shape) {
    forall p, q :: p in t && q in t && p != q ==> t[p].self != t[q].self
  }

  ghost predicate AllHang(t: Shape) {
    forall p :: p in t && p.Under? ==> HangsBelowParent(t, p)
  }

  ghost predicate AllLead(t: Shape) {
    forall p, k :: p in t && k in t[p].children ==> LeadsToNode(t, p, k)
  }

  ghost predicate HangsBelowParent(t: Shape, p: Place)
    requires p in t && p.Under?
  {
    p.parent in t && p.key in t[p.parent].children && t[p.parent].children[p.key] == t[p].self
  }

  ghost predicate LeadsToNode(t: Shape, p: Place, k: Key)
    requires p in t && k in t[p].children
  {
    Under(p, k) in t && t[Under(p, k)].self == t[p].children[k]
  }

  ghost function EntriesOf(t: Shape): Entries {
    map p | p in t && t[p].value.Some? :: t[p].value.value
  }

  ghost function WithChild(t: Shape, p: Place, key: Key, child: Elem): Shape
    requires p in t
  {
    t[p := t[p].(children := t[p].children[key := child])][Under(p, key) := Node(child, None, map[])]
  }

  lemma ChildHangs(t: Shape, p: Place, key: Key, child: Elem)
    requires AllHang(t) && p in t && key !in t[p].children
    ensures Under(p, key) !in t && AllHang(WithChild(t, p, key, child))
  {
    var t' := WithChild(t, p, key, child);
    forall q | q in t' && q.Under?
      ensures HangsBelowParent(t', q)
    {
      assert q == Under(p, key) || HangsBelowParent(t, q);
    }
  }

  lemma ChildLeads(t: Shape, p: Place, key: Key, child: Elem)
    requires AllLead(t) && p in t && Under(p, key) !in t
    ensures AllLead(WithChild(t, p, key, child))
  {
    var t' := WithChild(t, p, key, child);
    forall q, k | q in t' && k in t'[q].children
      ensures LeadsToNode(t', q, k)
    {
      assert (q == p && k == key) || LeadsToNode(t, q, k);
    }
  }

  lemma ChildKeepsTrie(t: Shape, p: Place, key: Key, child: Elem)
    requires IsTrie(t) && p in t && key !in t[p].children
    requires forall q :: q in t ==> t[q].self != child
    ensures Under(p, key) !in t
    ensures IsTrie(WithChild(t, p, key, child))
  {
    ChildHangs(t, p, key, child);
    ChildLeads(t, p, key, child);
    ChildDiffers(t, p, key, child);
  }

  lemma ChildDiffers(t: Shape, p: Place, key: Key, child: Elem)
    requires AllDiffer(t) && p in t
    requires forall q :: q in t ==> t[q].self != child
    ensures AllDiffer(WithChild(t, p, key, child))
  {
  }

  lemma ChildKeepsEntries(t: Shape, p: Place, key: Key, child: Elem)
    requires p in t && Under(p, key) !in t
    ensures EntriesOf(WithChild(t, p, key, child)) == EntriesOf(t)
  {
    var t' := WithChild(t, p, key, child);
    forall q
      ensures q in EntriesOf(t') <==> q in EntriesOf(t)
      ensures q in EntriesOf(t) ==> EntriesOf(t')[q] == EntriesOf(t)[q]
    {
    }
  }

  /** Everything below a place cut off, and a value stored there. */
  ghost function Pruned(t: Shape, top: Place, value: Option<Document>): Shape
    requires top in t
  {
    (map p | p in t && !IsWithin(top, p) :: t[p])[top := Node(t[top].self, value, map[])]
  }

  lemma PruningKeepsTrie(t: Shape, top: Place, value: Option<Document>)
    requires IsTrie(t) && top in t
    ensures IsTrie(Pruned(t, top, value))
  {
    var t' := Pruned(t, top, value);
    forall q | q in t' && q.Under?
      ensures HangsBelowParent(t', q)
    {
      assert HangsBelowParent(t, q);
      NotWithinBelow(top, q);
      assert !IsWithin(top, q.parent) && q.parent != top;
      assert t'[q.parent] == t[q.parent] && t'[q].self == t[q].self;
    }
    forall q, k | q in t' && k in t'[q].children
      ensures LeadsToNode(t', q, k)
    {
      assert LeadsToNode(t, q, k);
    }
  }

  lemma PruningIsPut(t: Shape, top: Place, value: Option<Document>)
    requires top in t
    ensures EntriesOf(Pruned(t, top, value)) == AfterPut(EntriesOf(t), top, value)
  {
    forall q
      ensures q in EntriesOf(Pruned(t, top, value)) <==> q in AfterPut(EntriesOf(t), top, value)
      ensures q in EntriesOf(Pruned(t, top, value)) ==>
                EntriesOf(Pruned(t, top, value))[q] == AfterPut(EntriesOf(t), top, value)[q]
    {
    }
  }

  lemma NotWithinBelow(top: Place, q: Place)
    requires q.Under?
    ensures q == top ==> !IsWithin(top, q.parent)
  {
    NotWithinSmaller(top, q.parent);
  }

  lemma {:induction false} NotWithinSmaller(top: Place, q: Place)
    ensures IsWithin(top, q) ==> Depth(top) <= Depth(q)
  {
    if q.Under? {
      NotWithinSmaller(top, q.parent);
    }
  }

  function Depth(p: Place): nat {
    if p.Root? then 0 else 1 + Depth(p.parent)
  }

  lemma OtherNodes(t: Shape, p: Place)
    requires IsTrie(t) && p in t
    ensures forall q :: q in t && q != p ==> t[q].self != t[p].self
  {
  }

  // ----- The cache -----

  class BaseCache {
    var root: Elem
    /** All nodes, by their places. */
    ghost var nodes: map<Place, Elem>

    ghost function Now(): Shape
      reads this, nodes.Values
    {
      map p | p in nodes :: Node(nodes[p], nodes[p].value, nodes[p].children)
    }

    ghost predicate Valid()
      reads this, nodes.Values
    {
      IsTrie(Now()) && nodes[Root] == root
    }

    ghost function Contents(): Entries
      reads this, nodes.Values
    {
      EntriesOf(Now())
    }

    constructor ()
      ensures Valid() && Contents() == map[] && fresh(nodes.Values)
    {
      root := new Elem();
      new;
      nodes := map[Root := root];
      assert Now() == map[Root := Node(root, None, map[])];
    }

    /** The walk along ref has reached a node after i steps, and no shorter non-empty prefix has an entry. */
    ghost predicate Reached(node: Elem, ref: Ref, i: nat)
      reads this, nodes.Values
    {
      && i <= |ref| && PlaceOf(ref, i) in nodes && nodes[PlaceOf(ref, i)] == node
      && Lookup(Contents(), ref) == LookupFrom(Contents(), ref, i + 1)
    }

    method Get(ref: Ref) returns (r: Option<Document>)
      requires Valid()
      ensures r == Lookup(Contents(), ref)
    {
      var node := root;
      for i := 0 to |ref|
        invariant Reached(node, ref, i)
      {
        var done;
        done, node, r := Follow(node, ref, i);
        if done {
          return;
        }
      }
      return None;
    }

    /** One turn of the walk: to the next node, or to the answer. */
    method Follow(node: Elem, ref: Ref, i: nat) returns (done: bool, next: Elem, r: Option<Document>)
      requires Valid() && i < |ref| && Reached(node, ref, i)
      ensures done ==> r == Lookup(Contents(), ref)
      ensures !done ==> Reached(next, ref, i + 1)
    {
      ghost var t := Now();
      if ref[i] !in node.children {
        NothingFurther(t, ref, i);
        return true, node, None;
      }
      OneStepFurther(t, ref, i);
      var child := node.children[ref[i]];
      if child.value.Some? {
        if |ref[i..]| == 1 && child.value.value.Scalar? {
          assert ref[i + 1..] == [];
          return true, child, child.value;
        }
        return true, child, Find(child.value.value, ref[i + 1..]);
      }
      return false, child, None;
    }

    method Put(ref: Ref, value: Option<Document>)
      requires Valid()
      modifies this, nodes.Values
      ensures Valid() && fresh(nodes.Values - old(nodes.Values))
      ensures Contents() == AfterPut(old(Contents()), PlaceOf(ref, |ref|), value)
    {
      var node := root;
      var i := 0;
      while i < |ref|
        invariant Valid()
        invariant fresh(nodes.Values - old(nodes.Values))
        invariant i <= |ref| && PlaceOf(ref, i) in nodes && nodes[PlaceOf(ref, i)] == node
        invariant Contents() == old(Contents())
      {
        if ref[i] in node.children {
          assert LeadsToNode(Now(), PlaceOf(ref, i), ref[i]);
          node := node.children[ref[i]];
        } else {
          node := AddChild(node, PlaceOf(ref, i), ref[i]);
        }
        i := i + 1;
      }
      SetAndPrune(node, PlaceOf(ref, |ref|), value);
    }

    method AddChild(node: Elem, p: Place, key: Key) returns (child: Elem)
      requires Valid() && p in nodes && nodes[p] == node && key !in node.children
      modifies this, node
      ensures Valid() && fresh(child) && nodes == old(nodes)[Under(p, key) := child]
      ensures Contents() == old(Contents())
    {
      ghost var before := Now();
      child := new Elem();
      ChildKeepsTrie(before, p, key, child);
      ChildKeepsEntries(before, p, key, child);
      OtherNodes(before, p);
      Attach(node, p, key, child);
    }

    method Attach(node: Elem, ghost p: Place, key: Key, child: Elem)
      requires p in nodes && nodes[p] == node && Under(p, key) !in nodes
      requires forall q :: q in Now() && q != p ==> Now()[q].self != node
      requires child !in nodes.Values && child.value == None && child.children == map[]
      modifies this, node
      ensures root == old(root) && nodes == old(nodes)[Under(p, key) := child]
      ensures Now() == WithChild(old(Now()), p, key, child)
    {
      ghost var before := Now();
      assert forall q :: q in before && q != p ==> before[q].self != node;
      node.children := node.children[key := child];
      nodes := nodes[Under(p, key) := child];
      SameShape(Now(), WithChild(before, p, key, child));
    }

    method SetAndPrune(node: Elem, top: Place, value: Option<Document>)
      requires Valid() && top in nodes && nodes[top] == node
      modifies this, node
      ensures Valid() && nodes.Values <= old(nodes.Values)
      ensures Contents() == AfterPut(old(Contents()), top, value)
    {
      ghost var before := Now();
      PruningKeepsTrie(before, top, value);
      PruningIsPut(before, top, value);
      OtherNodes(before, top);
      Overwrite(node, top, value);
    }

    method Overwrite(node: Elem, ghost top: Place, value: Option<Document>)
      requires top in nodes && nodes[top] == node
      requires forall q :: q in Now() && q != top ==> Now()[q].self != node
      modifies this, node
      ensures root == old(root) && top in nodes && nodes.Values <= old(nodes.Values)
      ensures Now() == Pruned(old(Now()), top, value)
    {
      ghost var before := Now();
      assert forall q :: q in before && q != top ==> before[q].self != node;
      node.Set(value);
      nodes := (map p | p in nodes && !IsWithin(top, p) :: nodes[p])[top := node];
      SameShape(Now(), Pruned(before, top, value));
    }
  }

  lemma SameShape(t: Shape, u: Shape)
    requires t.Keys == u.Keys && forall p :: p in t ==> t[p] == u[p]
    ensures t == u
  {
  }

  lemma OneStepFurther(t: Shape, ref: Ref, i: nat)
    requires IsTrie(t) && i < |ref| && PlaceOf(ref, i) in t && ref[i] in t[PlaceOf(ref, i)].children
    ensures var p := PlaceOf(ref, i + 1);
      && p in t && t[p].self == t[PlaceOf(ref, i)].children[ref[i]]
      && LookupFrom(EntriesOf(t), ref, i + 1) ==
           if t[p].value.Some? then Find(t[p].value.value, ref[i + 1..]) else LookupFrom(EntriesOf(t), ref, i + 2)
  {
    assert LeadsToNode(t, PlaceOf(ref, i), ref[i]);
  }

  lemma NothingFurther(t: Shape, ref: Ref, i: nat)
    requires IsTrie(t) && i < |ref| && PlaceOf(ref, i) in t && ref[i] !in t[PlaceOf(ref, i)].children
    ensures LookupFrom(EntriesOf(t), ref, i + 1) == None
  {
    NoLongerPrefix(t, ref, i + 1);
  }

  lemma {:induction false} NoLongerPrefix(t: Shape, ref: Ref, i: nat)
    requires IsTrie(t) && i <= |ref| && PlaceOf(ref, i) !in t
    ensures LookupFrom(EntriesOf(t), ref, i) == None
    decreases |ref| - i
  {
    if i < |ref| {
      NoLongerPrefix(t, ref, i + 1);
    }
  }

  // ----- Histories -----

  datatype PutCall = PutCall(ref: Ref, value: Option<Document>)

  function TargetOf(put: PutCall): Place {
    PlaceOf(put.ref, |put.ref|)
  }

  /** The entries after a sequence of puts to an empty cache. */
  function RunPuts(puts: seq<PutCall>): Entries {
    if puts == [] then map[]
    else
      var last := puts[|puts| - 1];
      AfterPut(RunPuts(puts[..|puts| - 1]), TargetOf(last), last.value)
  }

  /** The i-th put stored a document at p, and no later put at p or above it has discarded it. */
  ghost predicate IsLive(puts: seq<PutCall>, i: int, p: Place) {
    && 0 <= i < |puts| && TargetOf(puts[i]) == p && puts[i].value.Some?
    && forall j :: i < j < |puts| ==> !IsWithin(TargetOf(puts[j]), p)
  }

  lemma {:induction false} EntriesAreLivePuts(puts: seq<PutCall>, p: Place)
    ensures p in RunPuts(puts) <==> exists i :: IsLive(puts, i, p)
    ensures forall i :: IsLive(puts, i, p) ==> p in RunPuts(puts) && RunPuts(puts)[p] == puts[i].value.value
  {
    if puts != [] {
      var n := |puts| - 1;
      var init, last := puts[..n], puts[n];
      EntriesAreLivePuts(init, p);
      forall i
        ensures IsLive(puts, i, p) <==>
          if i == n then TargetOf(last) == p && last.value.Some? else IsLive(init, i, p) && !IsWithin(TargetOf(last), p)
      {
        if IsLive(puts, i, p) && i < n {
          assert forall j :: i < j < n ==> init[j] == puts[j];
        }
      }
      if p in RunPuts(puts) {
        if p == TargetOf(last) {
          assert IsLive(puts, n, p);
        } else {
          var i :| IsLive(init, i, p);
          assert IsLive(puts, i, p);
        }
      }
    }
  }

  /** Some non-empty prefix of ref has an entry. */
  ghost predicate IsCovered(m: Entries, ref: Ref) {
    CoveredFrom(m, ref, 1)
  }

  /** Some prefix of ref with at least i steps has an entry. */
  ghost predicate CoveredFrom(m: Entries, ref: Ref, i: nat) {
    exists j :: i <= j <= |ref| && PlaceOf(ref, j) in m
  }

  lemma {:induction false} PlaceIsPrefix(a: Ref, i: nat, b: Ref, j: nat)
    requires i <= |a| && j <= |b| && PlaceOf(a, i) == PlaceOf(b, j)
    ensures i == j && a[..i] == b[..j]
    decreases i
  {
    if i > 0 && j > 0 {
      PlaceIsPrefix(a, i - 1, b, j - 1);
      assert a[..i] == a[..i - 1] + [a[i - 1]] && b[..j] == b[..j - 1] + [b[j - 1]];
    }
  }

  /** All puts store parts of one document, each under its own reference. */
  ghost predicate ComeFrom(puts: seq<PutCall>, doc: Document) {
    forall i :: 0 <= i < |puts| && puts[i].value.Some? ==> Find(doc, puts[i].ref) == puts[i].value
  }

  lemma {:induction false} LookupAgreesFrom(m: Entries, doc: Document, ref: Ref, i: nat)
    requires i <= |ref| + 1
    requires forall j :: i <= j <= |ref| && PlaceOf(ref, j) in m ==> Find(doc, ref[..j]) == Some(m[PlaceOf(ref, j)])
    ensures LookupFrom(m, ref, i) == if CoveredFrom(m, ref, i) then Find(doc, ref) else None
    decreases |ref| + 1 - i
  {
    if i <= |ref| {
      if PlaceOf(ref, i) in m {
        FindInSteps(doc, ref, i);
        assert CoveredFrom(m, ref, i);
      } else {
        LookupAgreesFrom(m, doc, ref, i + 1);
      }
    }
  }

  /** When all puts come from one document, the cache agrees with it exactly where it covers the reference, or the
      document has nothing there. */
  lemma CacheAgrees(puts: seq<PutCall>, doc: Document, ref: Ref)
    requires ComeFrom(puts, doc)
    ensures Lookup(RunPuts(puts), ref) == if IsCovered(RunPuts(puts), ref) then Find(doc, ref) else None
  {
    var m := RunPuts(puts);
    forall j | 1 <= j <= |ref| && PlaceOf(ref, j) in m
      ensures Find(doc, ref[..j]) == Some(m[PlaceOf(ref, j)])
    {
      EntriesAreLivePuts(puts, PlaceOf(ref, j));
      var i :| IsLive(puts, i, PlaceOf(ref, j));
      PlaceIsPrefix(puts[i].ref, |puts[i].ref|, ref, j);
      assert puts[i].ref[..|puts[i].ref|] == puts[i].ref;
    }
    LookupAgreesFrom(m, doc, ref, 1);
  }

  lemma {:induction false} WithinPrefix(top: Place, ref: Ref, i: nat)
    requires i <= |ref| && IsWithin(top, PlaceOf(ref, i))
    ensures exists j :: 0 <= j <= i && top == PlaceOf(ref, j)
    decreases i
  {
    if top == PlaceOf(ref, i) {
    } else {
      WithinPrefix(top, ref, i - 1);
    }
  }

  /** The i-th put stored a document at a non-empty prefix of ref, and no later put went to the empty reference. */
  ghost predicate CoversSince(puts: seq<PutCall>, i: int, ref: Ref) {
    && 0 <= i < |puts| && puts[i].ref != [] && puts[i].ref <= ref
    && forall j :: i < j < |puts| ==> puts[j].ref != []
  }

  lemma PrefixPlace(p: Ref, ref: Ref)
    requires p <= ref
    ensures PlaceOf(p, |p|) == PlaceOf(ref, |p|)
  {
    SamePlace(p, ref, |p|);
  }

  lemma {:induction false} SamePlace(p: Ref, ref: Ref, i: nat)
    requires p <= ref && i <= |p|
    ensures PlaceOf(p, i) == PlaceOf(ref, i)
  {
    if i > 0 {
      SamePlace(p, ref, i - 1);
    }
  }

  /** What is covered: a put to the empty reference uncovers everything and, never being consulted, covers nothing. */
  lemma {:induction false} CoveredIff(puts: seq<PutCall>, ref: Ref)
    requires forall i :: 0 <= i < |puts| ==> puts[i].value.Some?
    ensures IsCovered(RunPuts(puts), ref) <==> exists i :: CoversSince(puts, i, ref)
  {
    if puts != [] {
      var n := |puts| - 1;
      var init, last := puts[..n], puts[n];
      CoveredIff(init, ref);
      if last.ref == [] {
        NothingOutsideRoot();
        assert forall i :: CoversSince(puts, i, ref) ==> i == n;
      } else if last.ref <= ref {
        PrefixPlace(last.ref, ref);
        assert TargetOf(last) in RunPuts(puts);
        assert CoversSince(puts, n, ref);
      } else {
        OtherPutKeepsCover(RunPuts(init), last, ref);
        if i :| CoversSince(init, i, ref) {
          assert CoversSince(puts, i, ref);
        }
        if i :| CoversSince(puts, i, ref) {
          assert i < n && init[i] == puts[i];
          assert CoversSince(init, i, ref);
        }
      }
    }
  }

  lemma {:induction false} AllWithinRoot(p: Place)
    ensures IsWithin(Root, p)
  {
    if p.Under? {
      AllWithinRoot(p.parent);
    }
  }

  lemma NothingOutsideRoot()
    ensures forall p :: IsWithin(Root, p)
  {
    forall p
      ensures IsWithin(Root, p)
    {
      AllWithinRoot(p);
    }
  }

  lemma OtherPutKeepsCover(m: Entries, put: PutCall, ref: Ref)
    requires put.ref != [] && !(put.ref <= ref)
    ensures IsCovered(AfterPut(m, TargetOf(put), put.value), ref) <==> IsCovered(m, ref)
  {
    forall i | 1 <= i <= |ref|
      ensures !IsWithin(TargetOf(put), PlaceOf(ref, i))
    {
      if IsWithin(TargetOf(put), PlaceOf(ref, i)) {
        WithinIsPrefix(put.ref, ref, i);
      }
    }
  }

  lemma WithinIsPrefix(above: Ref, ref: Ref, i: nat)
    requires i <= |ref| && IsWithin(PlaceOf(above, |above|), PlaceOf(ref, i))
    ensures above <= ref
  {
    WithinPrefix(PlaceOf(above, |above|), ref, i);
    var j :| 0 <= j <= i && PlaceOf(above, |above|) == PlaceOf(ref, j);
    PlaceIsPrefix(above, |above|, ref, j);
    assert above == above[..|above|] == ref[..j];
  }

  /** A document at the empty reference is not found there, although it has the key. */
  lemma RootIsNotConsulted()
    ensures var doc, ref := Object(map[Text("k") := Scalar(Null)]), [Text("k")];
      Find(doc, ref) == Some(Scalar(Null)) && Lookup(RunPuts([PutCall([], Some(doc))]), ref) == None
  {
    var doc, ref := Object(map[Text("k") := Scalar(Null)]), [Text("k")];
    var put := PutCall([], Some(doc));
    assert ref[1..] == [] && Find(Scalar(Null), []) == Some(Scalar(Null));
    assert [put][..0] == [];
    assert RunPuts([put]) == AfterPut(map[], Root, Some(doc));
    assert PlaceOf(ref, 1) == Under(Root, Text("k"));
  }
}
