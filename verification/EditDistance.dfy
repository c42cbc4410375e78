/** What a line diff is for: the least number of inserted and deleted lines turning a into b.
    The grid distance below is the tool for proving it, also outside the |a| x |b| grid,
    where no two lines match. */
module EditDistance {

  type Line = string

  /** One step of an edit script, read along both texts. */
  datatype Edit = Keep | Drop | Add(line: Line)

  /** The script consumes exactly a and produces exactly b. */
  ghost predicate Turns(script: seq<Edit>, a: seq<Line>, b: seq<Line>) {
    if script == [] then
      a == [] && b == []
    else
      var n := |script| - 1;
      match script[n]
      case Keep =>
        a != [] && b != [] && a[|a| - 1] == b[|b| - 1] && Turns(script[..n], a[..|a| - 1], b[..|b| - 1])
      case Drop =>
        a != [] && Turns(script[..n], a[..|a| - 1], b)
      case Add(line) =>
        b != [] && b[|b| - 1] == line && Turns(script[..n], a, b[..|b| - 1])
  }

  /** The number of dropped and added lines. */
  ghost function Cost(script: seq<Edit>): nat {
    if script == [] then 0
    else Cost(script[..|script| - 1]) + if script[|script| - 1].Keep? then 0 else 1
  }

  /** d is the size of a shortest edit script from a to b. */
  ghost predicate Shortest(a: seq<Line>, b: seq<Line>, d: nat) {
    && (exists script :: Turns(script, a, b) && Cost(script) == d)
    && (forall script :: Turns(script, a, b) ==> d <= Cost(script))
  }

  predicate Matches(a: seq<Line>, b: seq<Line>, x: int, y: int) {
    0 <= x < |a| && 0 <= y < |b| && a[x] == b[y]
  }

  /** Edits needed from (0, 0) to (x, y), where x and y may leave the grid. */
  ghost function Dist(a: seq<Line>, b: seq<Line>, x: nat, y: nat): nat
    decreases x + y
  {
    if x == 0 then y
    else if y == 0 then x
    else if Matches(a, b, x - 1, y - 1) then Dist(a, b, x - 1, y - 1)
    else
      var left, up := Dist(a, b, x - 1, y), Dist(a, b, x, y - 1);
      1 + if left < up then left else up
  }

  lemma {:induction false} DistNeighbours(a: seq<Line>, b: seq<Line>, x: nat, y: nat)
    ensures Dist(a, b, x, y) - 1 <= Dist(a, b, x + 1, y) <= Dist(a, b, x, y) + 1
    ensures Dist(a, b, x, y) - 1 <= Dist(a, b, x, y + 1) <= Dist(a, b, x, y) + 1
    decreases x + y
  {
    if y > 0 {
      DistNeighbours(a, b, x, y - 1);
    }
    if x > 0 {
      DistNeighbours(a, b, x - 1, y);
    }
  }

  lemma {:induction false} DistParity(a: seq<Line>, b: seq<Line>, x: nat, y: nat)
    ensures (Dist(a, b, x, y) + x + y) % 2 == 0
    decreases x + y
  {
    if x > 0 && y > 0 {
      if Matches(a, b, x - 1, y - 1) {
        DistParity(a, b, x - 1, y - 1);
      } else if Dist(a, b, x - 1, y) < Dist(a, b, x, y - 1) {
        DistParity(a, b, x - 1, y);
      } else {
        DistParity(a, b, x, y - 1);
      }
    }
  }

  lemma {:induction false} DistBounds(a: seq<Line>, b: seq<Line>, x: nat, y: nat)
    ensures x - y <= Dist(a, b, x, y) <= x + y
    ensures y - x <= Dist(a, b, x, y)
    decreases x + y
  {
    if x > 0 && y > 0 {
      DistBounds(a, b, x - 1, y - 1);
      DistBounds(a, b, x - 1, y);
      DistBounds(a, b, x, y - 1);
    }
  }

  lemma DistDiagonal(a: seq<Line>, b: seq<Line>, x: nat, y: nat)
    ensures Dist(a, b, x, y) <= Dist(a, b, x + 1, y + 1) <= Dist(a, b, x, y) + 2
    ensures Matches(a, b, x, y) ==> Dist(a, b, x + 1, y + 1) == Dist(a, b, x, y)
  {
    DistNeighbours(a, b, x, y);
    DistNeighbours(a, b, x + 1, y);
  }

  lemma {:induction false} DistDiagonalMonotone(a: seq<Line>, b: seq<Line>, x: nat, y: nat, n: nat)
    ensures Dist(a, b, x, y) <= Dist(a, b, x + n, y + n)
    decreases n
  {
    if n > 0 {
      DistDiagonalMonotone(a, b, x, y, n - 1);
      DistDiagonal(a, b, x + n - 1, y + n - 1);
    }
  }

  /** Outside the grid there is nothing to gain: one more column costs one more edit. */
  lemma {:induction false} DistRightOfGrid(a: seq<Line>, b: seq<Line>, x: nat, y: nat)
    requires x >= |a|
    ensures Dist(a, b, x + 1, y) == Dist(a, b, x, y) + 1
    decreases y
  {
    if y > 0 {
      DistRightOfGrid(a, b, x, y - 1);
      DistNeighbours(a, b, x, y - 1);
    }
  }

  lemma {:induction false} DistBelowGrid(a: seq<Line>, b: seq<Line>, x: nat, y: nat)
    requires y >= |b|
    ensures Dist(a, b, x, y + 1) == Dist(a, b, x, y) + 1
    decreases x
  {
    if x > 0 {
      DistBelowGrid(a, b, x - 1, y);
      DistNeighbours(a, b, x - 1, y);
    }
  }

  /** So stepping diagonally past the far corner always costs two. */
  lemma DistPastCorner(a: seq<Line>, b: seq<Line>)
    ensures Dist(a, b, |a| + 1, |b| + 1) == Dist(a, b, |a|, |b|) + 2
  {
    DistRightOfGrid(a, b, |a|, |b|);
    DistBelowGrid(a, b, |a|, |b|);
  }

  lemma {:induction false} NoScriptBeatsDist(script: seq<Edit>, a: seq<Line>, b: seq<Line>, x: nat, y: nat)
    requires x <= |a| && y <= |b|
    requires Turns(script, a[..x], b[..y])
    ensures Dist(a, b, x, y) <= Cost(script)
    decreases |script|
  {
    if script != [] {
      var n := |script| - 1;
      match script[n]
      case Keep =>
        assert a[..x][..x - 1] == a[..x - 1] && b[..y][..y - 1] == b[..y - 1];
        NoScriptBeatsDist(script[..n], a, b, x - 1, y - 1);
      case Drop =>
        assert a[..x][..x - 1] == a[..x - 1];
        NoScriptBeatsDist(script[..n], a, b, x - 1, y);
        DistNeighbours(a, b, x - 1, y);
      case Add(_) =>
        assert b[..y][..y - 1] == b[..y - 1];
        NoScriptBeatsDist(script[..n], a, b, x, y - 1);
        DistNeighbours(a, b, x, y - 1);
    }
  }

  lemma {:induction false} ScriptOfDist(a: seq<Line>, b: seq<Line>, x: nat, y: nat) returns (script: seq<Edit>)
    requires x <= |a| && y <= |b|
    ensures Turns(script, a[..x], b[..y])
    ensures Cost(script) == Dist(a, b, x, y)
    decreases x + y
  {
    if x == 0 && y == 0 {
      script := [];
    } else if x > 0 && y > 0 && a[x - 1] == b[y - 1] {
      var init := ScriptOfDist(a, b, x - 1, y - 1);
      script := init + [Keep];
      assert script[..|init|] == init;
      assert a[..x][..x - 1] == a[..x - 1] && b[..y][..y - 1] == b[..y - 1];
    } else if y == 0 || (x > 0 && Dist(a, b, x - 1, y) < Dist(a, b, x, y - 1)) {
      var init := ScriptOfDist(a, b, x - 1, y);
      script := init + [Drop];
      assert script[..|init|] == init;
      assert a[..x][..x - 1] == a[..x - 1];
    } else {
      var init := ScriptOfDist(a, b, x, y - 1);
      script := init + [Add(b[y - 1])];
      assert script[..|init|] == init;
      assert b[..y][..y - 1] == b[..y - 1];
    }
  }

  lemma CornerScript(a: seq<Line>, b: seq<Line>) returns (script: seq<Edit>)
    ensures Turns(script, a, b) && Cost(script) == Dist(a, b, |a|, |b|)
  {
    script := ScriptOfDist(a, b, |a|, |b|);
    assert a[..|a|] == a && b[..|b|] == b;
  }

  lemma NoScriptBeatsCorner(script: seq<Edit>, a: seq<Line>, b: seq<Line>)
    requires Turns(script, a, b)
    ensures Dist(a, b, |a|, |b|) <= Cost(script)
  {
    assert a[..|a|] == a && b[..|b|] == b;
    NoScriptBeatsDist(script, a, b, |a|, |b|);
  }

  /** The grid distance of the far corner is the size of a shortest script. */
  lemma DistIsShortest(a: seq<Line>, b: seq<Line>)
    ensures Shortest(a, b, Dist(a, b, |a|, |b|))
  {
    var script := CornerScript(a, b);
    forall other | Turns(other, a, b)
      ensures Dist(a, b, |a|, |b|) <= Cost(other)
    {
      NoScriptBeatsCorner(other, a, b);
    }
  }

  // ----- Common subsequences -----

  ghost predicate IsSubsequence(c: seq<Line>, s: seq<Line>) {
    if s == [] then c == []
    else
      var n := |s| - 1;
      IsSubsequence(c, s[..n]) || (c != [] && c[|c| - 1] == s[n] && IsSubsequence(c[..|c| - 1], s[..n]))
  }

  ghost predicate IsCommon(c: seq<Line>, a: seq<Line>, b: seq<Line>) {
    IsSubsequence(c, a) && IsSubsequence(c, b)
  }

  /** k is the length of a longest common subsequence. */
  ghost predicate IsLongest(a: seq<Line>, b: seq<Line>, k: nat) {
    && (exists c :: IsCommon(c, a, b) && |c| == k)
    && (forall c :: IsCommon(c, a, b) ==> |c| <= k)
  }

  /** What a script keeps is common to both texts. */
  lemma {:induction false} KeptLines(script: seq<Edit>, a: seq<Line>, b: seq<Line>) returns (c: seq<Line>)
    requires Turns(script, a, b)
    ensures IsCommon(c, a, b) && Cost(script) + 2 * |c| == |a| + |b|
    decreases |script|
  {
    if script == [] {
      c := [];
    } else {
      var n := |script| - 1;
      match script[n] {
        case Keep =>
          var init := KeptLines(script[..n], a[..|a| - 1], b[..|b| - 1]);
          c := init + [a[|a| - 1]];
          assert c[..|init|] == init;
        case Drop =>
          c := KeptLines(script[..n], a[..|a| - 1], b);
        case Add(_) =>
          c := KeptLines(script[..n], a, b[..|b| - 1]);
      }
    }
  }

  lemma {:induction false} EmptyIsSubsequence(s: seq<Line>)
    ensures IsSubsequence([], s)
  {
    if s != [] {
      EmptyIsSubsequence(s[..|s| - 1]);
    }
  }

  /** What is common to both texts can be kept by a script. */
  lemma {:induction false} ScriptKeeping(c: seq<Line>, a: seq<Line>, b: seq<Line>) returns (script: seq<Edit>)
    requires IsCommon(c, a, b)
    ensures Turns(script, a, b) && Cost(script) + 2 * |c| == |a| + |b|
    decreases |a| + |b|
  {
    EmptyIsSubsequence(if a == [] then a else a[..|a| - 1]);
    EmptyIsSubsequence(if b == [] then b else b[..|b| - 1]);
    if a != [] && IsSubsequence(c, a[..|a| - 1]) {
      var init := ScriptKeeping(c, a[..|a| - 1], b);
      script := init + [Drop];
      assert script[..|init|] == init;
    } else if b != [] && IsSubsequence(c, b[..|b| - 1]) {
      var init := ScriptKeeping(c, a, b[..|b| - 1]);
      script := init + [Add(b[|b| - 1])];
      assert script[..|init|] == init;
    } else if a == [] || b == [] {
      script := [];
    } else {
      var init := ScriptKeeping(c[..|c| - 1], a[..|a| - 1], b[..|b| - 1]);
      script := init + [Keep];
      assert script[..|init|] == init;
    }
  }

  /** The least number of edits is |a| + |b| without twice the length of a longest common subsequence. */
  lemma ShortestKeepsLongest(a: seq<Line>, b: seq<Line>, d: nat, k: nat)
    requires d + 2 * k == |a| + |b|
    ensures Shortest(a, b, d) <==> IsLongest(a, b, k)
  {
    if Shortest(a, b, d) {
      var script :| Turns(script, a, b) && Cost(script) == d;
      var kept := KeptLines(script, a, b);
      forall c | IsCommon(c, a, b)
        ensures |c| <= k
      {
        var other := ScriptKeeping(c, a, b);
      }
    }
    if IsLongest(a, b, k) {
      var c :| IsCommon(c, a, b) && |c| == k;
      var script := ScriptKeeping(c, a, b);
      forall other | Turns(other, a, b)
        ensures d <= Cost(other)
      {
        var kept := KeptLines(other, a, b);
      }
    }
  }
}
