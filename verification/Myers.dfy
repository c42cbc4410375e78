/** The greedy forward pass of internal/lsp/diff.go, the walk back through its trace and the
    operations built from it. */
module Myers {
  import opened EditDistance
  import opened Furthest

  /** The copy of V saved for d edits still holds what d - 1 edits reach. */
  ghost predicate Saved(a: seq<Line>, b: seq<Line>, trace: seq<seq<int>>, d: int) {
    0 <= d < |trace| && FarRow(a, b, d - 1, trace[d])
  }

  /** The first n entries are saved copies of V, the others are missing. */
  ghost predicate IsTrace(a: seq<Line>, b: seq<Line>, trace: seq<seq<int>>, n: nat) {
    && n <= |trace| == |a| + |b| + 1
    && (forall d :: n <= d < |trace| ==> trace[d] == [])
    && (forall d {:trigger Saved(a, b, trace, d)} :: 0 <= d < n ==> Saved(a, b, trace, d))
  }

  lemma TraceSaved(a: seq<Line>, b: seq<Line>, trace: seq<seq<int>>, d: nat, V: seq<int>)
    requires IsTrace(a, b, trace, d) && d < |trace|
    requires FarRow(a, b, d - 1, V)
    ensures IsTrace(a, b, trace[d := V], d + 1)
  {
    var trace' := trace[d := V];
    forall e | 0 <= e < d
      ensures Saved(a, b, trace', e)
    {
      assert Saved(a, b, trace, e);
    }
  }

  /** One turn of the inner loop: enters diagonal k from the better neighbour and slides down it. */
  method FillDiagonal(a: seq<Line>, b: seq<Line>, V: array<int>, d: int, k: int) returns (x: int, y: int)
    requires a != [] || b != []
    requires d >= 0 && OnDiagonal(d, k)
    requires FarRow(a, b, d - 1, V[..]) && FarBelow(a, b, d, k, V[..])
    requires d == 0 ==> V[1 + |a| + |b|] == 0
    modifies V
    ensures V[..] == old(V[..])[k + |a| + |b| := x]
    ensures Far(a, b, d, k, x) && y == x - k
    ensures FarRow(a, b, d - 1, V[..]) && FarBelow(a, b, d, k + 2, V[..])
  {
    var offset := |a| + |b|;
    if k == -d || (k != d && V[k - 1 + offset] < V[k + 1 + offset]) {
      x := V[k + 1 + offset];
    } else {
      x := V[k - 1 + offset] + 1;
    }
    y := x - k;
    ghost var row := V[..];
    ghost var start := x;
    ghost var left := if k > -d then row[k - 1 + offset] else 0;
    ghost var right := if k < d then row[k + 1 + offset] else 0;
    assert Reached(a, b, d, k, x) by {
      if d > 0 {
        assert k > -d ==> OnDiagonal(d - 1, k - 1);
        assert k < d ==> OnDiagonal(d - 1, k + 1);
        StartReached(a, b, d, k, left, right);
      }
    }
    while x < |a| && y < |b| && a[x] == b[y]
      invariant V[..] == row && start <= x && y == x - k
      invariant Reached(a, b, d, k, x)
    {
      OneMoreMatch(a, b, d, k, x);
      x := x + 1;
      y := y + 1;
    }
    assert Far(a, b, d, k, x) by {
      assert k > -d ==> OnDiagonal(d - 1, k - 1);
      assert k < d ==> OnDiagonal(d - 1, k + 1);
      FurthestReached(a, b, d, k, left, right, x);
    }
    RowExtended(a, b, d, k, row, x);
    V[k + offset] := x;
  }

  /** The inner loop: fills row d, stopping early in the far corner, which it meets once d edits suffice for it. */
  method FillRow(a: seq<Line>, b: seq<Line>, V: array<int>, d: int, ghost shortest: int) returns (corner: bool)
    requires a != [] || b != []
    requires shortest == Dist(a, b, |a|, |b|) && 0 <= d <= shortest
    requires FarRow(a, b, d - 1, V[..])
    requires d == 0 ==> V[1 + |a| + |b|] == 0
    modifies V
    ensures corner <==> d == shortest
    ensures FarRow(a, b, d - 1, V[..])
    ensures !corner ==> FarRow(a, b, d, V[..])
  {
    var M, N := |a|, |b|;
    CornerOnDiagonal(a, b);
    var k := -d;
    while k <= d
      invariant -d <= k <= d + 2 && (d + k) % 2 == 0
      invariant d == 0 && k == 0 ==> V[1 + |a| + |b|] == 0
      invariant FarRow(a, b, d - 1, V[..])
      invariant FarBelow(a, b, d, k, V[..])
      invariant M - N < k ==> d < shortest
    {
      var x, y := FillDiagonal(a, b, V, d, k);
      if x == M && y == N {
        return true;
      }
      if k == M - N && d == shortest {
        CornerIsHit(a, b, d, k, x);
      }
      k := k + 2;
    }
    return false;
  }

  /** Returns inside the loop, at the size of a shortest script, whatever points beyond the grid V holds. */
  method ShortestEditSequence(a: seq<Line>, b: seq<Line>) returns (trace: seq<seq<int>>, offset: nat)
    requires a != [] || b != []
    ensures offset == |a| + |b|
    ensures IsTrace(a, b, trace, Dist(a, b, |a|, |b|) + 1)
  {
    var M, N := |a|, |b|;
    var V := new int[2 * (N + M) + 1](_ => 0);
    offset := N + M;
    trace := seq(N + M + 1, _ => []);
    ghost var shortest := Dist(a, b, M, N);
    CornerOnDiagonal(a, b);

    var d := 0;
    while d <= N + M
      invariant 0 <= d <= shortest
      invariant d == 0 ==> V[1 + offset] == 0
      invariant FarRow(a, b, d - 1, V[..])
      invariant IsTrace(a, b, trace, d)
    {
      var corner := FillRow(a, b, V, d, shortest);
      TraceSaved(a, b, trace, d, V[..]);
      trace := trace[d := V[..]];
      if corner {
        return;
      }
      d := d + 1;
    }
    assert false;
  }

  /** One deletion or insertion leads from the first point onto the diagonal of the second,
      and equal lines lead from there to the second point. */
  ghost predicate Joins(a: seq<Line>, b: seq<Line>, x0: int, y0: int, x1: int, y1: int) {
    var k := x1 - y1;
    || (k == x0 - y0 + 1 && Snake(a, b, k, x0 + 1, x1))
    || (k == x0 - y0 - 1 && Snake(a, b, k, x0, x1))
  }

  /** The point where walking back stops: on an axis, or at the end of a common prefix. */
  ghost predicate IsFirst(a: seq<Line>, b: seq<Line>, d: int, x: int, y: int) {
    || (x == 0 && y == d)
    || (y == 0 && x == d)
    || (d == 0 && x == y && Snake(a, b, 0, 0, x))
  }

  predicate InGridAt(a: seq<Line>, b: seq<Line>, x: int, y: int) {
    0 <= x <= |a| && 0 <= y <= |b|
  }

  ghost predicate InGrid(a: seq<Line>, b: seq<Line>, point: seq<int>) {
    |point| == 2 && InGridAt(a, b, point[0], point[1])
  }

  ghost predicate Linked(a: seq<Line>, b: seq<Line>, snakes: seq<seq<int>>, i: int) {
    && 0 < i < |snakes| && InGrid(a, b, snakes[i - 1]) && InGrid(a, b, snakes[i])
    && Joins(a, b, snakes[i - 1][0], snakes[i - 1][1], snakes[i][0], snakes[i][1])
  }

  /** Entries first to last are points of the grid, each joined to the next; all others are missing. */
  ghost predicate IsChain(a: seq<Line>, b: seq<Line>, snakes: seq<seq<int>>, first: int, last: int) {
    && 0 <= first && last < |snakes|
    && (forall i :: 0 <= i < |snakes| && !(first <= i <= last) ==> snakes[i] == [])
    && (forall i :: first <= i <= last ==> InGrid(a, b, snakes[i]))
    && (forall i {:trigger Linked(a, b, snakes, i)} :: first < i <= last ==> Linked(a, b, snakes, i))
  }

  /** The points of a script with last edits: a chain from an axis or a common prefix to the far corner. */
  ghost predicate IsSolution(a: seq<Line>, b: seq<Line>, snakes: seq<seq<int>>, first: int, last: int) {
    && first <= last && IsChain(a, b, snakes, first, last)
    && snakes[last] == [|a|, |b|]
    && IsFirst(a, b, first, snakes[first][0], snakes[first][1])
  }

  lemma CornerIsFar(a: seq<Line>, b: seq<Line>, d: nat)
    requires d == Dist(a, b, |a|, |b|)
    ensures Far(a, b, d, |a| - |b|, |a|)
  {
    DistPastCorner(a, b);
  }

  /** The column and diagonal from which the pass entered the diagonal of (x, y) with its d-th edit. */
  function PreviousDiagonal(d: int, k: int, V: seq<int>, offset: int): int
    requires |V| == 2 * offset + 1 && 1 <= d <= offset && -d <= k <= d
  {
    if k == -d || (k != d && V[k - 1 + offset] < V[k + 1 + offset]) then k + 1 else k - 1
  }

  /** The point before an edit lies in the grid and is joined to the furthest point after it. */
  lemma PointBeforeEdit(a: seq<Line>, b: seq<Line>, d: int, k: int, left: int, right: int, x: int)
    requires d >= 1 && OnDiagonal(d, k) && Neighbours(a, b, d, k, left, right)
    requires Far(a, b, d, k, x) && InGridAt(a, b, x, x - k)
    ensures if GoesDown(d, k, left, right)
      then InGridAt(a, b, right, right - k - 1) && Joins(a, b, right, right - k - 1, x, x - k)
      else InGridAt(a, b, left, left - k + 1) && Joins(a, b, left, left - k + 1, x, x - k)
  {
    SnakeMatches(a, b, d, k, left, right, x);
  }

  /** That point is furthest for d - 1 edits, lies in the grid and is joined to (x, y). */
  lemma PreviousPoint(a: seq<Line>, b: seq<Line>, d: int, x: int, y: int, V: seq<int>)
    requires d >= 1 && OnDiagonal(d, x - y) && Far(a, b, d, x - y, x)
    requires InGridAt(a, b, x, y) && FarRow(a, b, d - 1, V)
    requires d <= |a| + |b|
    ensures var k' := PreviousDiagonal(d, x - y, V, |a| + |b|);
      var x' := V[k' + |a| + |b|];
      && OnDiagonal(d - 1, k') && Far(a, b, d - 1, k', x')
      && InGridAt(a, b, x', x' - k') && Joins(a, b, x', x' - k', x, y)
  {
    var left, right := RowNeighbours(a, b, d, x - y, V);
    PointBeforeEdit(a, b, d, x - y, left, right, x);
  }

  /** What the saved row holds on both sides of a diagonal, and which of the two the pass came from. */
  lemma RowNeighbours(a: seq<Line>, b: seq<Line>, d: int, k: int, V: seq<int>) returns (left: int, right: int)
    requires 1 <= d <= |a| + |b| && OnDiagonal(d, k) && FarRow(a, b, d - 1, V)
    ensures Neighbours(a, b, d, k, left, right)
    ensures var k' := PreviousDiagonal(d, k, V, |a| + |b|);
      && OnDiagonal(d - 1, k') && Far(a, b, d - 1, k', V[k' + |a| + |b|])
      && (if GoesDown(d, k, left, right) then k' == k + 1 && V[k' + |a| + |b|] == right
          else k' == k - 1 && V[k' + |a| + |b|] == left)
  {
    var offset := |a| + |b|;
    assert k > -d ==> OnDiagonal(d - 1, k - 1);
    assert k < d ==> OnDiagonal(d - 1, k + 1);
    left := if k > -d then V[k - 1 + offset] else 0;
    right := if k < d then V[k + 1 + offset] else 0;
  }

  /** Walking back has recorded the chain behind (x, y), itself a furthest point for d edits. */
  ghost predicate WalkedBack(a: seq<Line>, b: seq<Line>, snakes: seq<seq<int>>, d: int, x: int, y: int, last: int) {
    && 0 <= d <= last < |snakes| == |a| + |b| + 1
    && InGridAt(a, b, x, y) && OnDiagonal(d, x - y) && Far(a, b, d, x - y, x)
    && IsChain(a, b, snakes, d + 1, last)
    && (if d == last then x == |a| && y == |b|
        else snakes[last] == [|a|, |b|] && Joins(a, b, x, y, snakes[d + 1][0], snakes[d + 1][1]))
  }

  lemma PointRecorded(a: seq<Line>, b: seq<Line>, snakes: seq<seq<int>>, d: int, x: int, y: int, last: int)
    requires WalkedBack(a, b, snakes, d, x, y, last)
    ensures var snakes' := snakes[d := [x, y]];
      IsChain(a, b, snakes', d, last) && snakes'[last] == [|a|, |b|]
  {
    var snakes' := snakes[d := [x, y]];
    forall i | d < i <= last
      ensures Linked(a, b, snakes', i)
    {
      if i > d + 1 {
        assert Linked(a, b, snakes, i);
      }
    }
  }

  lemma SteppedBack(a: seq<Line>, b: seq<Line>, snakes: seq<seq<int>>, d: int, x: int, y: int, last: int, V: seq<int>)
    requires WalkedBack(a, b, snakes, d, x, y, last) && 1 <= d
    requires FarRow(a, b, d - 1, V)
    ensures var k' := PreviousDiagonal(d, x - y, V, |a| + |b|);
      var x' := V[k' + |a| + |b|];
      WalkedBack(a, b, snakes[d := [x, y]], d - 1, x', x' - k', last)
  {
    PointRecorded(a, b, snakes, d, x, y, last);
    PreviousPoint(a, b, d, x, y, V);
  }

  /** One turn of the walk: from the end of the d-th snake to the end of the one before it. */
  method StepBack(a: seq<Line>, b: seq<Line>, V: seq<int>, d: int, x: int, y: int, offset: nat,
      snakes: seq<seq<int>>, ghost last: int) returns (x': int, y': int, snakes': seq<seq<int>>)
    requires offset == |a| + |b| && 1 <= d && FarRow(a, b, d - 1, V)
    requires WalkedBack(a, b, snakes, d, x, y, last)
    ensures WalkedBack(a, b, snakes', d - 1, x', y', last)
  {
    SteppedBack(a, b, snakes, d, x, y, last, V);
    var kPrev := EnteredFrom(V, d, x - y, offset);
    snakes' := snakes[d := [x, y]];
    x' := V[kPrev + offset];
    y' := x' - kPrev;
  }

  method EnteredFrom(V: seq<int>, d: int, k: int, offset: nat) returns (kPrev: int)
    requires |V| == 2 * offset + 1 && 1 <= d <= offset && -d <= k <= d
    ensures kPrev == PreviousDiagonal(d, k, V, offset)
  {
    if k == -d || (k != d && V[k - 1 + offset] < V[k + 1 + offset]) {
      kPrev := k + 1;
    } else {
      kPrev := k - 1;
    }
  }

  ghost predicate Untouched(snakes: seq<seq<int>>) {
    forall i :: 0 <= i < |snakes| ==> snakes[i] == []
  }

  lemma WalkStarts(a: seq<Line>, b: seq<Line>, snakes: seq<seq<int>>, last: nat)
    requires last == Dist(a, b, |a|, |b|)
    requires |snakes| == |a| + |b| + 1 && Untouched(snakes)
    ensures WalkedBack(a, b, snakes, last, |a|, |b|, last)
  {
    CornerIsFar(a, b, last);
    CornerOnDiagonal(a, b);
  }

  /** The walk has not begun before the last edit is reached. */
  ghost predicate Walking(a: seq<Line>, b: seq<Line>, snakes: seq<seq<int>>, d: int, x: int, y: int, last: nat) {
    if d > last then x == |a| && y == |b| && Untouched(snakes) else WalkedBack(a, b, snakes, d, x, y, last)
  }

  lemma EntrySkipped(a: seq<Line>, b: seq<Line>, snakes: seq<seq<int>>, d: int, x: int, y: int, last: nat)
    requires last == Dist(a, b, |a|, |b|) < d && |snakes| == |a| + |b| + 1
    requires Walking(a, b, snakes, d, x, y, last)
    ensures Walking(a, b, snakes, d - 1, x, y, last)
  {
    WalkStarts(a, b, snakes, last);
  }

  /** Skips the entries after the last edit, then walks back until a coordinate or the edits run out. */
  method Backtrack(a: seq<Line>, b: seq<Line>, trace: seq<seq<int>>, x0: nat, y0: nat, offset: nat)
    returns (snakes: seq<seq<int>>, ghost first: int)
    requires x0 == |a| && y0 == |b| && offset == |a| + |b|
    requires IsTrace(a, b, trace, Dist(a, b, |a|, |b|) + 1)
    ensures |snakes| == |trace|
    ensures IsSolution(a, b, snakes, first, Dist(a, b, |a|, |b|))
  {
    ghost var last := Dist(a, b, |a|, |b|);
    snakes := seq(|trace|, _ => []);
    var x: int, y: int := x0, y0;
    var d := |trace| - 1;
    WalkStarts(a, b, snakes, last);
    while x > 0 && y > 0 && d > 0
      invariant 0 <= d < |trace| == |snakes|
      invariant Walking(a, b, snakes, d, x, y, last)
      decreases d
    {
      assert d <= last ==> Saved(a, b, trace, d);
      if |trace[d]| == 0 {
        EntrySkipped(a, b, snakes, d, x, y, last);
        d := d - 1;
        continue;
      }
      x, y, snakes := StepBack(a, b, trace[d], d, x, y, offset, snakes, last);
      d := d - 1;
    }
    first := d;
    if x < 0 || y < 0 {
      assert false;
    }
    WalkEnds(a, b, snakes, d, x, y, last);
    snakes := snakes[d := [x, y]];
  }

  lemma WalkEnds(a: seq<Line>, b: seq<Line>, snakes: seq<seq<int>>, d: int, x: int, y: int, last: int)
    requires WalkedBack(a, b, snakes, d, x, y, last)
    requires x == 0 || y == 0 || d == 0
    ensures IsSolution(a, b, snakes[d := [x, y]], d, last)
  {
    StopsAtFirst(a, b, d, x, y);
    PointRecorded(a, b, snakes, d, x, y, last);
  }

  lemma StopsAtFirst(a: seq<Line>, b: seq<Line>, d: int, x: int, y: int)
    requires Far(a, b, d, x - y, x) && OnDiagonal(d, x - y)
    requires x == 0 || y == 0 || d == 0
    ensures IsFirst(a, b, d, x, y)
  {
    FarOnAxis(a, b, d, x - y, x);
    if d == 0 {
      EqualPrefixes(a, b, x);
    }
  }
}
