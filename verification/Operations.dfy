/** Line operations: internal/lsp/diff.go from the snakes of a shortest script to deletions and insertions. */
module Operations {
  import opened EditDistance
  import opened Furthest
  import opened Myers

  datatype OpKind = Delete | Insert | Equal

  /** Lines i1 to i2 of a are deleted, or content, the lines of b from j1 on, is inserted before line i1. */
  datatype Operation = Operation(content: seq<Line>, kind: OpKind, i1: nat, i2: nat, j1: nat)

  /** Non-empty deletions and insertions, in order, not overlapping, within the first n lines. */
  ghost predicate WellPlaced(ops: seq<Operation>, n: nat) {
    ops == [] ||
    var op := ops[|ops| - 1];
    && op.i2 <= n
    && (op.kind.Delete? || op.kind.Insert?)
    && (op.kind.Delete? ==> op.i1 < op.i2)
    && (op.kind.Insert? ==> op.i1 == op.i2 && op.content != [])
    && WellPlaced(ops[..|ops| - 1], op.i1)
  }

  /** What the operations make of the lines a. */
  ghost function Rewrite(ops: seq<Operation>, a: seq<Line>): seq<Line>
    requires WellPlaced(ops, |a|)
    decreases |ops|
  {
    if ops == [] then a
    else
      var op := ops[|ops| - 1];
      Rewrite(ops[..|ops| - 1], a[..op.i1]) + (if op.kind.Insert? then op.content else []) + a[op.i2..]
  }

  /** Lines deleted plus lines inserted. */
  ghost function LineCount(ops: seq<Operation>): nat {
    if ops == [] then 0
    else
      var op := ops[|ops| - 1];
      LineCount(ops[..|ops| - 1]) +
      if op.kind.Insert? then |op.content| else if op.i1 <= op.i2 then op.i2 - op.i1 else 0
  }

  /** The operations turn the first x lines of a into the first y lines of b, touching c lines. */
  ghost predicate Built(a: seq<Line>, b: seq<Line>, ops: seq<Operation>, x: int, y: int, c: int) {
    && 0 <= x <= |a| && 0 <= y <= |b|
    && WellPlaced(ops, x) && Rewrite(ops, a[..x]) == b[..y] && LineCount(ops) == c
  }

  lemma {:induction false} RewriteKeepsTail(ops: seq<Operation>, a: seq<Line>, line: Line)
    requires WellPlaced(ops, |a|)
    ensures WellPlaced(ops, |a| + 1) && Rewrite(ops, a + [line]) == Rewrite(ops, a) + [line]
  {
    if ops != [] {
      var op := ops[|ops| - 1];
      assert (a + [line])[..op.i1] == a[..op.i1];
      assert (a + [line])[op.i2..] == a[op.i2..] + [line];
    }
  }

  lemma BuiltEqual(a: seq<Line>, b: seq<Line>, ops: seq<Operation>, x: int, y: int, c: int)
    requires Built(a, b, ops, x, y, c) && Matches(a, b, x, y)
    ensures Built(a, b, ops, x + 1, y + 1, c)
  {
    RewriteKeepsTail(ops, a[..x], a[x]);
    assert a[..x + 1] == a[..x] + [a[x]] && b[..y + 1] == b[..y] + [b[y]];
  }

  lemma BuiltDelete(a: seq<Line>, b: seq<Line>, ops: seq<Operation>, x: int, y: int, c: int, x': int)
    requires Built(a, b, ops, x, y, c) && x < x' <= |a|
    ensures Built(a, b, ops + [Operation([], Delete, x, x', y)], x', y, c + x' - x)
  {
    var ops' := ops + [Operation([], Delete, x, x', y)];
    assert ops'[..|ops|] == ops;
    assert a[..x'][..x] == a[..x] && a[..x'][x'..] == [];
  }

  lemma BuiltInsert(a: seq<Line>, b: seq<Line>, ops: seq<Operation>, x: int, y: int, c: int, y': int)
    requires Built(a, b, ops, x, y, c) && y < y' <= |b|
    ensures Built(a, b, ops + [Operation(b[y..y'], Insert, x, x, y)], x, y', c + y' - y)
  {
    var ops' := ops + [Operation(b[y..y'], Insert, x, x, y)];
    assert ops'[..|ops|] == ops;
    assert a[..x][..x] == a[..x] && a[..x][x..] == [];
    assert b[..y'] == b[..y] + b[y..y'];
  }

  lemma {:induction false} EveryOperationCounts(ops: seq<Operation>, n: nat)
    requires WellPlaced(ops, n)
    ensures |ops| <= LineCount(ops)
    decreases |ops|
  {
    if ops != [] {
      EveryOperationCounts(ops[..|ops| - 1], ops[|ops| - 1].i1);
    }
  }

  /** From (x, y): first deletions or insertions only, one line per diagonal, then equal lines. */
  ghost predicate IsMove(a: seq<Line>, b: seq<Line>, x: int, y: int, x': int, y': int, cost: int) {
    var k, k' := x - y, x' - y';
    && 0 <= x <= |a| && 0 <= y <= |b| && 0 <= x' <= |a| && 0 <= y' <= |b|
    && cost == (if k < k' then k' - k else k - k')
    && Snake(a, b, k', if k < k' then x + k' - k else x, x')
  }

  /** Where the construction stands before snake s: at the end of the one before, or still at the origin. */
  ghost predicate StandsBefore(snakes: seq<seq<int>>, first: int, s: int, x: int, y: int) {
    0 <= first && 0 <= s <= |snakes| && if s > first then [x, y] == snakes[s - 1] else x == 0 && y == 0
  }

  lemma NextMove(a: seq<Line>, b: seq<Line>, snakes: seq<seq<int>>, first: int, last: int, s: int, x: int, y: int)
    requires IsSolution(a, b, snakes, first, last) && s <= last
    requires StandsBefore(snakes, first, s, x, y)
    ensures s < first ==> snakes[s] == []
    ensures s >= first ==>
      && |snakes[s]| == 2
      && IsMove(a, b, x, y, snakes[s][0], snakes[s][1], if s > first then 1 else first)
      && (snakes[s] == [|a|, |b|] <==> s == last)
  {
    if s >= first {
      assert InGrid(a, b, snakes[s]);
      assert s > first ==> Linked(a, b, snakes, s);
      assert s < last ==> Linked(a, b, snakes, s + 1);
    }
  }

  /** Follows one snake from (x, y), appending at most one deletion and one insertion to solution. */
  method FollowSnake(a: seq<Line>, b: seq<Line>, snake: seq<int>, solution: array<Operation>, i0: nat,
      x0: int, y0: int, ghost c: int, ghost cost: int) returns (i: nat, x: int, y: int)
    requires |snake| == 2 && IsMove(a, b, x0, y0, snake[0], snake[1], cost)
    requires i0 <= solution.Length && Built(a, b, solution[..i0], x0, y0, c)
    requires c + cost <= solution.Length
    modifies solution
    ensures i <= solution.Length && x == snake[0] && y == snake[1]
    ensures Built(a, b, solution[..i], x, y, c + cost)
  {
    i, x, y := i0, x0, y0;
    ghost var ops := solution[..i];
    ghost var k := snake[0] - snake[1];
    EveryOperationCounts(ops, x);

    while snake[0] - snake[1] > x - y
      invariant x0 <= x && (x > x0 ==> x - y0 <= k)
      invariant x < |a| || x - y0 >= k
      decreases k - x + y
    {
      x := x + 1;
      if x == |a| {
        break;
      }
    }
    if x > x0 {
      BuiltDelete(a, b, ops, x0, y0, c, x);
      i := AddOperation(solution, i, Operation([], Delete, x0, x, y), ops);
      ops := ops + [Operation([], Delete, x0, x, y0)];
    }

    while snake[0] - snake[1] < x - y
      invariant y0 <= y && (y > y0 ==> x - y >= k)
      decreases x - y - k
    {
      y := y + 1;
    }
    if y > y0 {
      BuiltInsert(a, b, ops, x, y0, c, y);
      i := AddOperation(solution, i, Operation(b[y0..y], Insert, x, x, y0), ops);
      ops := ops + [Operation(b[y0..y], Insert, x, x, y0)];
    }

    x, y := FollowDiagonal(a, b, snake, x, y, ops, c + cost);
  }

  method AddOperation(solution: array<Operation>, i: nat, op: Operation, ghost ops: seq<Operation>) returns (i': nat)
    requires i < solution.Length && solution[..i] == ops
    modifies solution
    ensures i' == i + 1 && solution[..i'] == ops + [op]
  {
    solution[i] := op;
    i' := i + 1;
  }

  method FollowDiagonal(a: seq<Line>, b: seq<Line>, snake: seq<int>, x0: int, y0: int,
      ghost ops: seq<Operation>, ghost c: int) returns (x: int, y: int)
    requires |snake| == 2 && InGrid(a, b, snake) && x0 - y0 == snake[0] - snake[1]
    requires Snake(a, b, x0 - y0, x0, snake[0])
    requires Built(a, b, ops, x0, y0, c)
    ensures x == snake[0] && y == snake[1] && Built(a, b, ops, x, y, c)
  {
    x, y := x0, y0;
    while x < snake[0]
      invariant x0 <= x <= snake[0] && x - y == x0 - y0
      invariant Built(a, b, ops, x, y, c)
    {
      BuiltEqual(a, b, ops, x, y, c);
      x := x + 1;
      y := y + 1;
    }
  }

  /** Collects the operations of all snakes. */
  method CollectOperations(a: seq<Line>, b: seq<Line>, snakes: seq<seq<int>>, ghost first: int, ghost last: int)
    returns (ops: seq<Operation>)
    requires last <= |a| + |b| && IsSolution(a, b, snakes, first, last)
    ensures Built(a, b, ops, |a|, |b|, last)
  {
    var M, N := |a|, |b|;
    var i: nat := 0;
    var solution := new Operation[|a| + |b|](_ => Operation([], Delete, 0, 0, 0));
    var x, y := 0, 0;
    var s := 0;
    assert a[..0] == b[..0] == [];
    while s < |snakes|
      invariant 0 <= s <= last && i <= solution.Length
      invariant StandsBefore(snakes, first, s, x, y)
      invariant Built(a, b, solution[..i], x, y, if s > first then s - 1 else 0)
      decreases |snakes| - s
    {
      NextMove(a, b, snakes, first, last, s, x, y);
      var snake := snakes[s];
      if |snake| < 2 {
        s := s + 1;
        continue;
      }
      ghost var done := if s > first then s - 1 else 0;
      i, x, y := FollowSnake(a, b, snake, solution, i, x, y, done, s - done);
      if x >= M && y >= N {
        break;
      }
      s := s + 1;
    }
    ops := solution[..i];
  }

  /** The operations rewrite a to b and touch as few lines as any edit script must. */
  method LineOperations(a: seq<Line>, b: seq<Line>) returns (ops: seq<Operation>)
    ensures WellPlaced(ops, |a|) && Rewrite(ops, a) == b
    ensures Shortest(a, b, LineCount(ops))
  {
    DistIsShortest(a, b);
    if |a| == 0 && |b| == 0 {
      return [];
    }
    CornerOnDiagonal(a, b);
    var trace, offset := ShortestEditSequence(a, b);
    var snakes, first := Backtrack(a, b, trace, |a|, |b|, offset);
    ops := CollectOperations(a, b, snakes, first, Dist(a, b, |a|, |b|));
    assert a[..|a|] == a && b[..|b|] == b;
  }
}
