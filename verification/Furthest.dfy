/** Furthest-reaching points: what the array V of the forward pass holds. */
module Furthest {
  import opened EditDistance

  /** k is a diagonal that d edits can end on: the parities agree. */
  predicate OnDiagonal(d: int, k: int) {
    -d <= k <= d && (d + k) % 2 == 0
  }

  /** At most d edits lead to column x of diagonal k. */
  ghost predicate Reached(a: seq<Line>, b: seq<Line>, d: int, k: int, x: int) {
    0 <= x && 0 <= x - k && Dist(a, b, x, x - k) <= d
  }

  /** x is the furthest column on diagonal k = x - y that at most d edits reach. */
  ghost predicate Far(a: seq<Line>, b: seq<Line>, d: int, k: int, x: int) {
    && Reached(a, b, d, k, x)
    && d < Dist(a, b, x + 1, x + 1 - k)
  }

  /** Row e of a pass: V holds the furthest column of every diagonal that e edits can end on. */
  ghost predicate FarRow(a: seq<Line>, b: seq<Line>, e: int, V: seq<int>) {
    var offset := |a| + |b|;
    && |V| == 2 * offset + 1
    && e <= offset
    && forall k :: OnDiagonal(e, k) ==> Far(a, b, e, k, V[k + offset])
  }

  /** The part of row d that is filled in when the pass has reached diagonal k. */
  ghost predicate FarBelow(a: seq<Line>, b: seq<Line>, d: int, k: int, V: seq<int>) {
    var offset := |a| + |b|;
    && |V| == 2 * offset + 1
    && d <= offset
    && forall j :: OnDiagonal(d, j) && j < k ==> Far(a, b, d, j, V[j + offset])
  }

  /** Writing diagonal k of row d leaves row d - 1 alone: the two have different parities. */
  lemma RowExtended(a: seq<Line>, b: seq<Line>, d: int, k: int, V: seq<int>, x: int)
    requires FarRow(a, b, d - 1, V) && FarBelow(a, b, d, k, V)
    requires OnDiagonal(d, k) && Far(a, b, d, k, x)
    ensures var V' := V[k + |a| + |b| := x];
      FarRow(a, b, d - 1, V') && FarBelow(a, b, d, k + 2, V')
  {
    var V' := V[k + |a| + |b| := x];
    forall j | OnDiagonal(d, j) && j < k + 2
      ensures Far(a, b, d, j, V'[j + |a| + |b|])
    {
      assert j < k || j == k;
    }
  }

  /** The lines from column x up to column end of diagonal k are pairwise equal. */
  ghost predicate Snake(a: seq<Line>, b: seq<Line>, k: int, start: int, end: int) {
    start <= end && forall x, y :: start <= x < end && y == x - k ==> Matches(a, b, x, y)
  }

  lemma FarIsMax(a: seq<Line>, b: seq<Line>, d: int, k: int, far: int, x: int)
    requires Far(a, b, d, k, far)
    requires Reached(a, b, d, k, x)
    ensures x <= far
  {
    if x > far {
      DistDiagonalMonotone(a, b, far + 1, far + 1 - k, x - far - 1);
    }
  }

  /** A furthest point on a diagonal of the right parity needs exactly d edits. */
  lemma FarIsExact(a: seq<Line>, b: seq<Line>, d: int, k: int, x: int)
    requires Far(a, b, d, k, x) && OnDiagonal(d, k)
    ensures Dist(a, b, x, x - k) == d
  {
    DistParity(a, b, x, x - k);
    DistDiagonal(a, b, x, x - k);
    SameParity(Dist(a, b, x, x - k), d, x, x - k, k);
  }

  lemma SameParity(dist: int, d: int, x: int, y: int, k: int)
    requires (dist + x + y) % 2 == 0 && (d + k) % 2 == 0 && k == x - y
    requires dist <= d < dist + 2
    ensures dist == d
  {
    EvenSum(dist + x + y, d + k, x);
  }

  lemma EvenSum(m: int, n: int, x: int)
    requires m % 2 == 0 && n % 2 == 0
    ensures (m + n - 2 * x) % 2 == 0
  {
  }

  /** Points inside the segment of a diagonal behind a furthest point cost at most d. */
  lemma BehindFar(a: seq<Line>, b: seq<Line>, d: int, k: int, far: int, x: int)
    requires Far(a, b, d, k, far)
    requires 0 <= x <= far && 0 <= x - k
    ensures Reached(a, b, d, k, x)
  {
    DistDiagonalMonotone(a, b, x, x - k, far - x);
  }

  /** Whether the pass enters diagonal k from above, given the columns on its neighbours. */
  predicate GoesDown(d: int, k: int, left: int, right: int) {
    k == -d || (k != d && left < right)
  }

  function Start(d: int, k: int, left: int, right: int): int {
    if GoesDown(d, k, left, right) then right else left + 1
  }

  /** Both neighbouring diagonals hold their furthest points for d - 1 edits. */
  ghost predicate Neighbours(a: seq<Line>, b: seq<Line>, d: int, k: int, left: int, right: int) {
    && (k > -d ==> Far(a, b, d - 1, k - 1, left))
    && (k < d ==> Far(a, b, d - 1, k + 1, right))
  }

  lemma StartReached(a: seq<Line>, b: seq<Line>, d: int, k: int, left: int, right: int)
    requires d >= 1 && OnDiagonal(d, k) && Neighbours(a, b, d, k, left, right)
    ensures Reached(a, b, d, k, Start(d, k, left, right))
  {
    if GoesDown(d, k, left, right) {
      DistNeighbours(a, b, right, right - k - 1);
    } else {
      DistNeighbours(a, b, left, left + 1 - k);
    }
  }

  /** From the start on, the diagonal can only be continued through equal lines. */
  lemma OnlyMatchesContinue(a: seq<Line>, b: seq<Line>, d: int, k: int, left: int, right: int, x: int)
    requires d >= 1 && OnDiagonal(d, k) && Neighbours(a, b, d, k, left, right)
    requires Start(d, k, left, right) <= x && 0 <= x && 0 <= x - k
    requires !Matches(a, b, x, x - k)
    ensures Dist(a, b, x + 1, x + 1 - k) > d
  {
    var y := x - k;
    if Dist(a, b, x, y + 1) <= d - 1 {
      if k > -d {
        FarIsMax(a, b, d - 1, k - 1, left, x);
      } else {
        DistBounds(a, b, x, y + 1);
      }
    }
    if Dist(a, b, x + 1, y) <= d - 1 {
      if k < d {
        FarIsMax(a, b, d - 1, k + 1, right, x + 1);
      } else {
        DistBounds(a, b, x + 1, y);
      }
    }
  }

  lemma OneMoreMatch(a: seq<Line>, b: seq<Line>, d: int, k: int, x: int)
    requires Reached(a, b, d, k, x) && Matches(a, b, x, x - k)
    ensures Reached(a, b, d, k, x + 1)
  {
    DistDiagonal(a, b, x, x - k);
  }

  lemma FurthestReached(a: seq<Line>, b: seq<Line>, d: int, k: int, left: int, right: int, x: int)
    requires d >= 0 && OnDiagonal(d, k)
    requires d > 0 ==> Neighbours(a, b, d, k, left, right) && Start(d, k, left, right) <= x
    requires Reached(a, b, d, k, x) && !Matches(a, b, x, x - k)
    ensures Far(a, b, d, k, x)
  {
    if d > 0 {
      OnlyMatchesContinue(a, b, d, k, left, right, x);
    }
  }

  /** All lines between the start and the furthest point of a diagonal are equal. */
  lemma SnakeMatches(a: seq<Line>, b: seq<Line>, d: int, k: int, left: int, right: int, far: int)
    requires d >= 1 && OnDiagonal(d, k) && Neighbours(a, b, d, k, left, right)
    requires Far(a, b, d, k, far)
    ensures Snake(a, b, k, Start(d, k, left, right), far)
  {
    var start := Start(d, k, left, right);
    StartReached(a, b, d, k, left, right);
    FarIsMax(a, b, d, k, far, start);
    forall x, y | start <= x < far && y == x - k
      ensures Matches(a, b, x, y)
    {
      if !Matches(a, b, x, y) {
        OnlyMatchesContinue(a, b, d, k, left, right, x);
        BehindFar(a, b, d, k, far, x + 1);
      }
    }
  }

  /** With as many edits as the far corner needs, its diagonal ends exactly in the corner. */
  lemma CornerIsHit(a: seq<Line>, b: seq<Line>, d: nat, k: int, x: int)
    requires k == |a| - |b| && d == Dist(a, b, |a|, |b|)
    requires Far(a, b, d, k, x)
    ensures x == |a|
  {
    assert !Reached(a, b, d, k, |a| + 1) by {
      DistPastCorner(a, b);
    }
    assert |a| <= x by {
      FarIsMax(a, b, d, k, x, |a|);
    }
    if x > |a| {
      BehindFar(a, b, d, k, x, |a| + 1);
    }
  }

  /** On the axes the number of edits is the coordinate, so walking back may stop there. */
  lemma FarOnAxis(a: seq<Line>, b: seq<Line>, d: int, k: int, x: int)
    requires Far(a, b, d, k, x) && OnDiagonal(d, k)
    ensures x == 0 ==> x - k == d
    ensures x - k == 0 ==> x == d
  {
    FarIsExact(a, b, d, k, x);
  }

  lemma CornerOnDiagonal(a: seq<Line>, b: seq<Line>)
    ensures Dist(a, b, |a|, |b|) <= |a| + |b|
    ensures OnDiagonal(Dist(a, b, |a|, |b|), |a| - |b|)
  {
    DistOnDiagonal(a, b, |a|, |b|, Dist(a, b, |a|, |b|));
  }

  lemma DistOnDiagonal(a: seq<Line>, b: seq<Line>, x: nat, y: nat, d: nat)
    requires d == Dist(a, b, x, y)
    ensures d <= x + y && OnDiagonal(d, x - y)
  {
    DistBounds(a, b, x, y);
    DistParity(a, b, x, y);
    EvenSum(d + x + y, 0, y);
  }

  lemma {:induction false} EqualPrefixes(a: seq<Line>, b: seq<Line>, n: nat)
    requires Dist(a, b, n, n) == 0
    ensures Snake(a, b, 0, 0, n)
  {
    if n > 0 {
      EqualPrefixes(a, b, n - 1);
    }
  }
}
