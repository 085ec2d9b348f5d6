/**
 * Steps 3 and 4 of the per-organism update (src/App.js:186-225): the scan
 * for the nearest FOOD cell on the organism's own terrain, and the one-cell
 * move toward it. Distances are compared as integer squared distances, which
 * order cells exactly as `Math.sqrt` of them does.
 */
module Targeting {
  import opened Wrappers
  import opened Ecosystem

  function SqDist(o: Organism, i: int, j: int): nat {
    (i - o.x) * (i - o.x) + (j - o.y) * (j - o.y)
  }

  /** Cell (i, j) holds food on the organism's habitat terrain. */
  ghost predicate IsCandidate(g: Grid, t: TerrainMap, n: nat, o: Organism, i: int, j: int)
    requires IsSquare(g, n) && IsSquare(t, n)
  {
    InGrid(n, i, j) && g[i][j] == Food && t[i][j] == o.habitat
  }

  /** (a, b) comes before (i, j) in row-major order. */
  predicate Before(a: int, b: int, i: int, j: int) {
    a < i || (a == i && b < j)
  }

  /**
   * What the scan holds after visiting every cell before (i, j) in row-major
   * order: the first candidate cell of least distance so far (a later cell
   * replaces it only at a strictly smaller distance), or None.
   */
  function Scan(g: Grid, t: TerrainMap, n: nat, o: Organism, i: nat, j: nat): Option<Pos>
    requires IsSquare(g, n) && IsSquare(t, n)
    requires (i < n && j <= n) || (i == n && j == 0)
    decreases i, j
  {
    if j == 0 then
      if i == 0 then None else Scan(g, t, n, o, i - 1, n)
    else
      var best := Scan(g, t, n, o, i, j - 1);
      if g[i][j - 1] == Food && t[i][j - 1] == o.habitat &&
         (best.None? || SqDist(o, i, j - 1) < SqDist(o, best.value.x, best.value.y))
      then Some(Pos(i, j - 1))
      else best
  }

  /** The target of the full scan. */
  function NearestFood(g: Grid, t: TerrainMap, n: nat, o: Organism): Option<Pos>
    requires IsSquare(g, n) && IsSquare(t, n)
  {
    Scan(g, t, n, o, n, 0)
  }

  ghost predicate NoCandidateBefore(g: Grid, t: TerrainMap, n: nat, o: Organism, i: int, j: int)
    requires IsSquare(g, n) && IsSquare(t, n)
  {
    forall a, b :: Before(a, b, i, j) ==> !IsCandidate(g, t, n, o, a, b)
  }

  /**
   * `p` is a candidate before (i, j), no candidate before (i, j) is nearer,
   * and every candidate before `p` is strictly farther (ties go to the first).
   */
  ghost predicate FirstNearestBefore(g: Grid, t: TerrainMap, n: nat, o: Organism, p: Pos, i: int, j: int)
    requires IsSquare(g, n) && IsSquare(t, n)
  {
    && IsCandidate(g, t, n, o, p.x, p.y)
    && Before(p.x, p.y, i, j)
    && (forall a, b :: Before(a, b, i, j) && IsCandidate(g, t, n, o, a, b) ==> SqDist(o, p.x, p.y) <= SqDist(o, a, b))
    && (forall a, b :: Before(a, b, p.x, p.y) && IsCandidate(g, t, n, o, a, b) ==> SqDist(o, p.x, p.y) < SqDist(o, a, b))
  }

  lemma {:induction false} ScanSpec(g: Grid, t: TerrainMap, n: nat, o: Organism, i: nat, j: nat)
    requires IsSquare(g, n) && IsSquare(t, n)
    requires (i < n && j <= n) || (i == n && j == 0)
    ensures Scan(g, t, n, o, i, j).None? <==> NoCandidateBefore(g, t, n, o, i, j)
    ensures Scan(g, t, n, o, i, j).Some? ==> FirstNearestBefore(g, t, n, o, Scan(g, t, n, o, i, j).value, i, j)
    decreases i, j
  {
    if j == 0 {
      if i > 0 {
        ScanSpec(g, t, n, o, i - 1, n);
        assert forall a, b :: Before(a, b, i, 0) && InGrid(n, a, b) ==> Before(a, b, i - 1, n);
      } else {
        assert forall a, b :: !Before(a, b, 0, 0) || !InGrid(n, a, b);
      }
    } else {
      ScanSpec(g, t, n, o, i, j - 1);
      var best := Scan(g, t, n, o, i, j - 1);
      var here := IsCandidate(g, t, n, o, i, j - 1);
      assert forall a, b :: Before(a, b, i, j) <==> Before(a, b, i, j - 1) || (a == i && b == j - 1);
      if best.None? {
        if here {
          assert !NoCandidateBefore(g, t, n, o, i, j);
        } else {
          assert NoCandidateBefore(g, t, n, o, i, j);
        }
      } else {
        assert !NoCandidateBefore(g, t, n, o, i, j) by {
          assert IsCandidate(g, t, n, o, best.value.x, best.value.y);
        }
      }
    }
  }

  /**
   * The full scan's target: None exactly when no FOOD cell lies on the
   * organism's terrain; otherwise such a cell at least distance, and the
   * first one in row-major order among those at that distance.
   */
  lemma NearestFoodSpec(g: Grid, t: TerrainMap, n: nat, o: Organism)
    requires IsSquare(g, n) && IsSquare(t, n)
    ensures NearestFood(g, t, n, o).None? <==>
      (forall a, b :: 0 <= a < n && 0 <= b < n ==> !(g[a][b] == Food && t[a][b] == o.habitat))
    ensures NearestFood(g, t, n, o).Some? ==>
      var p := NearestFood(g, t, n, o).value;
      && InGrid(n, p.x, p.y) && g[p.x][p.y] == Food && t[p.x][p.y] == o.habitat
      && (forall a, b :: IsCandidate(g, t, n, o, a, b) ==> SqDist(o, p.x, p.y) <= SqDist(o, a, b))
      && (forall a, b :: Before(a, b, p.x, p.y) && IsCandidate(g, t, n, o, a, b) ==> SqDist(o, p.x, p.y) < SqDist(o, a, b))
  {
    ScanSpec(g, t, n, o, n, 0);
    assert forall a, b :: InGrid(n, a, b) ==> Before(a, b, n, 0);
    assert forall a, b :: 0 <= a < n && 0 <= b < n ==>
      ((g[a][b] == Food && t[a][b] == o.habitat) <==> IsCandidate(g, t, n, o, a, b));
  }

  /** The nested scan of src/App.js:187-200, with `minDist` kept alongside the target. */
  method FindTarget(g: Grid, t: TerrainMap, n: nat, o: Organism) returns (targetFoodPos: Option<Pos>)
    requires IsSquare(g, n) && IsSquare(t, n)
    ensures targetFoodPos == NearestFood(g, t, n, o)
  {
    var minDist: Option<nat> := None;  // None stands for Infinity
    targetFoodPos := None;
    var i := 0;
    while i < n
      invariant 0 <= i <= n
      invariant targetFoodPos == Scan(g, t, n, o, i, 0)
      invariant minDist == if targetFoodPos.Some? then Some(SqDist(o, targetFoodPos.value.x, targetFoodPos.value.y)) else None
    {
      var j := 0;
      while j < n
        invariant 0 <= j <= n
        invariant targetFoodPos == Scan(g, t, n, o, i, j)
        invariant minDist == if targetFoodPos.Some? then Some(SqDist(o, targetFoodPos.value.x, targetFoodPos.value.y)) else None
      {
        if g[i][j] == Food && t[i][j] == o.habitat {
          var dist := SqDist(o, i, j);
          if minDist.None? || dist < minDist.value {
            minDist := Some(dist);
            targetFoodPos := Some(Pos(i, j));
          }
        }
        j := j + 1;
      }
      i := i + 1;
    }
  }

  /** `Math.sign` on integers. */
  function Sign(d: int): int {
    if d > 0 then 1 else if d < 0 then -1 else 0
  }

  /**
   * The cell an organism ends its move on: one step toward the target in
   * each axis (`(pos + sign + gridSize) % gridSize`), taken only if the
   * destination's terrain is the organism's habitat; no target, or a refused
   * step, leaves it where it is.
   */
  function Move(o: Organism, target: Option<Pos>, t: TerrainMap, n: nat): Pos
    requires n >= 1 && IsSquare(t, n) && InGrid(n, o.x, o.y)
  {
    var fx := if target.Some? then target.value.x else o.x;
    var fy := if target.Some? then target.value.y else o.y;
    var dx := Sign(fx - o.x);
    var dy := Sign(fy - o.y);
    // both left operands are non-negative, so JavaScript's `%` agrees with Dafny's here
    var newX := (o.x + dx + n) % n;
    var newY := (o.y + dy + n) % n;
    if (dx != 0 || dy != 0) && t[newX][newY] == o.habitat then Pos(newX, newY) else Pos(o.x, o.y)
  }

  /** One axis of a step toward a target: the squared gap never grows, and shrinks when the step is not zero. */
  lemma StepCloser(a: int, target: int)
    ensures var d := Sign(target - a);
      && (target - (a + d)) * (target - (a + d)) <= (target - a) * (target - a)
      && (d != 0 ==> (target - (a + d)) * (target - (a + d)) < (target - a) * (target - a))
  {
    var gap := target - a;
    if gap > 0 {
      assert (gap - 1) * (gap - 1) == gap * gap - 2 * gap + 1;
    } else if gap < 0 {
      assert (gap + 1) * (gap + 1) == gap * gap + 2 * gap + 1;
    }
  }

  /** Toward an in-grid target the wrapped coordinate is the plain sum: the modulo never crosses an edge. */
  lemma NoWrapTowardTarget(a: int, target: int, n: nat)
    requires 0 <= a < n && 0 <= target < n
    ensures 0 <= a + Sign(target - a) < n
    ensures (a + Sign(target - a) + n) % n == a + Sign(target - a)
  {
    var b := a + Sign(target - a);
    assert b + n == n + b;
    assert 0 <= b < n;
  }

  /**
   * Movement: the organism ends inside the grid, either where it was or on
   * a cell of its habitat; toward an in-grid target every coordinate moves by
   * exactly the sign of its delta (the modulo never wraps around an edge),
   * and a move that happens brings the organism strictly closer to the target.
   */
  lemma MoveSpec(o: Organism, target: Option<Pos>, t: TerrainMap, n: nat)
    requires n >= 1 && IsSquare(t, n) && InGrid(n, o.x, o.y)
    requires target.Some? ==> InGrid(n, target.value.x, target.value.y)
    ensures var p := Move(o, target, t, n);
      && InGrid(n, p.x, p.y)
      && (p == Pos(o.x, o.y) || t[p.x][p.y] == o.habitat)
      && (target.None? ==> p == Pos(o.x, o.y))
      && (target.Some? ==>
            var q := Pos(o.x + Sign(target.value.x - o.x), o.y + Sign(target.value.y - o.y));
            && InGrid(n, q.x, q.y)
            && (p == (if q != Pos(o.x, o.y) && t[q.x][q.y] == o.habitat then q else Pos(o.x, o.y)))
            && (p != Pos(o.x, o.y) ==>
                  SqDist(o.(x := p.x, y := p.y), target.value.x, target.value.y)
                  < SqDist(o, target.value.x, target.value.y)))
  {
    if target.Some? {
      var tx, ty := target.value.x, target.value.y;
      NoWrapTowardTarget(o.x, tx, n);
      NoWrapTowardTarget(o.y, ty, n);
      StepCloser(o.x, tx);
      StepCloser(o.y, ty);
    } else {
      assert Sign(o.x - o.x) == 0 && Sign(o.y - o.y) == 0;
    }
  }
}
