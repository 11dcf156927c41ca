/**
 * Board primitives of src/app/wall-baduk/logics.tsx: the occupancy test and the
 * wall-blocking geometry for a one-cell step (orthogonal or diagonal).
 *
 * Walls live on two grids: `right[r][c]` is the edge between (r, c) and (r, c + 1),
 * `down[r][c]` the edge between (r, c) and (r + 1, c); a cell holds the id of the
 * player who placed the wall, or nothing.
 */
module Logics {
  import opened Wrappers
  import opened Values

  type WallGrid = seq<seq<Option<int>>>

  datatype Walls = Walls(right: WallGrid, down: WallGrid)

  predicate GridShaped(g: WallGrid) {
    |g| == MapSize && forall r :: 0 <= r < |g| ==> |g[r]| == MapSize
  }

  predicate WellFormed(walls: Walls) {
    GridShaped(walls.right) && GridShaped(walls.down)
  }

  /** No edge of either grid carries a wall. */
  predicate NoWalls(walls: Walls)
    requires WellFormed(walls)
  {
    forall r, c :: 0 <= r < MapSize && 0 <= c < MapSize ==> walls.right[r][c].None? && walls.down[r][c].None?
  }

  function Abs(x: int): nat {
    if x < 0 then -x else x
  }

  function Min(a: int, b: int): int {
    if a < b then a else b
  }

  /** Is some stone, of either owner, at (r, c)? */
  function CheckStone(r: int, c: int, stones: seq<Stone>): (occupied: bool)
    ensures occupied <==> exists i :: 0 <= i < |stones| && stones[i].Pos() == (r, c)
  {
    if stones == [] then false
    else
      var rest := CheckStone(r, c, stones[1..]);
      assert rest ==> exists i :: 1 <= i < |stones| && stones[i].Pos() == (r, c) by {
        if rest {
          var i :| 0 <= i < |stones[1..]| && stones[1..][i].Pos() == (r, c);
          assert stones[i + 1].Pos() == (r, c);
        }
      }
      stones[0].Pos() == (r, c) || rest
  }

  /** (r1, c1) and (r2, c2) share an edge. */
  predicate OrthAdjacent(r1: int, c1: int, r2: int, c2: int) {
    (r1 == r2 && Abs(c1 - c2) == 1) || (c1 == c2 && Abs(r1 - r2) == 1)
  }

  /** (r1, c1) and (r2, c2) touch only at a corner. */
  predicate DiagAdjacent(r1: int, c1: int, r2: int, c2: int) {
    Abs(r1 - r2) == 1 && Abs(c1 - c2) == 1
  }

  /** The two cells are 8-neighbours. */
  predicate Adjacent8(r1: int, c1: int, r2: int, c2: int) {
    OrthAdjacent(r1, c1, r2, c2) || DiagAdjacent(r1, c1, r2, c2)
  }

  /** Reference reading of the single edge between two orthogonal neighbours. */
  predicate EdgeWalled(walls: Walls, r1: int, c1: int, r2: int, c2: int)
    requires WellFormed(walls)
    requires OrthAdjacent(r1, c1, r2, c2) && InBounds(r1, c1) && InBounds(r2, c2)
  {
    if r1 == r2 then walls.right[r1][Min(c1, c2)].Some?
    else walls.down[Min(r1, r2)][c1].Some?
  }

  /** The route from (fr, fc) through the corner cell (vr, vc) to (tr, tc) crosses a wall. */
  predicate RouteBlocked(walls: Walls, fr: int, fc: int, vr: int, vc: int, tr: int, tc: int)
    requires WellFormed(walls)
    requires InBounds(fr, fc) && InBounds(vr, vc) && InBounds(tr, tc)
    requires OrthAdjacent(fr, fc, vr, vc) && OrthAdjacent(vr, vc, tr, tc)
  {
    EdgeWalled(walls, fr, fc, vr, vc) || EdgeWalled(walls, vr, vc, tr, tc)
  }

  /**
   * Is the one-cell step (fr, fc) -> (tr, tc) blocked by walls?  An orthogonal step
   * reads its one edge; a diagonal step is blocked only when both corner routes are;
   * any other pair is never blocked.
   */
  function CheckWall(fr: int, fc: int, tr: int, tc: int, walls: Walls): (blocked: bool)
    requires WellFormed(walls)
    requires Adjacent8(fr, fc, tr, tc) ==> InBounds(fr, fc) && InBounds(tr, tc)
    ensures OrthAdjacent(fr, fc, tr, tc) ==> (blocked <==> EdgeWalled(walls, fr, fc, tr, tc))
    ensures DiagAdjacent(fr, fc, tr, tc) ==>
      (blocked <==> RouteBlocked(walls, fr, fc, fr, tc, tr, tc) && RouteBlocked(walls, fr, fc, tr, fc, tr, tc))
    ensures !Adjacent8(fr, fc, tr, tc) ==> !blocked
  {
    if fr == tr && Abs(fc - tc) == 1 then
      if fc < tc then walls.right[fr][fc].Some? else walls.right[fr][tc].Some?
    else if fc == tc && Abs(fr - tr) == 1 then
      if fr < tr then walls.down[fr][fc].Some? else walls.down[tr][fc].Some?
    else if Abs(fr - tr) == 1 && Abs(fc - tc) == 1 then
      if fr + 1 == tr && fc + 1 == tc then
        var path1 := walls.right[fr][fc].Some? || walls.down[fr][tc].Some?;
        var path2 := walls.down[fr][fc].Some? || walls.right[tr][fc].Some?;
        path1 && path2
      else if fr - 1 == tr && fc - 1 == tc then
        var path1 := walls.right[tr][tc].Some? || walls.down[tr][fc].Some?;
        var path2 := walls.down[tr][tc].Some? || walls.right[fr][tc].Some?;
        path1 && path2
      else if fr - 1 == tr && fc + 1 == tc then
        var path1 := walls.right[tr][fc].Some? || walls.down[tr][fc].Some?;
        var path2 := walls.down[tr][tc].Some? || walls.right[fr][fc].Some?;
        path1 && path2
      else
        var path1 := walls.right[fr][tc].Some? || walls.down[fr][tc].Some?;
        var path2 := walls.down[fr][fc].Some? || walls.right[tr][tc].Some?;
        path1 && path2
    else
      false
  }

  /** A step is blocked in one direction exactly when it is blocked in the other. */
  lemma CheckWallSymmetric(fr: int, fc: int, tr: int, tc: int, walls: Walls)
    requires WellFormed(walls)
    requires Adjacent8(fr, fc, tr, tc) ==> InBounds(fr, fc) && InBounds(tr, tc)
    ensures CheckWall(fr, fc, tr, tc, walls) == CheckWall(tr, tc, fr, fc, walls)
  {
  }

  /** Without any wall on the board no step is blocked. */
  lemma NoWallsNeverBlock(fr: int, fc: int, tr: int, tc: int, walls: Walls)
    requires WellFormed(walls) && NoWalls(walls)
    requires Adjacent8(fr, fc, tr, tc) ==> InBounds(fr, fc) && InBounds(tr, tc)
    ensures !CheckWall(fr, fc, tr, tc, walls)
  {
  }
}
