/**
 * The component-independent helpers of src/app/wall-baduk/page.tsx: the empty wall
 * grids, the (mostly unused) pairwise move check, the wall slots around a cell and
 * the game-over test.
 */
module Board {
  import opened Wrappers
  import opened Values
  import opened Logics

  /** Both wall grids, MapSize x MapSize, with no wall anywhere. */
  function CreateEmptyWalls(): (walls: Walls)
    ensures WellFormed(walls) && NoWalls(walls)
  {
    Walls(seq(MapSize, _ => seq(MapSize, _ => None)), seq(MapSize, _ => seq(MapSize, _ => None)))
  }

  // ---------------------------------------------------------------------------
  // isValidMove.  Its only caller asks about `from == to`, so only the first
  // branch is ever used; the other branches are kept as written, including a
  // diagonal occupancy rule that differs from the one the move generator uses.
  // ---------------------------------------------------------------------------

  /** The orthogonal distance-2 pair (from, to), in either direction. */
  predicate StraightTwo(from: Cell, to: Cell) {
    (Abs(to.0 - from.0) == 2 && to.1 == from.1) || (to.0 == from.0 && Abs(to.1 - from.1) == 2)
  }

  function IsValidMove(from: Cell, to: Cell, walls: Walls, stones: seq<Stone>): bool
    requires WellFormed(walls) && InBounds(from.0, from.1) && InBounds(to.0, to.1)
  {
    var (fr, fc) := from;
    var (tr, tc) := to;
    if fr == tr && fc == tc then true
    else
      var dx := tr - fr;
      var dy := tc - fc;
      if (Abs(dx) == 1 && dy == 0) || (dx == 0 && Abs(dy) == 1) then
        !CheckWall(fr, fc, tr, tc, walls) && !CheckStone(tr, tc, stones)
      else if (Abs(dx) == 2 && dy == 0) || (dx == 0 && Abs(dy) == 2) then
        var mr := fr + (if dx == 0 then 0 else dx / 2);
        var mc := fc + (if dy == 0 then 0 else dy / 2);
        if CheckStone(mr, mc, stones) || CheckStone(tr, tc, stones) then false
        else !CheckWall(fr, fc, mr, mc, walls) && !CheckWall(mr, mc, tr, tc, walls)
      else if Abs(dx) == 1 && Abs(dy) == 1 then
        if CheckStone(fr, tc, stones) && CheckStone(tr, fc, stones) && CheckStone(tr, tc, stones) then false
        else !CheckWall(fr, fc, tr, tc, walls) && !CheckWall(tr, tc, fr, fc, walls)
      else
        false
  }

  /** Staying put is always valid; nothing but a one-cell step or a straight two-cell step is. */
  lemma ValidMoveShape(from: Cell, to: Cell, walls: Walls, stones: seq<Stone>)
    requires WellFormed(walls) && InBounds(from.0, from.1) && InBounds(to.0, to.1)
    ensures from == to ==> IsValidMove(from, to, walls, stones)
    ensures IsValidMove(from, to, walls, stones) ==> from == to || Adjacent8(from.0, from.1, to.0, to.1) || StraightTwo(from, to)
  {
  }

  /** A one-cell straight step is valid exactly when its edge is open and the target empty. */
  lemma ValidStraightMove(from: Cell, to: Cell, walls: Walls, stones: seq<Stone>)
    requires WellFormed(walls) && InBounds(from.0, from.1) && InBounds(to.0, to.1)
    ensures OrthAdjacent(from.0, from.1, to.0, to.1) ==>
      (IsValidMove(from, to, walls, stones) <==>
        !EdgeWalled(walls, from.0, from.1, to.0, to.1) && !CheckStone(to.0, to.1, stones))
  {
  }

  /**
   * A two-cell straight step along d is valid exactly when the middle cell and the
   * target are empty and no wall stands on either edge it crosses.
   */
  lemma ValidTwoStep(from: Cell, mid: Cell, to: Cell, d: (int, int), walls: Walls, stones: seq<Stone>)
    requires WellFormed(walls) && d in {(0, 1), (1, 0), (0, -1), (-1, 0)}
    requires mid == (from.0 + d.0, from.1 + d.1) && to == (from.0 + d.0 * 2, from.1 + d.1 * 2)
    requires InBounds(from.0, from.1) && InBounds(to.0, to.1)
    ensures InBounds(mid.0, mid.1)
    ensures IsValidMove(from, to, walls, stones) <==>
      !CheckStone(mid.0, mid.1, stones) && !CheckStone(to.0, to.1, stones) &&
      !CheckWall(from.0, from.1, mid.0, mid.1, walls) && !CheckWall(mid.0, mid.1, to.0, to.1, walls)
  {
  }

  /**
   * A diagonal step is valid exactly when at least one of its two corner routes
   * crosses no wall and not all three of the two corner cells and the target are
   * occupied.
   */
  lemma ValidDiagonalMove(from: Cell, to: Cell, walls: Walls, stones: seq<Stone>)
    requires WellFormed(walls) && InBounds(from.0, from.1) && InBounds(to.0, to.1)
    ensures DiagAdjacent(from.0, from.1, to.0, to.1) ==>
      (IsValidMove(from, to, walls, stones) <==>
        !(RouteBlocked(walls, from.0, from.1, from.0, to.1, to.0, to.1) &&
          RouteBlocked(walls, from.0, from.1, to.0, from.1, to.0, to.1)) &&
        !(CheckStone(from.0, to.1, stones) && CheckStone(to.0, from.1, stones) && CheckStone(to.0, to.1, stones)))
  {
    CheckWallSymmetric(from.0, from.1, to.0, to.1, walls);
  }

  // ---------------------------------------------------------------------------
  // Wall slots
  // ---------------------------------------------------------------------------

  datatype Dir = Right | Down

  /** The wall cell `walls[dir][r][c]`. */
  datatype Slot = Slot(r: int, c: int, dir: Dir)

  /** The cell on the far side of a slot's edge from (s.r, s.c). */
  function FarCell(s: Slot): Cell {
    match s.dir
    case Right => (s.r, s.c + 1)
    case Down => (s.r + 1, s.c)
  }

  /** The slot is a real edge between two cells of the board. */
  predicate IsEdge(s: Slot) {
    InBounds(s.r, s.c) && InBounds(FarCell(s).0, FarCell(s).1)
  }

  /** The slot's edge is one of the four sides of cell (r, c). */
  predicate Touches(s: Slot, r: int, c: int) {
    (s.r, s.c) == (r, c) || FarCell(s) == (r, c)
  }

  /** How many board borders the cell lies on. */
  function BorderCount(r: int, c: int): nat {
    (if r == 0 then 1 else 0) + (if r == MapSize - 1 then 1 else 0) +
    (if c == 0 then 1 else 0) + (if c == MapSize - 1 then 1 else 0)
  }

  /** The in-bounds edges around the cell (r, c), whether walled or not. */
  function GetAvailableWalls(r: int, c: int): (slots: seq<Slot>)
    requires InBounds(r, c)
    ensures forall s :: s in slots <==> IsEdge(s) && Touches(s, r, c)
    ensures forall i, j :: 0 <= i < j < |slots| ==> slots[i] != slots[j]
    ensures |slots| == 4 - BorderCount(r, c)
  {
    (if c < MapSize - 1 then [Slot(r, c, Right)] else []) +
    (if c > 0 then [Slot(r, c - 1, Right)] else []) +
    (if r < MapSize - 1 then [Slot(r, c, Down)] else []) +
    (if r > 0 then [Slot(r - 1, c, Down)] else [])
  }

  /** The wall cell a slot names. */
  function WallAt(walls: Walls, s: Slot): Option<int>
    requires WellFormed(walls) && InBounds(s.r, s.c)
  {
    match s.dir
    case Right => walls.right[s.r][s.c]
    case Down => walls.down[s.r][s.c]
  }

  /** The slots among `slots` that carry no wall yet, in order. */
  function FreeOnly(slots: seq<Slot>, walls: Walls): (free: seq<Slot>)
    requires WellFormed(walls) && forall s :: s in slots ==> InBounds(s.r, s.c)
    ensures |free| <= |slots|
    ensures forall s :: s in free <==> s in slots && WallAt(walls, s).None?
  {
    if slots == [] then []
    else
      var rest := FreeOnly(slots[1..], walls);
      if WallAt(walls, slots[0]).None? then [slots[0]] + rest else rest
  }

  /** The eligible wall slots after a stone lands on (r, c). */
  function FreeSlots(r: int, c: int, walls: Walls): (free: seq<Slot>)
    requires WellFormed(walls) && InBounds(r, c)
    ensures forall s :: s in free <==> IsEdge(s) && Touches(s, r, c) && WallAt(walls, s).None?
  {
    FreeOnly(GetAvailableWalls(r, c), walls)
  }

  // ---------------------------------------------------------------------------
  // isGameOver
  // ---------------------------------------------------------------------------

  /** One test of the triple loop: if the pass at (r, c) is valid, stone i sits there. */
  predicate PassOnlyAt(stones: seq<Stone>, walls: Walls, i: int, r: int, c: int)
    requires WellFormed(walls) && 0 <= i < |stones| && InBounds(r, c)
  {
    IsValidMove((r, c), (r, c), walls, stones) ==> stones[i].Pos() == (r, c)
  }

  /** What isGameOver computes: every test of its triple loop passes. */
  predicate GameOverAsWritten(stones: seq<Stone>, walls: Walls)
    requires WellFormed(walls)
  {
    forall i, r, c :: 0 <= i < |stones| && 0 <= r < MapSize && 0 <= c < MapSize ==> PassOnlyAt(stones, walls, i, r, c)
  }

  method IsGameOver(stones: seq<Stone>, walls: Walls) returns (over: bool)
    requires WellFormed(walls)
    ensures over == GameOverAsWritten(stones, walls)
  {
    for i := 0 to |stones|
      invariant forall i', r', c' :: 0 <= i' < i && InBounds(r', c') ==> PassOnlyAt(stones, walls, i', r', c')
    {
      for r := 0 to MapSize
        invariant forall i', r', c' :: 0 <= i' < i && InBounds(r', c') ==> PassOnlyAt(stones, walls, i', r', c')
        invariant forall r', c' :: 0 <= r' < r && 0 <= c' < MapSize ==> PassOnlyAt(stones, walls, i, r', c')
      {
        for c := 0 to MapSize
          invariant forall i', r', c' :: 0 <= i' < i && InBounds(r', c') ==> PassOnlyAt(stones, walls, i', r', c')
          invariant forall r', c' :: 0 <= r' < r && 0 <= c' < MapSize ==> PassOnlyAt(stones, walls, i, r', c')
          invariant forall c' :: 0 <= c' < c ==> PassOnlyAt(stones, walls, i, r, c')
        {
          if IsValidMove((r, c), (r, c), walls, stones) {
            if !(stones[i].row == r && stones[i].col == c) {
              assert !PassOnlyAt(stones, walls, i, r, c);
              return false;
            }
          }
        }
      }
    }
    return true;
  }

  /**
   * Because isGameOver only ever asks isValidMove about a stay-in-place move, which
   * is always valid, it reports the game over exactly when there are no stones.
   */
  lemma GameOverOnlyWithoutStones(stones: seq<Stone>, walls: Walls)
    requires WellFormed(walls)
    ensures GameOverAsWritten(stones, walls) <==> |stones| == 0
  {
    if |stones| > 0 {
      // a cell other than the first stone's, where the pass is valid all the same
      var q := if stones[0].Pos() == (0, 0) then (0, 1) else (0, 0);
      assert !PassOnlyAt(stones, walls, 0, q.0, q.1);
    }
  }
}
