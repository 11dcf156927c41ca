/**
 * The move generator of src/app/wall-baduk/page.tsx set against the pairwise check
 * `isValidMove` defined in the same file, and the generator on two concrete boards.
 */
module MoveRules {
  import opened Wrappers
  import opened Values
  import opened Logics
  import opened Board
  import opened Moves

  // ---------------------------------------------------------------------------
  // The generator against the pairwise check
  // ---------------------------------------------------------------------------

  /** Every cell the generator offers also passes isValidMove's pairwise check. */
  lemma GeneratedMovesAreValid(stones: seq<Stone>, walls: Walls, sr: int, sc: int)
    requires WellFormed(walls) && InBounds(sr, sc)
    ensures forall p :: p in AvailableMoves(stones, walls, sr, sc) ==>
      InBounds(p.0, p.1) && IsValidMove((sr, sc), p, walls, stones)
  {
    StraightMovesMembers(stones, walls, sr, sc, |StraightDirs|);
    DiagMovesMembers(stones, walls, sr, sc, |DiagDirs|);
    forall p | p in AvailableMoves(stones, walls, sr, sc)
      ensures InBounds(p.0, p.1) && IsValidMove((sr, sc), p, walls, stones)
    {
      if p == (sr, sc) {
        ValidMoveShape((sr, sc), p, walls, stones);
      } else if p in StraightMoves(stones, walls, sr, sc, |StraightDirs|) {
        var j :| 0 <= j < |StraightDirs| && p in StraightRun(stones, walls, sr, sc, StraightDirs[j]);
        StraightStepValid(stones, walls, sr, sc, StraightDirs[j], p);
      } else {
        assert p in DiagMoves(stones, walls, sr, sc, |DiagDirs|);
        var j :| 0 <= j < |DiagDirs| && p == Along(sr, sc, DiagDirs[j], 1) && DiagOk(stones, walls, sr, sc, DiagDirs[j]);
        DiagStepValid(stones, walls, sr, sc, DiagDirs[j]);
      }
    }
  }

  lemma DiagStepValid(stones: seq<Stone>, walls: Walls, sr: int, sc: int, d: (int, int))
    requires WellFormed(walls) && InBounds(sr, sc) && d in DiagDirs
    requires DiagOk(stones, walls, sr, sc, d)
    ensures var p := Along(sr, sc, d, 1);
      InBounds(p.0, p.1) && IsValidMove((sr, sc), p, walls, stones)
  {
    ValidDiagonalMove((sr, sc), Along(sr, sc, d, 1), walls, stones);
  }

  lemma StraightStepValid(stones: seq<Stone>, walls: Walls, sr: int, sc: int, d: (int, int), p: Cell)
    requires WellFormed(walls) && InBounds(sr, sc) && d in StraightDirs
    requires p in StraightRun(stones, walls, sr, sc, d)
    ensures InBounds(p.0, p.1) && IsValidMove((sr, sc), p, walls, stones)
  {
    StraightRunMembers(stones, walls, sr, sc, d);
    if p == Along(sr, sc, d, 1) {
      OneStepValid(stones, walls, sr, sc, d);
    } else {
      TwoStepValid(stones, walls, sr, sc, d);
    }
  }

  lemma OneStepValid(stones: seq<Stone>, walls: Walls, sr: int, sc: int, d: (int, int))
    requires WellFormed(walls) && InBounds(sr, sc) && d in StraightDirs
    requires StraightOk(stones, walls, sr, sc, d, 1)
    ensures var p := Along(sr, sc, d, 1);
      InBounds(p.0, p.1) && IsValidMove((sr, sc), p, walls, stones)
  {
    ValidStraightMove((sr, sc), Along(sr, sc, d, 1), walls, stones);
  }

  lemma TwoStepValid(stones: seq<Stone>, walls: Walls, sr: int, sc: int, d: (int, int))
    requires WellFormed(walls) && InBounds(sr, sc) && d in StraightDirs
    requires StraightOk(stones, walls, sr, sc, d, 1) && StraightOk(stones, walls, sr, sc, d, 2)
    ensures var p := Along(sr, sc, d, 2);
      InBounds(p.0, p.1) && IsValidMove((sr, sc), p, walls, stones)
  {
    TwoStepOpen(stones, walls, sr, sc, d);
    ValidTwoStep((sr, sc), Along(sr, sc, d, 1), Along(sr, sc, d, 2), d, walls, stones);
  }

  /** An allowed two-cell straight move crosses two open edges onto two empty cells. */
  lemma TwoStepOpen(stones: seq<Stone>, walls: Walls, sr: int, sc: int, d: (int, int))
    requires WellFormed(walls) && InBounds(sr, sc) && d in StraightDirs
    requires StraightOk(stones, walls, sr, sc, d, 2)
    ensures var mid := Along(sr, sc, d, 1);
      var to := Along(sr, sc, d, 2);
      InBounds(mid.0, mid.1) && InBounds(to.0, to.1) &&
      !CheckStone(mid.0, mid.1, stones) && !CheckStone(to.0, to.1, stones) &&
      !CheckWall(sr, sc, mid.0, mid.1, walls) && !CheckWall(mid.0, mid.1, to.0, to.1, walls)
  {
    AlongInBounds(sr, sc, d, 1, 2);
    var mid, to := Along(sr, sc, d, 1), Along(sr, sc, d, 2);
    assert Along(sr, sc, d, 0) == (sr, sc);
    assert !CheckWall(sr, sc, mid.0, mid.1, walls) && !CheckStone(mid.0, mid.1, stones) by {
      assert !StepBlocked(stones, walls, sr, sc, d, 1, 2);
    }
    assert !CheckWall(mid.0, mid.1, to.0, to.1, walls) by {
      assert !StepBlocked(stones, walls, sr, sc, d, 2, 2);
    }
  }

  /**
   * The converse fails: isValidMove refuses a diagonal only when both corner cells
   * and the target are all occupied, while the generator refuses it when any one is.
   */
  lemma DiagonalRulesDisagree(stones: seq<Stone>, walls: Walls)
    requires WellFormed(walls) && NoWalls(walls)
    requires CheckStone(3, 4, stones) && !CheckStone(4, 3, stones) && !CheckStone(4, 4, stones)
    ensures IsValidMove((3, 3), (4, 4), walls, stones) && (4, 4) !in AvailableMoves(stones, walls, 3, 3)
  {
    NoWallsNeverBlock(3, 3, 4, 4, walls);
    ValidDiagonalMove((3, 3), (4, 4), walls, stones);
    DiagMembership(stones, walls, 3, 3, (1, 1));
  }

  // ---------------------------------------------------------------------------
  // Two positions
  // ---------------------------------------------------------------------------

  /** On a wall-free board where only the moving stone stands, (3, 3) may step diagonally to (4, 4). */
  lemma DiagonalOnOpenBoard(stones: seq<Stone>, walls: Walls)
    requires WellFormed(walls) && NoWalls(walls)
    requires forall i :: 0 <= i < |stones| ==> stones[i].Pos() == (3, 3)
    ensures (4, 4) in AvailableMoves(stones, walls, 3, 3)
  {
    NoWallsNeverBlock(3, 3, 4, 4, walls);
    DiagMembership(stones, walls, 3, 3, (1, 1));
  }

  /** A wall to the right of (2, 2) stops the stone there from moving to (2, 3), or past it. */
  lemma RightWallStopsStep(stones: seq<Stone>, walls: Walls)
    requires WellFormed(walls) && walls.right[2][2].Some?
    ensures (2, 3) !in AvailableMoves(stones, walls, 2, 2) && (2, 4) !in AvailableMoves(stones, walls, 2, 2)
  {
    StraightMembership(stones, walls, 2, 2, (0, 1), 1);
    StraightMembership(stones, walls, 2, 2, (0, 1), 2);
  }
}
