/**
 * The turn structure of the wall-baduk page component (src/app/wall-baduk/page.tsx):
 * the state the component keeps, its event handlers as transitions on that state,
 * the clicks the board lets through, and the invariant every reachable state keeps.
 */
module Game {
  import opened Wrappers
  import opened Values
  import opened Logics
  import opened Board
  import opened Moves
  import opened Areas

  datatype Phase = Placement | Move | Wall

  /** The component's game state; `selectedStone` is a stone index, `lastMovedStone` a cell. */
  datatype State = State(
    stones: seq<Stone>,
    walls: Walls,
    turn: int,
    phase: Phase,
    placementStep: int,
    selectedStone: Option<int>,
    lastMovedStone: Option<Cell>,
    gameEnd: bool)

  /** Owners of the four extra stones, in placement order: A, B, B, A. */
  const PlacementOrder: seq<int> := [0, 1, 1, 0]

  /** Number of stones once placement is over. */
  const StoneCount: int := 8

  /** The owner of stone i: the seed stones first, then the placed ones. */
  function OwnerAt(i: int): int
    requires 0 <= i < StoneCount
  {
    if i < 4 then InitialStones()[i].owner else PlacementOrder[i - 4]
  }

  /** The state after `handleReset`, and the initial state of the component. */
  function InitialState(): State {
    State(InitialStones(), CreateEmptyWalls(), 0, Placement, 0, None, None, false)
  }

  /** At most eight stones, on the board, on distinct cells, each with the owner its index dictates. */
  predicate StonesOk(stones: seq<Stone>) {
    |stones| <= StoneCount &&
    (forall i :: 0 <= i < |stones| ==> InBounds(stones[i].row, stones[i].col) && stones[i].owner == OwnerAt(i)) &&
    (forall i, j :: 0 <= i < j < |stones| ==> stones[i].Pos() != stones[j].Pos())
  }

  /** Adding the next stone on an empty cell keeps the stones in order. */
  lemma AppendStone(stones: seq<Stone>, st: Stone)
    requires StonesOk(stones) && |stones| < StoneCount && InBounds(st.row, st.col)
    requires st.owner == OwnerAt(|stones|) && !CheckStone(st.row, st.col, stones)
    ensures StonesOk(stones + [st])
  {
    var t := stones + [st];
    forall i, j | 0 <= i < j < |t|
      ensures t[i].Pos() != t[j].Pos()
    {
      if j == |stones| {
        assert t[i] == stones[i];
      }
    }
  }

  /** Moving stone i onto an empty board cell keeps the stones in order. */
  lemma RelocateStone(stones: seq<Stone>, i: int, r: int, c: int)
    requires StonesOk(stones) && 0 <= i < |stones| && InBounds(r, c) && !CheckStone(r, c, stones)
    ensures StonesOk(stones[i := Stone(r, c, stones[i].owner)])
  {
  }

  /** The invariant of every state the game can reach. */
  predicate ValidState(s: State) {
    WellFormed(s.walls) &&
    StonesOk(s.stones) &&
    IsPlayer(s.turn) && 0 <= s.placementStep <= 3 && !s.gameEnd &&
    (s.phase == Placement ==>
      |s.stones| == 4 + s.placementStep && s.turn == 0 && s.selectedStone.None? && s.lastMovedStone.None?) &&
    (s.phase != Placement ==> |s.stones| == StoneCount && s.placementStep == 3) &&
    (s.selectedStone.Some? ==>
      s.phase == Move && 0 <= s.selectedStone.value < |s.stones| && s.stones[s.selectedStone.value].owner == s.turn) &&
    (s.phase == Wall <==> s.lastMovedStone.Some?) &&
    (s.lastMovedStone.Some? ==>
      exists i :: 0 <= i < |s.stones| && s.stones[i].Pos() == s.lastMovedStone.value && s.stones[i].owner == s.turn)
  }

  /** Once placement is over, each player has four stones on the board. */
  lemma FourStonesEach(s: State)
    requires ValidState(s) && s.phase != Placement
    ensures CountOwned(s.stones, 0) == 4 && CountOwned(s.stones, 1) == 4
  {
    assert s.stones[0..] == s.stones;
    OwnedSuffix(s.stones, 0, 0);
    OwnedSuffix(s.stones, 0, 1);
    assert Dictated(4, 0) == 2 && Dictated(4, 1) == 2;
  }

  /** How many of the indices k .. StoneCount - 1 dictate owner p. */
  function Dictated(k: nat, p: int): nat
    requires k <= StoneCount
    decreases StoneCount - k
  {
    if k == StoneCount then 0 else (if OwnerAt(k) == p then 1 else 0) + Dictated(k + 1, p)
  }

  /** The stones from index k on, counted for player p, are as many as their indices dictate. */
  lemma {:induction false} OwnedSuffix(stones: seq<Stone>, k: nat, p: int)
    requires StonesOk(stones) && |stones| == StoneCount && k <= StoneCount
    ensures CountOwned(stones[k..], p) == Dictated(k, p)
    decreases StoneCount - k
  {
    if k < StoneCount {
      OwnedSuffix(stones, k + 1, p);
      assert stones[k..][1..] == stones[k + 1..];
    }
  }

  lemma InitialStateValid()
    ensures ValidState(InitialState()) && InitialState().phase == Placement && NoWalls(InitialState().walls)
  {
  }

  // ---------------------------------------------------------------------------
  // handlePlacement
  // ---------------------------------------------------------------------------

  /** `handlePlacement`: the next placement stone goes on (r, c) unless a stone is there. */
  function Place(s: State, r: int, c: int): State
    requires 0 <= s.placementStep < |PlacementOrder|
  {
    if CheckStone(r, c, s.stones) then s
    else
      var stones := s.stones + [Stone(r, c, PlacementOrder[s.placementStep])];
      if s.placementStep == 3 then s.(stones := stones, phase := Move, turn := 0)
      else s.(stones := stones, placementStep := s.placementStep + 1)
  }

  /**
   * Placement on an empty cell adds one stone of the owner due; the fourth one ends
   * the placement phase with eight stones on the board and player A to move.
   */
  lemma PlaceKeepsValid(s: State, r: int, c: int)
    requires ValidState(s) && s.phase == Placement && InBounds(r, c)
    ensures ValidState(Place(s, r, c))
    ensures var t := Place(s, r, c);
      (CheckStone(r, c, s.stones) <==> t == s) &&
      (t != s ==> t.stones == s.stones + [Stone(r, c, OwnerAt(|s.stones|))] && t.walls == s.walls) &&
      (t.phase == Move <==> t != s && |s.stones| == StoneCount - 1) &&
      (t.phase == Move ==> t.turn == 0)
  {
    if !CheckStone(r, c, s.stones) {
      AppendStone(s.stones, Stone(r, c, OwnerAt(|s.stones|)));
    }
  }

  // ---------------------------------------------------------------------------
  // handleMoveOrSelect
  // ---------------------------------------------------------------------------

  /** `findIndex` for a stone of player p standing on (r, c). */
  function FindOwnStone(stones: seq<Stone>, r: int, c: int, p: int): (idx: Option<int>)
    ensures idx.Some? ==> 0 <= idx.value < |stones| && stones[idx.value] == Stone(r, c, p)
    ensures idx.Some? ==> forall j :: 0 <= j < idx.value ==> stones[j] != Stone(r, c, p)
    ensures idx.None? ==> forall j :: 0 <= j < |stones| ==> stones[j] != Stone(r, c, p)
  {
    if stones == [] then None
    else if stones[0] == Stone(r, c, p) then Some(0)
    else
      match FindOwnStone(stones[1..], r, c, p)
      case None => None
      case Some(i) => Some(i + 1)
  }

  /** The selected stone index may be dereferenced, and walls are indexable. */
  predicate Indexable(s: State) {
    WellFormed(s.walls) &&
    (s.selectedStone.Some? ==>
      0 <= s.selectedStone.value < |s.stones| &&
      InBounds(s.stones[s.selectedStone.value].row, s.stones[s.selectedStone.value].col))
  }

  /**
   * `handleMoveOrSelect`: select an own stone; with a stone selected, clicking it
   * again passes the move, clicking another own stone selects that one, and clicking
   * a listed destination moves the stone there. Passing and moving lead to the wall phase.
   */
  function MoveOrSelect(s: State, r: int, c: int): State
    requires Indexable(s)
  {
    if s.phase != Move then s
    else if s.selectedStone.None? then
      var idx := FindOwnStone(s.stones, r, c, s.turn);
      if idx.Some? then s.(selectedStone := idx) else s
    else
      var sel := s.selectedStone.value;
      if s.stones[sel].Pos() == (r, c) then
        s.(selectedStone := None, lastMovedStone := Some((r, c)), phase := Wall)
      else
        var idx := FindOwnStone(s.stones, r, c, s.turn);
        if idx.Some? then s.(selectedStone := idx)
        else if (r, c) !in AvailableMoves(s.stones, s.walls, s.stones[sel].row, s.stones[sel].col) then s
        else
          s.(stones := s.stones[sel := Stone(r, c, s.stones[sel].owner)], selectedStone := None,
             lastMovedStone := Some((r, c)), phase := Wall)
  }

  /** Selecting, passing and moving all keep every state invariant. */
  lemma MoveOrSelectKeepsValid(s: State, r: int, c: int)
    requires ValidState(s)
    ensures Indexable(s) && ValidState(MoveOrSelect(s, r, c))
  {
    if s.phase == Move && s.selectedStone.Some? {
      var sel := s.selectedStone.value;
      var sr, sc := s.stones[sel].row, s.stones[sel].col;
      if s.stones[sel].Pos() != (r, c) && FindOwnStone(s.stones, r, c, s.turn).None? &&
         (r, c) in AvailableMoves(s.stones, s.walls, sr, sc) {
        DestinationIsFree(s.stones, s.walls, sr, sc, r, c);
        RelocateStone(s.stones, sel, r, c);
        assert MoveOrSelect(s, r, c).stones[sel].Pos() == (r, c);
      }
    }
  }

  /**
   * A move relocates only the selected stone, onto an empty board cell listed by
   * the movement rule, and hands over to the wall phase at that cell. Clicking the
   * selected stone's own cell passes: nothing moves and the wall phase opens there.
   * Either way the wall phase is entered only at a cell the movement rule lists.
   */
  lemma MoveRelocatesSelectedOnly(s: State, r: int, c: int)
    requires ValidState(s)
    ensures Indexable(s)
    ensures var t := MoveOrSelect(s, r, c);
      |t.stones| == |s.stones| && forall j :: 0 <= j < |s.stones| ==> t.stones[j].owner == s.stones[j].owner
    ensures s.phase == Move && s.selectedStone.Some? && s.stones[s.selectedStone.value].Pos() == (r, c) ==>
      MoveOrSelect(s, r, c) == s.(selectedStone := None, lastMovedStone := Some((r, c)), phase := Wall)
    ensures var t := MoveOrSelect(s, r, c);
      s.phase == Move && t.phase == Wall ==>
        s.selectedStone.Some? && t.selectedStone.None? && t.lastMovedStone == Some((r, c)) &&
        (r, c) in AvailableMoves(s.stones, s.walls, s.stones[s.selectedStone.value].row, s.stones[s.selectedStone.value].col)
    ensures var t := MoveOrSelect(s, r, c);
      t.stones != s.stones ==>
        s.selectedStone.Some? && t.phase == Wall && t.lastMovedStone == Some((r, c)) &&
        InBounds(r, c) && !CheckStone(r, c, s.stones) &&
        (r, c) in AvailableMoves(s.stones, s.walls, s.stones[s.selectedStone.value].row, s.stones[s.selectedStone.value].col) &&
        forall j :: 0 <= j < |s.stones| && j != s.selectedStone.value ==> t.stones[j] == s.stones[j]
  {
    MoveKeepsOwners(s, r, c);
    if s.phase == Move && s.selectedStone.Some? {
      var sel := s.selectedStone.value;
      var sr, sc := s.stones[sel].row, s.stones[sel].col;
      if s.stones[sel].Pos() == (r, c) {
        assert AvailableMoves(s.stones, s.walls, sr, sc)[0] == (r, c);
      } else if && FindOwnStone(s.stones, r, c, s.turn).None? &&
         (r, c) in AvailableMoves(s.stones, s.walls, sr, sc) {
        MoveStep(s, r, c);
        DestinationIsFree(s.stones, s.walls, sr, sc, r, c);
      }
    }
  }

  /** Whatever the click, the stones keep their number and their owners. */
  lemma MoveKeepsOwners(s: State, r: int, c: int)
    requires ValidState(s)
    ensures Indexable(s)
    ensures var t := MoveOrSelect(s, r, c);
      |t.stones| == |s.stones| && forall j :: 0 <= j < |s.stones| ==> t.stones[j].owner == s.stones[j].owner
  {
    var t := MoveOrSelect(s, r, c);
    if s.phase == Move && s.selectedStone.Some? {
      var sel := s.selectedStone.value;
      if s.stones[sel].Pos() != (r, c) && FindOwnStone(s.stones, r, c, s.turn).None? &&
         (r, c) in AvailableMoves(s.stones, s.walls, s.stones[sel].row, s.stones[sel].col) {
        assert t.stones == s.stones[sel := Stone(r, c, s.stones[sel].owner)];
      } else {
        assert t.stones == s.stones;
      }
    }
  }

  /** A click on a listed destination moves the selected stone there and opens the wall phase. */
  lemma MoveStep(s: State, r: int, c: int)
    requires Indexable(s) && s.phase == Move && s.selectedStone.Some?
    requires var st := s.stones[s.selectedStone.value];
      st.Pos() != (r, c) && FindOwnStone(s.stones, r, c, s.turn).None? &&
      (r, c) in AvailableMoves(s.stones, s.walls, st.row, st.col)
    ensures var sel := s.selectedStone.value;
      MoveOrSelect(s, r, c) ==
        s.(stones := s.stones[sel := Stone(r, c, s.stones[sel].owner)], selectedStone := None,
           lastMovedStone := Some((r, c)), phase := Wall)
  {
  }

  /**
   * On the board, a cell holding another own stone is disabled while a stone is
   * selected (it is not a destination), so the re-selection branch of
   * `handleMoveOrSelect` cannot be reached by a click.
   */
  lemma ReselectNotClickable(s: State, r: int, c: int)
    requires ValidState(s) && s.selectedStone.Some? && InBounds(r, c)
    requires s.stones[s.selectedStone.value].Pos() != (r, c) && FindOwnStone(s.stones, r, c, s.turn).Some?
    ensures CellDisabled(s, r, c)
  {
    var sel := s.selectedStone.value;
    var j := FindOwnStone(s.stones, r, c, s.turn).value;
    assert s.stones[j].Pos() == (r, c);
    NotADestination(s.stones, s.walls, s.stones[sel].row, s.stones[sel].col, r, c);
  }

  /** A destination other than the stone's own cell is an empty board cell. */
  lemma DestinationIsFree(stones: seq<Stone>, walls: Walls, sr: int, sc: int, r: int, c: int)
    requires WellFormed(walls) && InBounds(sr, sc) && (r, c) != (sr, sc) && (r, c) in AvailableMoves(stones, walls, sr, sc)
    ensures InBounds(r, c) && !CheckStone(r, c, stones)
  {
    var moves := AvailableMoves(stones, walls, sr, sc);
    PassFirstOthersFree(stones, walls, sr, sc);
    var k :| 0 <= k < |moves| && moves[k] == (r, c);
  }

  /** An occupied cell other than the stone's own is never a destination. */
  lemma NotADestination(stones: seq<Stone>, walls: Walls, sr: int, sc: int, r: int, c: int)
    requires WellFormed(walls) && InBounds(sr, sc) && (r, c) != (sr, sc) && CheckStone(r, c, stones)
    ensures (r, c) !in AvailableMoves(stones, walls, sr, sc)
  {
    var moves := AvailableMoves(stones, walls, sr, sc);
    PassFirstOthersFree(stones, walls, sr, sc);
    forall k | 0 <= k < |moves|
      ensures moves[k] != (r, c)
    {
    }
  }

  function CancelSelect(s: State): State {
    s.(selectedStone := None)
  }

  lemma CancelSelectKeepsValid(s: State)
    requires ValidState(s)
    ensures ValidState(CancelSelect(s)) && CancelSelect(s).selectedStone.None?
  {
  }

  // ---------------------------------------------------------------------------
  // handlePlaceWall and the automatic skip
  // ---------------------------------------------------------------------------

  /** A copy of the walls with the given slot set to v. */
  function SetWall(walls: Walls, slot: Slot, v: int): (w: Walls)
    requires WellFormed(walls) && InBounds(slot.r, slot.c)
    ensures WellFormed(w)
    ensures WallAt(w, slot) == Some(v)
    ensures forall o: Slot :: InBounds(o.r, o.c) && o != slot ==> WallAt(w, o) == WallAt(walls, o)
  {
    match slot.dir
    case Right => walls.(right := walls.right[slot.r := walls.right[slot.r][slot.c := Some(v)]])
    case Down => walls.(down := walls.down[slot.r := walls.down[slot.r][slot.c := Some(v)]])
  }

  /**
   * `handlePlaceWall`: in the wall phase an empty slot receives the mover's wall and
   * play returns to the move phase; the game ends if `isGameOver` says so, otherwise
   * the turn passes.
   */
  function PlaceWall(s: State, slot: Slot): State
    requires WellFormed(s.walls) && InBounds(slot.r, slot.c)
  {
    if s.gameEnd || s.phase != Wall then s
    else if WallAt(s.walls, slot).Some? then s
    else
      var walls := SetWall(s.walls, slot, s.turn);
      var t := s.(walls := walls, phase := Move, lastMovedStone := None);
      if GameOverAsWritten(s.stones, walls) then t.(gameEnd := true) else t.(turn := (s.turn + 1) % 2)
  }

  /**
   * A wall goes only into an empty slot and never replaces one; once placed, the
   * game does not end (there are always stones on the board) and the turn passes.
   */
  lemma PlaceWallKeepsValid(s: State, slot: Slot)
    requires ValidState(s) && InBounds(slot.r, slot.c)
    ensures ValidState(PlaceWall(s, slot))
    ensures var t := PlaceWall(s, slot);
      (forall o: Slot :: InBounds(o.r, o.c) && o != slot ==> WallAt(t.walls, o) == WallAt(s.walls, o)) &&
      (forall o: Slot :: InBounds(o.r, o.c) && WallAt(s.walls, o).Some? ==> WallAt(t.walls, o) == WallAt(s.walls, o)) &&
      (t != s <==> s.phase == Wall && WallAt(s.walls, slot).None?) &&
      (t != s ==> WallAt(t.walls, slot) == Some(s.turn) && t.phase == Move && t.turn == 1 - s.turn && !t.gameEnd)
  {
    if s.phase == Wall && WallAt(s.walls, slot).None? {
      GameOverOnlyWithoutStones(s.stones, SetWall(s.walls, slot, s.turn));
    }
  }

  /** The wall slots the board offers: the free edges around the stone that just moved. */
  function OfferedWalls(s: State): seq<Slot>
    requires ValidState(s)
  {
    if s.phase == Wall && s.lastMovedStone.Some? then
      LastMovedInBounds(s);
      FreeSlots(s.lastMovedStone.value.0, s.lastMovedStone.value.1, s.walls)
    else []
  }

  lemma LastMovedInBounds(s: State)
    requires ValidState(s) && s.lastMovedStone.Some?
    ensures InBounds(s.lastMovedStone.value.0, s.lastMovedStone.value.1)
  {
    var i :| 0 <= i < |s.stones| && s.stones[i].Pos() == s.lastMovedStone.value && s.stones[i].owner == s.turn;
  }

  /** The effect that passes the turn when no wall can be placed next to the moved stone. */
  function SkipWall(s: State): State
    requires ValidState(s)
  {
    if s.phase == Wall && s.lastMovedStone.Some? && |OfferedWalls(s)| == 0 then
      s.(phase := Move, lastMovedStone := None, turn := (s.turn + 1) % 2)
    else s
  }

  /** The turn is skipped exactly when every edge around the moved stone already carries a wall. */
  lemma SkipWallKeepsValid(s: State)
    requires ValidState(s)
    ensures ValidState(SkipWall(s))
    ensures s.phase == Wall ==>
      (SkipWall(s) != s <==>
        forall o: Slot :: IsEdge(o) && Touches(o, s.lastMovedStone.value.0, s.lastMovedStone.value.1) ==> WallAt(s.walls, o).Some?)
    ensures SkipWall(s) != s ==> SkipWall(s).turn == 1 - s.turn && SkipWall(s).phase == Move
  {
    if s.phase == Wall {
      LastMovedInBounds(s);
      var (r, c) := s.lastMovedStone.value;
      var free := FreeSlots(r, c, s.walls);
      if |free| != 0 {
        assert free[0] in free;
      }
    }
  }

  // ---------------------------------------------------------------------------
  // What the board lets through
  // ---------------------------------------------------------------------------

  /** The `disabled` attribute of the board cell (r, c). */
  predicate CellDisabled(s: State, r: int, c: int)
    requires Indexable(s)
  {
    s.gameEnd ||
    if s.phase == Placement then CheckStone(r, c, s.stones)
    else
      s.phase != Move ||
      if s.selectedStone.Some? then
        var sel := s.selectedStone.value;
        (r, c) !in AvailableMoves(s.stones, s.walls, s.stones[sel].row, s.stones[sel].col)
      else FindOwnStone(s.stones, r, c, s.turn).None?
  }

  /** A click on board cell (r, c): `handlePlacement` during placement, `handleMoveOrSelect` after. */
  function ClickCell(s: State, r: int, c: int): State
    requires ValidState(s) && InBounds(r, c)
  {
    MoveOrSelectKeepsValid(s, r, c);
    if CellDisabled(s, r, c) then s
    else if s.phase == Placement then Place(s, r, c)
    else MoveOrSelect(s, r, c)
  }

  lemma ClickCellKeepsValid(s: State, r: int, c: int)
    requires ValidState(s) && InBounds(r, c)
    ensures ValidState(ClickCell(s, r, c))
  {
    MoveOrSelectKeepsValid(s, r, c);
    if s.phase == Placement {
      PlaceKeepsValid(s, r, c);
    }
  }

  /** A click on a wall slot: it reaches `handlePlaceWall` only when the slot is offered. */
  function ClickWall(s: State, slot: Slot): State
    requires ValidState(s) && InBounds(slot.r, slot.c)
  {
    if s.phase == Wall && WallAt(s.walls, slot).None? && slot in OfferedWalls(s) then PlaceWall(s, slot) else s
  }

  /** A clicked wall always lands on an in-board edge of the cell the stone just moved to. */
  lemma ClickWallKeepsValid(s: State, slot: Slot)
    requires ValidState(s) && InBounds(slot.r, slot.c)
    ensures ValidState(ClickWall(s, slot))
    ensures ClickWall(s, slot) != s ==>
      s.lastMovedStone.Some? && IsEdge(slot) && Touches(slot, s.lastMovedStone.value.0, s.lastMovedStone.value.1)
  {
    PlaceWallKeepsValid(s, slot);
    if s.phase == Wall {
      LastMovedInBounds(s);
    }
  }

  // ---------------------------------------------------------------------------
  // The component
  // ---------------------------------------------------------------------------

  /** The `WallBaduk` component's game state and its handlers. */
  class WallBaduk {
    var stones: seq<Stone>
    var walls: Walls
    var turn: int
    var phase: Phase
    var placementStep: int
    var selectedStone: Option<int>
    var lastMovedStone: Option<Cell>
    var gameEnd: bool

    function Current(): State
      reads this
    {
      State(stones, walls, turn, phase, placementStep, selectedStone, lastMovedStone, gameEnd)
    }

    predicate Valid()
      reads this
    {
      ValidState(Current())
    }

    constructor ()
      ensures Current() == InitialState() && Valid()
    {
      stones := InitialStones();
      walls := CreateEmptyWalls();
      turn := 0;
      phase := Placement;
      placementStep := 0;
      selectedStone := None;
      lastMovedStone := None;
      gameEnd := false;
      InitialStateValid();
    }

    method HandlePlacement(r: int, c: int)
      requires Valid() && 0 <= placementStep < |PlacementOrder|
      modifies this
      ensures Current() == Place(old(Current()), r, c)
    {
      if CheckStone(r, c, stones) {
        return;
      }
      var owner := PlacementOrder[placementStep];
      stones := stones + [Stone(r, c, owner)];
      if placementStep == 3 {
        phase := Move;
        turn := 0;
      } else {
        placementStep := placementStep + 1;
      }
    }

    method HandleMoveOrSelect(r: int, c: int)
      requires Valid()
      modifies this
      ensures Current() == MoveOrSelect(old(Current()), r, c) && Valid()
    {
      ghost var t := Current();
      if phase != Move {
      } else if selectedStone.None? {
        var idx := FindOwnStone(stones, r, c, turn);
        if idx.Some? {
          selectedStone := idx;
        }
      } else {
        var sel := selectedStone.value;
        if stones[sel].row == r && stones[sel].col == c {
          // clicking the selected stone again passes the move
          selectedStone := None;
          lastMovedStone := Some((r, c));
          phase := Wall;
        } else {
          var idx := FindOwnStone(stones, r, c, turn);
          if idx.Some? {
            selectedStone := idx;
          } else {
            var moves := GetAvailableMoves(stones, walls, sel);
            if (r, c) in moves {
              MoveStep(t, r, c);
              stones := stones[sel := Stone(r, c, stones[sel].owner)];
              selectedStone := None;
              lastMovedStone := Some((r, c));
              phase := Wall;
            }
          }
        }
      }
      assert Current() == MoveOrSelect(t, r, c);
      MoveOrSelectKeepsValid(t, r, c);
    }

    method HandleCancelSelect()
      requires Valid()
      modifies this
      ensures Current() == CancelSelect(old(Current())) && Valid()
    {
      selectedStone := None;
    }

    method HandlePlaceWall(r: int, c: int, dir: Dir)
      requires Valid() && InBounds(r, c)
      modifies this
      ensures Current() == PlaceWall(old(Current()), Slot(r, c, dir)) && Valid()
    {
      PlaceWallKeepsValid(Current(), Slot(r, c, dir));
      if gameEnd || phase != Wall {
        return;
      }
      if WallAt(walls, Slot(r, c, dir)).Some? {
        return;
      }
      var newWalls := SetWall(walls, Slot(r, c, dir), turn);
      walls := newWalls;
      phase := Move;
      lastMovedStone := None;
      // gameEnd was false on entry, so this is `setGameEnd(true)` when the game is over
      var over := IsGameOver(stones, newWalls);
      gameEnd := over;
      if !over {
        turn := (turn + 1) % 2;
      }
    }

    /** The effect that passes the turn when no wall fits next to the moved stone. */
    method SkipWallIfNone()
      requires Valid()
      modifies this
      ensures Current() == SkipWall(old(Current())) && Valid()
    {
      SkipWallKeepsValid(Current());
      if phase == Wall && lastMovedStone.Some? {
        LastMovedInBounds(Current());
        var available := FreeSlots(lastMovedStone.value.0, lastMovedStone.value.1, walls);
        if |available| == 0 {
          phase := Move;
          lastMovedStone := None;
          turn := (turn + 1) % 2;
        }
      }
    }

    method HandleReset()
      modifies this
      ensures Current() == InitialState() && Valid()
    {
      stones := InitialStones();
      walls := CreateEmptyWalls();
      turn := 0;
      gameEnd := false;
      phase := Placement;
      placementStep := 0;
      selectedStone := None;
      lastMovedStone := None;
      InitialStateValid();
    }

    /** A click on board cell (r, c), as the board dispatches it. */
    method OnCellClick(r: int, c: int)
      requires Valid() && InBounds(r, c)
      modifies this
      ensures Current() == ClickCell(old(Current()), r, c) && Valid()
    {
      ClickCellKeepsValid(Current(), r, c);
      MoveOrSelectKeepsValid(Current(), r, c);
      if CellDisabled(Current(), r, c) {
        return;
      }
      if phase == Placement {
        HandlePlacement(r, c);
      } else {
        HandleMoveOrSelect(r, c);
      }
    }

    /** A click on the wall slot (r, c, dir), as the board lets it through. */
    method OnWallClick(r: int, c: int, dir: Dir)
      requires Valid() && InBounds(r, c)
      modifies this
      ensures Current() == ClickWall(old(Current()), Slot(r, c, dir)) && Valid()
    {
      ClickWallKeepsValid(Current(), Slot(r, c, dir));
      var available := OfferedWalls(Current());
      if phase == Wall && WallAt(walls, Slot(r, c, dir)).None? && Slot(r, c, dir) in available {
        HandlePlaceWall(r, c, dir);
      }
    }

    /** The scores shown under the board: the territory each player owns alone. */
    method Scores() returns (scores: seq<int>)
      requires Valid()
      ensures |scores| == PlayerCount && 0 <= scores[0] && 0 <= scores[1]
      ensures scores[0] + scores[1] <= MapSize * MapSize
    {
      var areas, areaMap := GetAreas(stones, walls);
      forall a | 0 <= a < |areas| && |areas[a].owners| == 1
        ensures IsPlayer(areas[a].owners[0])
      {
        OwnersInMembers(stones, areas[a].cells, areas[a].owners[0]);
      }
      scores := ComputeScores(areas);
      ScoresWithinAreas(areas);
    }
  }
}
