/**
 * Territory partition and scoring of the wall-baduk game (`getAreas` and the score
 * loop in src/app/wall-baduk/page.tsx): a row-major breadth-first flood fill over
 * wall-free orthogonal adjacency, the owners found in each area, and the scores.
 */
module Areas {
  import opened Wrappers
  import opened Values
  import opened Logics

  /** An area: its cells in discovery order and the owners of the stones inside, in stone order. */
  datatype Area = Area(cells: seq<Cell>, owners: seq<int>)

  /** The flood fill's directions: right, down, left, up. */
  const Dirs: seq<(int, int)> := [(0, 1), (1, 0), (0, -1), (-1, 0)]

  function Nb(x: Cell, d: int): Cell
    requires 0 <= d < 4
  {
    (x.0 + Dirs[d].0, x.1 + Dirs[d].1)
  }

  /** The flood fill may cross from x to its neighbour in direction d. */
  predicate Open(walls: Walls, x: Cell, d: int)
    requires WellFormed(walls) && InBounds(x.0, x.1) && 0 <= d < 4
  {
    var (r, c) := x;
    var (nr, nc) := Nb(x, d);
    if nr < 0 || nr >= MapSize || nc < 0 || nc >= MapSize then false
    else if d == 0 && walls.right[r][c].Some? then false
    else if d == 1 && walls.down[r][c].Some? then false
    else if d == 2 && walls.right[nr][nc].Some? then false
    else if d == 3 && walls.down[nr][nc].Some? then false
    else true
  }

  /** x and y are orthogonal neighbours on the board with no wall between them. */
  predicate Link(walls: Walls, x: Cell, y: Cell)
    requires WellFormed(walls)
  {
    InBounds(x.0, x.1) && InBounds(y.0, y.1) && OrthAdjacent(x.0, x.1, y.0, y.1) &&
    !CheckWall(x.0, x.1, y.0, y.1, walls)
  }

  /** The flood fill's edge test is exactly an unwalled orthogonal step. */
  lemma OpenIsLink(walls: Walls, x: Cell, d: int)
    requires WellFormed(walls) && InBounds(x.0, x.1) && 0 <= d < 4
    ensures Open(walls, x, d) <==> Link(walls, x, Nb(x, d))
  {
  }

  /** Every unwalled orthogonal step is one of the four flood-fill edges. */
  lemma LinkIsOpen(walls: Walls, x: Cell, y: Cell) returns (d: int)
    requires WellFormed(walls) && Link(walls, x, y)
    ensures 0 <= d < 4 && Nb(x, d) == y && Open(walls, x, d)
  {
    d := if y.1 == x.1 + 1 then 0 else if y.0 == x.0 + 1 then 1 else if y.1 == x.1 - 1 then 2 else 3;
    OpenIsLink(walls, x, d);
  }

  /** Crossing an edge back returns to the start. */
  lemma OpenSymmetric(walls: Walls, x: Cell, d: int)
    requires WellFormed(walls) && InBounds(x.0, x.1) && 0 <= d < 4 && Open(walls, x, d)
    ensures InBounds(Nb(x, d).0, Nb(x, d).1) && Open(walls, Nb(x, d), (d + 2) % 4) && Nb(Nb(x, d), (d + 2) % 4) == x
  {
  }

  // ---------------------------------------------------------------------------
  // Properties of cell lists
  // ---------------------------------------------------------------------------

  predicate AllInBounds(cells: seq<Cell>) {
    forall k :: 0 <= k < |cells| ==> InBounds(cells[k].0, cells[k].1)
  }

  predicate Distinct(cells: seq<Cell>) {
    forall k, l :: 0 <= k < l < |cells| ==> cells[k] != cells[l]
  }

  /** Every cell after the first is linked to an earlier one: the list spans a connected region. */
  ghost predicate Connected(walls: Walls, cells: seq<Cell>)
    requires WellFormed(walls)
  {
    forall k :: 0 < k < |cells| ==> LinkedBack(walls, cells, k)
  }

  /** Cell k of the list is linked to a cell listed before it. */
  ghost predicate LinkedBack(walls: Walls, cells: seq<Cell>, k: int)
    requires WellFormed(walls) && 0 <= k < |cells|
  {
    exists j :: 0 <= j < k && Link(walls, cells[j], cells[k])
  }

  /** The open neighbours of the first `upto` cells are all in the list. */
  ghost predicate ClosedUpTo(walls: Walls, cells: seq<Cell>, upto: int)
    requires WellFormed(walls) && AllInBounds(cells) && 0 <= upto <= |cells|
  {
    forall k, d :: 0 <= k < upto && 0 <= d < 4 && Open(walls, cells[k], d) ==> Nb(cells[k], d) in cells
  }

  /** A finished area: nonempty, in bounds, duplicate-free, connected and closed. */
  ghost predicate Region(walls: Walls, cells: seq<Cell>)
    requires WellFormed(walls)
  {
    |cells| > 0 && AllInBounds(cells) && Distinct(cells) && Connected(walls, cells) &&
    ClosedUpTo(walls, cells, |cells|)
  }

  ghost function Grid(): set<Cell> {
    set r, c | 0 <= r < MapSize && 0 <= c < MapSize :: (r, c)
  }

  /** Total number of cells over a list of cell lists. */
  function Total(parts: seq<seq<Cell>>): nat {
    if parts == [] then 0 else Total(parts[..|parts| - 1]) + |parts[|parts| - 1]|
  }

  // ---------------------------------------------------------------------------
  // The flood fill's state: finished areas `parts`, the area being filled `cells`
  // of which the first `head` are dequeued, and the set `seen` of visited cells.
  // ---------------------------------------------------------------------------

  /** The finished areas are regions. */
  ghost predicate Finished(walls: Walls, parts: seq<seq<Cell>>)
    requires WellFormed(walls)
  {
    forall a :: 0 <= a < |parts| ==> Region(walls, parts[a])
  }

  ghost predicate Partial(walls: Walls, parts: seq<seq<Cell>>, cells: seq<Cell>, head: int, seen: set<Cell>)
    requires WellFormed(walls)
  {
    AllInBounds(cells) && Distinct(cells) && Connected(walls, cells) &&
    0 <= head <= |cells| && ClosedUpTo(walls, cells, head) &&
    seen <= Grid() && |seen| == Total(parts) + |cells|
  }

  ghost predicate Shaped(visited: array2<bool>, labels: array2<int>) {
    visited.Length0 == MapSize && visited.Length1 == MapSize &&
    labels.Length0 == MapSize && labels.Length1 == MapSize
  }

  /** The grids agree with the ghost state: visited cells are `seen`, labels name the area. */
  ghost predicate Labelled(visited: array2<bool>, labels: array2<int>, parts: seq<seq<Cell>>, cells: seq<Cell>, seen: set<Cell>)
    reads visited, labels
    requires Shaped(visited, labels)
  {
    (forall r, c :: InBounds(r, c) ==> (visited[r, c] <==> (r, c) in seen)) &&
    (forall r, c :: InBounds(r, c) ==> (labels[r, c] == -1 <==> !visited[r, c])) &&
    (forall r, c :: InBounds(r, c) ==> -1 <= labels[r, c] <= |parts|) &&
    (forall r, c, a :: InBounds(r, c) && 0 <= a < |parts| ==> (labels[r, c] == a <==> (r, c) in parts[a])) &&
    (forall r, c :: InBounds(r, c) ==> (labels[r, c] == |parts| <==> (r, c) in cells))
  }

  /**
   * A visited open neighbour of a cell of the area being filled belongs to that
   * area: the finished areas are closed, so it cannot lie in one of them.
   */
  lemma VisitedNeighbourInCurrent(walls: Walls, visited: array2<bool>, labels: array2<int>,
                                  parts: seq<seq<Cell>>, cells: seq<Cell>, seen: set<Cell>, x: Cell, d: int)
    requires WellFormed(walls) && Shaped(visited, labels)
    requires Finished(walls, parts) && Labelled(visited, labels, parts, cells, seen)
    requires x in cells && InBounds(x.0, x.1) && 0 <= d < 4 && OpenNbVisited(walls, visited, labels, x, d)
    ensures Nb(x, d) in cells
  {
    var y := Nb(x, d);
    var a := labels[y.0, y.1];
    var part := if 0 <= a < |parts| then parts[a] else [];
    RegionReachesBack(walls, part, x, d);
    assert labels[x.0, x.1] == |parts|;
    assert x !in part;
  }

  /** A closed area that holds the far end of an open edge holds its near end too. */
  lemma RegionReachesBack(walls: Walls, part: seq<Cell>, x: Cell, d: int)
    requires WellFormed(walls) && (part == [] || Region(walls, part))
    requires InBounds(x.0, x.1) && 0 <= d < 4 && Open(walls, x, d)
    ensures Nb(x, d) in part ==> x in part
  {
    OpenSymmetric(walls, x, d);
  }

  ghost predicate OpenNbVisited(walls: Walls, visited: array2<bool>, labels: array2<int>, x: Cell, d: int)
    reads visited
    requires WellFormed(walls) && Shaped(visited, labels) && InBounds(x.0, x.1) && 0 <= d < 4
  {
    Open(walls, x, d) && visited[Nb(x, d).0, Nb(x, d).1]
  }

  /** Appending a fresh neighbour of the current cell keeps the ghost state consistent. */
  lemma PartialGrows(walls: Walls, parts: seq<seq<Cell>>, cells: seq<Cell>, head: int, seen: set<Cell>, y: Cell)
    requires WellFormed(walls) && Partial(walls, parts, cells, head, seen)
    requires head < |cells| && Link(walls, cells[head], y) && y !in seen && y !in cells
    ensures Partial(walls, parts, cells + [y], head, seen + {y})
  {
    var cells' := cells + [y];
    forall k | 0 < k < |cells'|
      ensures LinkedBack(walls, cells', k)
    {
      if k == |cells| {
        assert Link(walls, cells'[head], cells'[k]);
      } else {
        assert LinkedBack(walls, cells, k);
        var j :| 0 <= j < k && Link(walls, cells[j], cells[k]);
        assert Link(walls, cells'[j], cells'[k]);
      }
    }
    assert Connected(walls, cells');
    forall k, e | 0 <= k < head && 0 <= e < 4 && Open(walls, cells'[k], e)
      ensures Nb(cells'[k], e) in cells'
    {
      assert cells'[k] == cells[k];
    }
    assert y == (y.0, y.1) && y in Grid();
  }

  // ---------------------------------------------------------------------------
  // The flood fill
  // ---------------------------------------------------------------------------

  /** The open neighbours of x in the directions before d are all listed. */
  ghost predicate Reached(walls: Walls, x: Cell, d: int, cells: seq<Cell>)
    requires WellFormed(walls) && InBounds(x.0, x.1) && 0 <= d <= 4
  {
    forall e :: 0 <= e < d && Open(walls, x, e) ==> Nb(x, e) in cells
  }

  lemma ReachedGrows(walls: Walls, x: Cell, d: int, cells: seq<Cell>, y: Cell)
    requires WellFormed(walls) && InBounds(x.0, x.1) && 0 <= d < 4 && Reached(walls, x, d, cells) && Nb(x, d) == y
    ensures Reached(walls, x, d + 1, cells + [y])
  {
  }

  lemma ReachedStep(walls: Walls, x: Cell, d: int, cells: seq<Cell>)
    requires WellFormed(walls) && InBounds(x.0, x.1) && 0 <= d < 4 && Reached(walls, x, d, cells)
    ensures !Open(walls, x, d) || Nb(x, d) in cells ==> Reached(walls, x, d + 1, cells)
  {
  }

  /** Once all four directions of cell `head` are reached, the first head + 1 cells are closed. */
  lemma HeadClosed(walls: Walls, cells: seq<Cell>, head: int)
    requires WellFormed(walls) && AllInBounds(cells) && 0 <= head < |cells|
    requires ClosedUpTo(walls, cells, head) && Reached(walls, cells[head], 4, cells)
    ensures ClosedUpTo(walls, cells, head + 1)
  {
  }

  /** Marks an unvisited cell as visited, labels it with the area being filled, and enqueues it. */
  method Enqueue(visited: array2<bool>, labels: array2<int>, areaId: int, nr: int, nc: int,
                 queue0: seq<Cell>, cells0: seq<Cell>, ghost parts: seq<seq<Cell>>, ghost seen0: set<Cell>)
    returns (queue: seq<Cell>, cells: seq<Cell>, ghost seen: set<Cell>)
    requires Shaped(visited, labels) && InBounds(nr, nc) && areaId == |parts|
    requires Labelled(visited, labels, parts, cells0, seen0) && !visited[nr, nc]
    modifies visited, labels
    ensures queue == queue0 + [(nr, nc)] && cells == cells0 + [(nr, nc)] && seen == seen0 + {(nr, nc)}
    ensures (nr, nc) !in cells0 && (nr, nc) !in seen0
    ensures Labelled(visited, labels, parts, cells, seen)
  {
    visited[nr, nc] := true;
    labels[nr, nc] := areaId;
    queue := queue0 + [(nr, nc)];
    cells := cells0 + [(nr, nc)];
    seen := seen0 + {(nr, nc)};
  }

  /**
   * The body of the `dirs` loop for direction d from the dequeued cell (r, c): an
   * unvisited neighbour across an open edge is labelled and enqueued.
   */
  method VisitNeighbour(walls: Walls, visited: array2<bool>, labels: array2<int>, areaId: int, r: int, c: int, d: int,
                        queue0: seq<Cell>, cells0: seq<Cell>,
                        ghost parts: seq<seq<Cell>>, ghost head: int, ghost seen0: set<Cell>)
    returns (queue: seq<Cell>, cells: seq<Cell>, ghost seen: set<Cell>)
    requires WellFormed(walls) && Shaped(visited, labels) && areaId == |parts| && Finished(walls, parts) && 0 <= d < 4
    requires Partial(walls, parts, cells0, head, seen0) && Labelled(visited, labels, parts, cells0, seen0)
    requires 0 <= head < |cells0| && cells0[head] == (r, c) && queue0 == cells0[head + 1..]
    requires Reached(walls, (r, c), d, cells0)
    modifies visited, labels
    ensures Partial(walls, parts, cells, head, seen) && Labelled(visited, labels, parts, cells, seen)
    ensures cells0 <= cells && queue == cells[head + 1..] && Reached(walls, (r, c), d + 1, cells)
    ensures seen0 <= seen && (|cells| == |cells0| ==> seen == seen0) && (|cells| > |cells0| ==> seen0 < seen)
  {
    queue, cells, seen := queue0, cells0, seen0;
    assert InBounds(r, c);
    ReachedStep(walls, (r, c), d, cells);
    // the bounds test and the four wall tests, made in the order of the source
    if !Open(walls, (r, c), d) { return; }
    var (nr, nc) := Nb((r, c), d);
    if !visited[nr, nc] {
      queue, cells, seen := Enqueue(visited, labels, areaId, nr, nc, queue, cells, parts, seen);
      assert cells[head + 1..] == cells0[head + 1..] + [(nr, nc)];
      OpenIsLink(walls, (r, c), d);
      PartialGrows(walls, parts, cells0, head, seen0, (nr, nc));
      ReachedGrows(walls, (r, c), d, cells0, (nr, nc));
    } else {
      VisitedNeighbourInCurrent(walls, visited, labels, parts, cells, seen, (r, c), d);
    }
  }

  /** The `dirs` loop for one dequeued cell: every unvisited open neighbour is labelled and enqueued. */
  method ExploreNeighbours(walls: Walls, visited: array2<bool>, labels: array2<int>, areaId: int, r: int, c: int,
                           queue0: seq<Cell>, cells0: seq<Cell>,
                           ghost parts: seq<seq<Cell>>, ghost head: int, ghost seen0: set<Cell>)
    returns (queue: seq<Cell>, cells: seq<Cell>, ghost seen: set<Cell>)
    requires WellFormed(walls) && Shaped(visited, labels) && areaId == |parts| && Finished(walls, parts)
    requires Partial(walls, parts, cells0, head, seen0) && Labelled(visited, labels, parts, cells0, seen0)
    requires 0 <= head < |cells0| && cells0[head] == (r, c) && queue0 == cells0[head + 1..]
    modifies visited, labels
    ensures Partial(walls, parts, cells, head + 1, seen) && Labelled(visited, labels, parts, cells, seen)
    ensures cells0 <= cells && queue == cells[head + 1..]
    ensures seen0 <= seen && (|cells| == |cells0| ==> seen == seen0) && (|cells| > |cells0| ==> seen0 < seen)
  {
    queue, cells, seen := queue0, cells0, seen0;
    for d := 0 to 4
      invariant Partial(walls, parts, cells, head, seen) && Labelled(visited, labels, parts, cells, seen)
      invariant cells0 <= cells && queue == cells[head + 1..] && cells[head] == (r, c)
      invariant seen0 <= seen && (|cells| == |cells0| ==> seen == seen0) && (|cells| > |cells0| ==> seen0 < seen)
      invariant Reached(walls, (r, c), d, cells)
    {
      queue, cells, seen := VisitNeighbour(walls, visited, labels, areaId, r, c, d, queue, cells, parts, head, seen);
    }
    HeadClosed(walls, cells, head);
  }

  /** A finished fill becomes the newest area. */
  lemma Promote(walls: Walls, visited: array2<bool>, labels: array2<int>,
                parts: seq<seq<Cell>>, cells: seq<Cell>, seen: set<Cell>)
    requires WellFormed(walls) && Shaped(visited, labels) && Finished(walls, parts) && |cells| > 0
    requires Partial(walls, parts, cells, |cells|, seen) && Labelled(visited, labels, parts, cells, seen)
    ensures Finished(walls, parts + [cells]) && Partial(walls, parts + [cells], [], 0, seen)
    ensures Labelled(visited, labels, parts + [cells], [], seen)
  {
    assert (parts + [cells])[..|parts|] == parts;
  }

  /** The seed cell alone is a consistent fill. */
  lemma Seeded(walls: Walls, parts: seq<seq<Cell>>, seen: set<Cell>, i: int, j: int)
    requires WellFormed(walls) && Partial(walls, parts, [], 0, seen) && InBounds(i, j) && (i, j) !in seen
    ensures Partial(walls, parts, [(i, j)], 0, seen + {(i, j)})
  {
    assert (i, j) in Grid();
  }

  /**
   * One area of the flood fill: the breadth-first search from the unvisited seed (i, j).
   * The ghost `head` counts the dequeued cells, so the queue is always `cells[head..]`.
   */
  method FloodFill(walls: Walls, visited: array2<bool>, labels: array2<int>, areaId: int, i: int, j: int,
                   ghost parts: seq<seq<Cell>>, ghost seen0: set<Cell>)
    returns (cells: seq<Cell>, ghost seen: set<Cell>)
    requires WellFormed(walls) && Shaped(visited, labels) && InBounds(i, j) && areaId == |parts|
    requires Finished(walls, parts) && Partial(walls, parts, [], 0, seen0) && Labelled(visited, labels, parts, [], seen0)
    requires !visited[i, j]
    modifies visited, labels
    ensures Finished(walls, parts + [cells]) && Partial(walls, parts + [cells], [], 0, seen)
    ensures Labelled(visited, labels, parts + [cells], [], seen)
    ensures |cells| > 0 && cells[0] == (i, j) && seen0 < seen
  {
    var queue;
    queue, cells, seen := Enqueue(visited, labels, areaId, i, j, [], [], parts, seen0);
    Seeded(walls, parts, seen0, i, j);
    ghost var head := 0;
    while |queue| > 0
      invariant Partial(walls, parts, cells, head, seen) && Labelled(visited, labels, parts, cells, seen)
      invariant queue == cells[head..] && |cells| > 0 && cells[0] == (i, j) && seen0 < seen
      decreases Grid() - seen, |queue|
    {
      var (r, c) := queue[0];
      queue := queue[1..];
      queue, cells, seen := ExploreNeighbours(walls, visited, labels, areaId, r, c, queue, cells, parts, head, seen);
      head := head + 1;
    }
    Promote(walls, visited, labels, parts, cells, seen);
  }

  /** The owners of the stones standing on the given cells, in stone order. */
  function OwnersIn(stones: seq<Stone>, cells: seq<Cell>): seq<int> {
    if stones == [] then []
    else
      var last := stones[|stones| - 1];
      OwnersIn(stones[..|stones| - 1], cells) + (if last.Pos() in cells then [last.owner] else [])
  }

  /** The `stones.forEach` loop that collects an area's owners. */
  method CollectOwners(stones: seq<Stone>, cells: seq<Cell>) returns (owners: seq<int>)
    ensures owners == OwnersIn(stones, cells)
  {
    owners := [];
    for i := 0 to |stones|
      invariant owners == OwnersIn(stones[..i], cells)
    {
      assert stones[..i + 1][..i] == stones[..i];
      if stones[i].Pos() in cells {
        owners := owners + [stones[i].owner];
      }
    }
    assert stones[..|stones|] == stones;
  }

  /** An owner is listed exactly when a stone of that owner stands on one of the cells. */
  lemma {:induction false} OwnersInMembers(stones: seq<Stone>, cells: seq<Cell>, o: int)
    ensures o in OwnersIn(stones, cells) <==> exists i :: 0 <= i < |stones| && stones[i].Pos() in cells && stones[i].owner == o
  {
    if stones != [] {
      var init := stones[..|stones| - 1];
      OwnersInMembers(init, cells, o);
      if o in OwnersIn(stones, cells) && o !in OwnersIn(init, cells) {
        assert stones[|stones| - 1].Pos() in cells && stones[|stones| - 1].owner == o;
      }
      if exists i :: 0 <= i < |stones| && stones[i].Pos() in cells && stones[i].owner == o {
        var i :| 0 <= i < |stones| && stones[i].Pos() in cells && stones[i].owner == o;
        if i < |init| {
          assert init[i] == stones[i];
        }
      }
    }
  }

  /**
   * Two distinct stones standing in one area give it two owners, even when both
   * belong to the same player: such an area scores for nobody.
   */
  lemma {:induction false} TwoStonesTwoOwners(stones: seq<Stone>, cells: seq<Cell>, i: int, j: int)
    requires 0 <= i < j < |stones| && stones[i].Pos() in cells && stones[j].Pos() in cells
    ensures |OwnersIn(stones, cells)| >= 2
  {
    var init := stones[..|stones| - 1];
    if j < |stones| - 1 {
      assert init[i] == stones[i] && init[j] == stones[j];
      TwoStonesTwoOwners(init, cells, i, j);
    } else {
      assert init[i] == stones[i];
      OwnersInMembers(init, cells, stones[i].owner);
    }
  }

  /** Cells holding no stone get no owner entry. */
  lemma {:induction false} NoStoneNoOwner(stones: seq<Stone>, cells: seq<Cell>)
    requires forall j :: 0 <= j < |stones| ==> stones[j].Pos() !in cells
    ensures OwnersIn(stones, cells) == []
  {
    if stones != [] {
      var init := stones[..|stones| - 1];
      assert forall j :: 0 <= j < |init| ==> init[j] == stones[j];
      NoStoneNoOwner(init, cells);
    }
  }

  /** Stone i is the only stone standing on the cells. */
  predicate SoleStoneOn(stones: seq<Stone>, cells: seq<Cell>, i: int)
  {
    0 <= i < |stones| && stones[i].Pos() in cells &&
    forall j :: 0 <= j < |stones| && j != i ==> stones[j].Pos() !in cells
  }

  /** Cells holding exactly one stone list that stone's owner and nothing else. */
  lemma {:induction false} OneStoneOneOwner(stones: seq<Stone>, cells: seq<Cell>, i: int)
    requires 0 <= i < |stones| && stones[i].Pos() in cells
    requires forall j :: 0 <= j < |stones| && j != i ==> stones[j].Pos() !in cells
    ensures OwnersIn(stones, cells) == [stones[i].owner]
  {
    var init := stones[..|stones| - 1];
    assert forall j :: 0 <= j < |init| ==> init[j] == stones[j];
    if i == |stones| - 1 {
      NoStoneNoOwner(init, cells);
    } else {
      OneStoneOneOwner(init, cells, i);
    }
  }

  /**
   * The three cases of an area's worth to player p: with no stone it scores for
   * nobody, with exactly one stone it scores its size for that stone's owner only,
   * and with two or more stones it scores for nobody.
   */
  lemma AreaScoreByStones(stones: seq<Stone>, cells: seq<Cell>, p: int)
    ensures (forall j :: 0 <= j < |stones| ==> stones[j].Pos() !in cells) ==>
      AreaScore(Area(cells, OwnersIn(stones, cells)), p) == 0
    ensures forall i :: SoleStoneOn(stones, cells, i) ==>
      AreaScore(Area(cells, OwnersIn(stones, cells)), p) == (if stones[i].owner == p then |cells| else 0)
    ensures forall i, j :: 0 <= i < j < |stones| && stones[i].Pos() in cells && stones[j].Pos() in cells ==>
      AreaScore(Area(cells, OwnersIn(stones, cells)), p) == 0
  {
    if forall j :: 0 <= j < |stones| ==> stones[j].Pos() !in cells {
      NoStoneNoOwner(stones, cells);
    }
    forall i | SoleStoneOn(stones, cells, i)
      ensures AreaScore(Area(cells, OwnersIn(stones, cells)), p) == (if stones[i].owner == p then |cells| else 0)
    {
      OneStoneOneOwner(stones, cells, i);
    }
    forall i, j | 0 <= i < j < |stones| && stones[i].Pos() in cells && stones[j].Pos() in cells
      ensures AreaScore(Area(cells, OwnersIn(stones, cells)), p) == 0
    {
      TwoStonesTwoOwners(stones, cells, i, j);
    }
  }

  /** Total number of cells over all areas. */
  function TotalCells(areas: seq<Area>): nat {
    if areas == [] then 0 else TotalCells(areas[..|areas| - 1]) + |areas[|areas| - 1].cells|
  }

  lemma {:induction false} TotalOfParts(areas: seq<Area>, parts: seq<seq<Cell>>)
    requires |areas| == |parts| && forall a :: 0 <= a < |areas| ==> areas[a].cells == parts[a]
    ensures TotalCells(areas) == Total(parts)
  {
    if areas != [] {
      TotalOfParts(areas[..|areas| - 1], parts[..|parts| - 1]);
    }
  }

  /** How the areas found so far relate to the ghost fill state. */
  ghost predicate Recorded(stones: seq<Stone>, areas: seq<Area>, parts: seq<seq<Cell>>) {
    |areas| == |parts| &&
    forall a :: 0 <= a < |areas| ==> areas[a] == Area(parts[a], OwnersIn(stones, parts[a]))
  }

  /** The inner `j` loop of `getAreas` over row i. */
  method ScanRow(stones: seq<Stone>, walls: Walls, visited: array2<bool>, labels: array2<int>, i: int,
                 areas0: seq<Area>, ghost parts0: seq<seq<Cell>>, ghost seen0: set<Cell>)
    returns (areas: seq<Area>, ghost parts: seq<seq<Cell>>, ghost seen: set<Cell>)
    requires WellFormed(walls) && Shaped(visited, labels) && 0 <= i < MapSize && Recorded(stones, areas0, parts0)
    requires Finished(walls, parts0) && Partial(walls, parts0, [], 0, seen0) && Labelled(visited, labels, parts0, [], seen0)
    modifies visited, labels
    ensures Recorded(stones, areas, parts)
    ensures Finished(walls, parts) && Partial(walls, parts, [], 0, seen) && Labelled(visited, labels, parts, [], seen)
    ensures seen0 <= seen && forall c :: 0 <= c < MapSize ==> (i, c) in seen
  {
    areas, parts, seen := areas0, parts0, seen0;
    var areaId := |areas|;
    for j := 0 to MapSize
      invariant areaId == |areas| && Recorded(stones, areas, parts)
      invariant Finished(walls, parts) && Partial(walls, parts, [], 0, seen) && Labelled(visited, labels, parts, [], seen)
      invariant seen0 <= seen && forall c :: 0 <= c < j ==> (i, c) in seen
    {
      if visited[i, j] { continue; }
      var cells;
      cells, seen := FloodFill(walls, visited, labels, areaId, i, j, parts, seen);
      var owners := CollectOwners(stones, cells);
      RecordedGrows(stones, areas, parts, cells);
      areas := areas + [Area(cells, owners)];
      parts := parts + [cells];
      areaId := areaId + 1;
    }
  }

  lemma RecordedGrows(stones: seq<Stone>, areas: seq<Area>, parts: seq<seq<Cell>>, cells: seq<Cell>)
    requires Recorded(stones, areas, parts)
    ensures Recorded(stones, areas + [Area(cells, OwnersIn(stones, cells))], parts + [cells])
  {
  }

  lemma NextRowCovered(seen0: set<Cell>, seen: set<Cell>, i: int)
    requires seen0 <= seen && forall r, c :: 0 <= r < i && 0 <= c < MapSize ==> (r, c) in seen0
    requires forall c :: 0 <= c < MapSize ==> (i, c) in seen
    ensures forall r, c :: 0 <= r < i + 1 && 0 <= c < MapSize ==> (r, c) in seen
  {
  }

  /** Once every cell is visited, the labels partition the board into the recorded areas. */
  lemma Partitioned(walls: Walls, visited: array2<bool>, labels: array2<int>, parts: seq<seq<Cell>>, seen: set<Cell>)
    requires WellFormed(walls) && Shaped(visited, labels)
    requires Partial(walls, parts, [], 0, seen) && Labelled(visited, labels, parts, [], seen)
    requires forall r, c :: 0 <= r < MapSize && 0 <= c < MapSize ==> (r, c) in seen
    ensures forall r, c :: InBounds(r, c) ==> 0 <= labels[r, c] < |parts|
    ensures Total(parts) == MapSize * MapSize
  {
    AllSeen(seen);
  }

  /**
   * `getAreas`: a row-major scan that starts a flood fill at every unvisited cell.
   * The areas partition the board (every cell carries exactly one area id, and an
   * area lists exactly the cells with its id), each area is a connected region
   * closed under unwalled steps, and its owners are the owners of the stones on it.
   */
  method GetAreas(stones: seq<Stone>, walls: Walls) returns (areas: seq<Area>, areaMap: seq<seq<int>>)
    requires WellFormed(walls)
    ensures |areaMap| == MapSize && forall r :: 0 <= r < MapSize ==> |areaMap[r]| == MapSize
    ensures forall r, c :: InBounds(r, c) ==> 0 <= areaMap[r][c] < |areas|
    ensures forall a, r, c :: 0 <= a < |areas| && InBounds(r, c) ==> (areaMap[r][c] == a <==> (r, c) in areas[a].cells)
    ensures forall a :: 0 <= a < |areas| ==> Region(walls, areas[a].cells)
    ensures forall a :: 0 <= a < |areas| ==> areas[a].owners == OwnersIn(stones, areas[a].cells)
    ensures TotalCells(areas) == MapSize * MapSize
    ensures forall x, y :: Link(walls, x, y) ==> areaMap[x.0][x.1] == areaMap[y.0][y.1]
  {
    var visited := new bool[MapSize, MapSize]((_, _) => false);
    var labels := new int[MapSize, MapSize]((_, _) => -1);
    areas := [];
    ghost var parts: seq<seq<Cell>> := [];
    ghost var seen: set<Cell> := {};
    Unvisited(walls, visited, labels);
    for i := 0 to MapSize
      invariant Recorded(stones, areas, parts)
      invariant Finished(walls, parts) && Partial(walls, parts, [], 0, seen) && Labelled(visited, labels, parts, [], seen)
      invariant forall r, c :: 0 <= r < i && 0 <= c < MapSize ==> (r, c) in seen
    {
      ghost var seenBefore := seen;
      areas, parts, seen := ScanRow(stones, walls, visited, labels, i, areas, parts, seen);
      NextRowCovered(seenBefore, seen, i);
    }
    Partitioned(walls, visited, labels, parts, seen);
    areaMap := Snapshot(labels);
    MapDescribesAreas(walls, stones, areas, parts, areaMap);
  }

  /** The label grid as nested sequences, the `areaMap` that `getAreas` returns. */
  function Snapshot(labels: array2<int>): (m: seq<seq<int>>)
    reads labels
    requires labels.Length0 == MapSize && labels.Length1 == MapSize
    ensures |m| == MapSize && forall r :: 0 <= r < MapSize ==> |m[r]| == MapSize
    ensures forall r, c :: InBounds(r, c) ==> m[r][c] == labels[r, c]
  {
    seq(MapSize, r requires 0 <= r < MapSize reads labels =>
      seq(MapSize, c requires 0 <= c < MapSize reads labels => labels[r, c]))
  }

  /** The snapshot of the labels, read against the recorded areas. */
  lemma MapDescribesAreas(walls: Walls, stones: seq<Stone>, areas: seq<Area>, parts: seq<seq<Cell>>, areaMap: seq<seq<int>>)
    requires WellFormed(walls) && Recorded(stones, areas, parts) && Finished(walls, parts)
    requires Total(parts) == MapSize * MapSize
    requires |areaMap| == MapSize && forall r :: 0 <= r < MapSize ==> |areaMap[r]| == MapSize
    requires forall r, c :: InBounds(r, c) ==> 0 <= areaMap[r][c] < |parts|
    requires forall r, c, a :: InBounds(r, c) && 0 <= a < |parts| ==> (areaMap[r][c] == a <==> (r, c) in parts[a])
    ensures forall r, c :: InBounds(r, c) ==> 0 <= areaMap[r][c] < |areas|
    ensures forall a, r, c :: 0 <= a < |areas| && InBounds(r, c) ==> (areaMap[r][c] == a <==> (r, c) in areas[a].cells)
    ensures forall a :: 0 <= a < |areas| ==> Region(walls, areas[a].cells)
    ensures forall a :: 0 <= a < |areas| ==> areas[a].owners == OwnersIn(stones, areas[a].cells)
    ensures TotalCells(areas) == MapSize * MapSize
    ensures forall x, y :: Link(walls, x, y) ==> areaMap[x.0][x.1] == areaMap[y.0][y.1]
  {
    TotalOfParts(areas, parts);
    forall x, y | Link(walls, x, y)
      ensures areaMap[x.0][x.1] == areaMap[y.0][y.1]
    {
      var a := areaMap[x.0][x.1];
      assert x == (x.0, x.1) && x in parts[a];
      var k :| 0 <= k < |parts[a]| && parts[a][k] == x;
      var d := LinkIsOpen(walls, x, y);
      assert Open(walls, parts[a][k], d);
      assert (y.0, y.1) in parts[a];
    }
  }

  /** The freshly filled grids describe an empty fill. */
  lemma Unvisited(walls: Walls, visited: array2<bool>, labels: array2<int>)
    requires WellFormed(walls) && Shaped(visited, labels)
    requires forall r, c :: InBounds(r, c) ==> !visited[r, c] && labels[r, c] == -1
    ensures Finished(walls, []) && Partial(walls, [], [], 0, {}) && Labelled(visited, labels, [], [], {})
  {
  }

  /** A set of board cells that holds every cell is the whole board, of 49 cells. */
  lemma AllSeen(seen: set<Cell>)
    requires seen <= Grid() && forall r, c :: 0 <= r < MapSize && 0 <= c < MapSize ==> (r, c) in seen
    ensures |seen| == MapSize * MapSize
  {
    assert seen == Grid();
    GridSize();
  }

  lemma GridSize()
    ensures |Grid()| == MapSize * MapSize
  {
    RowsSize(MapSize);
    assert Rows(MapSize) == Grid();
  }

  ghost function Rows(m: nat): set<Cell> {
    set r, c | 0 <= r < m && 0 <= c < MapSize :: (r, c)
  }

  ghost function Row(r: int, n: nat): set<Cell> {
    set c | 0 <= c < n :: (r, c)
  }

  lemma {:induction false} RowSize(r: int, n: nat)
    ensures |Row(r, n)| == n
  {
    if n > 0 {
      assert Row(r, n) == Row(r, n - 1) + {(r, n - 1)};
      RowSize(r, n - 1);
    }
  }

  lemma {:induction false} RowsSize(m: nat)
    ensures |Rows(m)| == m * MapSize
  {
    if m > 0 {
      assert Rows(m) == Rows(m - 1) + Row(m - 1, MapSize);
      assert Rows(m - 1) !! Row(m - 1, MapSize);
      RowsSize(m - 1);
      RowSize(m - 1, MapSize);
    }
  }

  // ---------------------------------------------------------------------------
  // Scores
  // ---------------------------------------------------------------------------

  /** What an area is worth to player p: its size when its only owner is p. */
  function AreaScore(area: Area, p: int): nat {
    if |area.owners| == 1 && area.owners[0] == p then |area.cells| else 0
  }

  /** Player p's score: the cells of the areas owned by p alone. */
  function Score(areas: seq<Area>, p: int): nat {
    if areas == [] then 0 else Score(areas[..|areas| - 1], p) + AreaScore(areas[|areas| - 1], p)
  }

  /** The score loop: each area with a single owner adds its size to that owner's score. */
  method ComputeScores(areas: seq<Area>) returns (scores: seq<int>)
    requires forall a :: 0 <= a < |areas| && |areas[a].owners| == 1 ==> IsPlayer(areas[a].owners[0])
    ensures |scores| == PlayerCount && scores[0] == Score(areas, 0) && scores[1] == Score(areas, 1)
  {
    scores := [0, 0];
    for k := 0 to |areas|
      invariant |scores| == PlayerCount && scores[0] == Score(areas[..k], 0) && scores[1] == Score(areas[..k], 1)
    {
      assert areas[..k + 1][..k] == areas[..k];
      var area := areas[k];
      if |area.owners| == 1 {
        scores := scores[area.owners[0] := scores[area.owners[0]] + |area.cells|];
      }
    }
    assert areas[..|areas|] == areas;
  }

  /** The two scores together never exceed the cells of the areas. */
  lemma {:induction false} ScoresWithinAreas(areas: seq<Area>)
    ensures Score(areas, 0) + Score(areas, 1) <= TotalCells(areas)
  {
    if areas != [] {
      ScoresWithinAreas(areas[..|areas| - 1]);
    }
  }

  // ---------------------------------------------------------------------------
  // A board without walls
  // ---------------------------------------------------------------------------

  /** Without walls every cell carries the label of the corner cell. */
  lemma {:induction false} LabelOfCorner(walls: Walls, areaMap: seq<seq<int>>, r: int, c: int)
    requires WellFormed(walls) && NoWalls(walls) && InBounds(r, c)
    requires |areaMap| == MapSize && forall i :: 0 <= i < MapSize ==> |areaMap[i]| == MapSize
    requires forall x, y :: Link(walls, x, y) ==> areaMap[x.0][x.1] == areaMap[y.0][y.1]
    ensures areaMap[r][c] == areaMap[0][0]
    decreases r, c
  {
    if c > 0 {
      LabelOfCorner(walls, areaMap, r, c - 1);
      NoWallsNeverBlock(r, c - 1, r, c, walls);
      assert Link(walls, (r, c - 1), (r, c));
    } else if r > 0 {
      LabelOfCorner(walls, areaMap, r - 1, 0);
      NoWallsNeverBlock(r - 1, 0, r, 0, walls);
      assert Link(walls, (r - 1, 0), (r, 0));
    }
  }

  /**
   * What getAreas promises, read on a board without walls: a single area holding
   * all 49 cells.
   */
  lemma WallFreeBoardIsOneArea(walls: Walls, areas: seq<Area>, areaMap: seq<seq<int>>)
    requires WellFormed(walls) && NoWalls(walls)
    requires |areaMap| == MapSize && forall r :: 0 <= r < MapSize ==> |areaMap[r]| == MapSize
    requires forall r, c :: InBounds(r, c) ==> 0 <= areaMap[r][c] < |areas|
    requires forall a, r, c :: 0 <= a < |areas| && InBounds(r, c) ==> (areaMap[r][c] == a <==> (r, c) in areas[a].cells)
    requires forall a :: 0 <= a < |areas| ==> Region(walls, areas[a].cells)
    requires TotalCells(areas) == MapSize * MapSize
    requires forall x, y :: Link(walls, x, y) ==> areaMap[x.0][x.1] == areaMap[y.0][y.1]
    ensures |areas| == 1 && |areas[0].cells| == MapSize * MapSize
  {
    // the first and the last area both hold the corner's label
    var x := areas[0].cells[0];
    LabelOfCorner(walls, areaMap, x.0, x.1);
    var y := areas[|areas| - 1].cells[0];
    LabelOfCorner(walls, areaMap, y.0, y.1);
    assert areas[..0] == [];
  }
}
