/**
 * Board constants of the wall-baduk game (src/app/wall-baduk/values.tsx):
 * the board size, the number of players and the four seed stones.
 */
module Values {

  /** Side length of the square board. */
  const MapSize: int := 7

  /** Length of the `players` table; every owner id indexes it. */
  const PlayerCount: int := 2

  /** A board cell as (row, column). */
  type Cell = (int, int)

  /** A stone `[row, col, owner]`. */
  datatype Stone = Stone(row: int, col: int, owner: int) {
    function Pos(): Cell { (row, col) }
  }

  predicate InBounds(r: int, c: int) {
    0 <= r < MapSize && 0 <= c < MapSize
  }

  predicate IsPlayer(p: int) {
    0 <= p < PlayerCount
  }

  /** The seed stones, one per corner pair, two per player. */
  function InitialStones(): (s: seq<Stone>)
    ensures |s| == 4
    ensures forall i :: 0 <= i < |s| ==> InBounds(s[i].row, s[i].col) && IsPlayer(s[i].owner)
    ensures forall i, j :: 0 <= i < j < |s| ==> s[i].Pos() != s[j].Pos()
    ensures forall i :: 0 <= i < |s| && s[i].owner == 0 ==> s[i].Pos() in {(1, 1), (5, 5)}
    ensures forall i :: 0 <= i < |s| && s[i].owner == 1 ==> s[i].Pos() in {(1, 5), (5, 1)}
    ensures CountOwned(s, 0) == 2 && CountOwned(s, 1) == 2
  {
    var s := [Stone(1, 1, 0), Stone(1, 5, 1), Stone(5, 5, 0), Stone(5, 1, 1)];
    assert s[2..][1..] == [Stone(5, 1, 1)];
    s
  }

  /** Number of stones owned by player `p`. */
  function CountOwned(stones: seq<Stone>, p: int): (n: nat)
    ensures n <= |stones|
  {
    if stones == [] then 0
    else (if stones[0].owner == p then 1 else 0) + CountOwned(stones[1..], p)
  }
}
