/** The 3×3 board of the puzzle as a value: which tile each drop zone holds,
    the single placement rule (swap or relocate) and the win predicate.
    Tiles are identified by their correctIndex, zones by their zoneIndex;
    both run over 0..ZONE_COUNT-1. */
module Board {

  const BOARD_SIZE := 3
  const ZONE_COUNT := BOARD_SIZE * BOARD_SIZE

  /** What a zone holds when no tile is in it; also the "no tile" / "no zone" reference. */
  const EMPTY := -1

  predicate IsTile(t: int) { 0 <= t < ZONE_COUNT }
  predicate IsZone(z: int) { 0 <= z < ZONE_COUNT }

  /** The tiles in the order they are created: tile i carries correctIndex i. */
  function AllTiles(): (s: seq<int>) {
    seq(ZONE_COUNT, i => i)
  }

  /** A board in progress: nine zones, each empty or holding one tile, and no tile in two zones. */
  ghost predicate ValidBoard(b: seq<int>) {
    && |b| == ZONE_COUNT
    && (forall z :: 0 <= z < ZONE_COUNT ==> b[z] == EMPTY || IsTile(b[z]))
    && (forall z, w :: 0 <= z < w < ZONE_COUNT && b[z] != EMPTY ==> b[z] != b[w])
  }

  /** A complete board: every zone occupied and every tile present. */
  ghost predicate Full(b: seq<int>) {
    && ValidBoard(b)
    && (forall z :: 0 <= z < ZONE_COUNT ==> b[z] != EMPTY)
    && (forall t :: IsTile(t) ==> t in b)
  }

  /** `b` lists every tile exactly once: a shuffle of the created tiles. */
  ghost predicate IsShuffle(b: seq<int>) {
    multiset(b) == multiset(AllTiles())
  }

  /** A value that occurs at two positions of a sequence occurs at least twice in its multiset. */
  lemma TwiceInMultiset(b: seq<int>, i: nat, j: nat)
    requires i < j < |b| && b[i] == b[j]
    ensures multiset(b)[b[i]] >= 2
  {
    assert b == b[..j] + b[j..];
    assert b[i] in b[..j];
    assert b[j..][0] == b[i];
    assert multiset(b) == multiset(b[..j]) + multiset(b[j..]);
  }

  /** Each tile occurs exactly once among the created tiles. */
  lemma AllTilesOnce(t: int)
    requires IsTile(t)
    ensures multiset(AllTiles())[t] == 1
  {
    var s := AllTiles();
    assert s == s[..t] + [t] + s[t + 1..];
    assert t !in s[..t];
    assert t !in s[t + 1..];
    assert multiset(s) == multiset(s[..t]) + multiset{t} + multiset(s[t + 1..]);
  }

  /** Building the board from a shuffle of the tiles yields a complete board in which
      every tile sits in exactly one zone. */
  lemma ShuffleIsFull(b: seq<int>)
    requires IsShuffle(b)
    ensures Full(b)
  {
    assert |b| == |multiset(b)| == |multiset(AllTiles())| == ZONE_COUNT;
    forall z | 0 <= z < ZONE_COUNT
      ensures IsTile(b[z])
    {
      assert b[z] in multiset(AllTiles());
      var i :| 0 <= i < ZONE_COUNT && AllTiles()[i] == b[z];
    }
    forall t | IsTile(t)
      ensures t in b
    {
      assert AllTiles()[t] == t;
      assert t in multiset(b);
    }
    forall z, w | 0 <= z < w < ZONE_COUNT && b[z] != EMPTY
      ensures b[z] != b[w]
    {
      if b[z] == b[w] {
        TwiceInMultiset(b, z, w);
        AllTilesOnce(b[z]);
        assert false;
      }
    }
  }

  /** The zone a tile sits in (its parent node). */
  function ZoneOf(b: seq<int>, t: int): (z: nat)
    requires t in b
    ensures z < |b| && b[z] == t
  {
    if b[0] == t then 0 else 1 + ZoneOf(b[1..], t)
  }

  /** Moving `tile` onto `zone`. A missing tile or zone changes nothing. Otherwise,
      whatever the target zone holds moves to the tile's former zone (a swap when the
      target is occupied; the former zone becomes empty when it is not) and the tile
      takes the target zone. The tile is required to be on the board: every tile
      always has a parent zone. */
  function Placement(b: seq<int>, tile: int, zone: int): (r: seq<int>)
    requires ValidBoard(b)
    requires IsTile(tile) && IsZone(zone) ==> tile in b
    ensures ValidBoard(r)
    ensures multiset(r) == multiset(b)
  {
    if !IsTile(tile) || !IsZone(zone) then b
    else
      var origin := ZoneOf(b, tile);
      var existing := b[zone];
      if existing != EMPTY then b[origin := existing][zone := tile]
      else b[origin := EMPTY][zone := tile]
  }

  /** A placement with no tile or no zone is a no-op. */
  lemma PlacementMissing(b: seq<int>, tile: int, zone: int)
    requires ValidBoard(b)
    requires !IsTile(tile) || !IsZone(zone)
    ensures Placement(b, tile, zone) == b
  {
  }

  /** Dropping a tile on an occupied zone swaps the two tiles and leaves the other zones alone. */
  lemma PlacementSwaps(b: seq<int>, tile: int, zone: int, origin: int)
    requires ValidBoard(b) && IsTile(tile) && IsZone(zone) && IsZone(origin)
    requires b[origin] == tile && b[zone] != EMPTY
    ensures var r := Placement(b, tile, zone);
      && r[zone] == tile
      && r[origin] == b[zone]
      && forall w :: 0 <= w < ZONE_COUNT && w != zone && w != origin ==> r[w] == b[w]
  {
  }

  /** Dropping a tile on an empty zone relocates it there and empties its former zone. */
  lemma PlacementRelocates(b: seq<int>, tile: int, zone: int, origin: int)
    requires ValidBoard(b) && IsTile(tile) && IsZone(zone) && IsZone(origin)
    requires b[origin] == tile && b[zone] == EMPTY
    ensures var r := Placement(b, tile, zone);
      && r[zone] == tile
      && r[origin] == EMPTY
      && forall w :: 0 <= w < ZONE_COUNT && w != zone && w != origin ==> r[w] == b[w]
  {
  }

  /** Placement keeps a complete board complete. */
  lemma PlacementKeepsShuffle(b: seq<int>, tile: int, zone: int)
    requires IsShuffle(b) && Full(b)
    ensures IsShuffle(Placement(b, tile, zone)) && Full(Placement(b, tile, zone))
  {
  }

  /** Every zone holds the tile whose correctIndex is the zone's index. */
  predicate IsSolved(b: seq<int>)
    requires |b| == ZONE_COUNT
  {
    forall z :: 0 <= z < ZONE_COUNT ==> b[z] == z
  }

  /** The number of zones among the first `n` that hold their own tile;
      empty and mismatched zones do not count. */
  function CorrectCount(b: seq<int>, n: nat): (c: nat)
    requires n <= |b|
    ensures c <= n
  {
    if n == 0 then 0
    else CorrectCount(b, n - 1) + (if b[n - 1] == n - 1 then 1 else 0)
  }

  /** The count never exceeds the zones scanned and reaches it exactly when all of them are correct. */
  lemma {:induction false} CorrectCountFull(b: seq<int>, n: nat)
    requires n <= |b|
    ensures CorrectCount(b, n) <= n
    ensures CorrectCount(b, n) == n <==> forall z :: 0 <= z < n ==> b[z] == z
  {
    if n > 0 {
      CorrectCountFull(b, n - 1);
    }
  }

  /** The count is exactly the number of scanned zones that hold their own tile;
      an empty or mismatched zone adds nothing. */
  lemma {:induction false} CorrectCountIsSize(b: seq<int>, n: nat)
    requires n <= |b|
    ensures CorrectCount(b, n) == |set z | 0 <= z < n && b[z] == z|
  {
    if n > 0 {
      CorrectCountIsSize(b, n - 1);
      var before := set z | 0 <= z < n - 1 && b[z] == z;
      var after := set z | 0 <= z < n && b[z] == z;
      if b[n - 1] == n - 1 {
        assert after == before + {n - 1};
      } else {
        assert after == before;
      }
    }
  }

  /** The win check: all nine zones correct is exactly the solved board. */
  lemma WinIffSolved(b: seq<int>)
    requires |b| == ZONE_COUNT
    ensures CorrectCount(b, ZONE_COUNT) == ZONE_COUNT <==> IsSolved(b)
  {
    CorrectCountFull(b, ZONE_COUNT);
  }

  /** A board that is solved except for two zones holding each other's tiles is not won,
      and dropping either misplaced tile on its own zone wins it. */
  lemma SwapLastPairWins(b: seq<int>, i: int, j: int)
    requires |b| == ZONE_COUNT && IsZone(i) && IsZone(j) && i != j
    requires b[i] == j && b[j] == i
    requires forall z :: 0 <= z < ZONE_COUNT && z != i && z != j ==> b[z] == z
    ensures ValidBoard(b) && !IsSolved(b)
    ensures IsSolved(Placement(b, j, j)) && IsSolved(Placement(b, i, i))
  {
    assert ValidBoard(b);
    assert b[i] != i;
    PlacementSwaps(b, j, j, i);
    PlacementSwaps(b, i, i, j);
  }
}
