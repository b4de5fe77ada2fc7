/** Helpers shared by the map builders: carving rooms and tunnels into the
    tile grid, pruning floor that cannot be reached from the start, and
    grouping floor tiles into spawn regions. */
module MapCommon {
  import opened Ecs
  import opened Maps

  /** A rectangle of the map; a room carved from it spans the tiles strictly
      right of x1 and below y1, up to and including x2 and y2. */
  datatype Rect = Rect(x1: int, y1: int, x2: int, y2: int)

  /** Tile `i` lies in the carved interior of `room`. */
  predicate InRoom(room: Rect, width: int, i: int)
    requires width > 0
  {
    room.x1 < Col(width, i) <= room.x2 && room.y1 < Row(width, i) <= room.y2
  }

  /** The carved interior of `room` lies on the map (or is empty). */
  predicate RoomOnMap(room: Rect, width: int, height: int)
  {
    room.x2 <= room.x1 || room.y2 <= room.y1 ||
    (-1 <= room.x1 && room.x2 < width && -1 <= room.y1 && room.y2 < height)
  }

  /** Sets to Floor exactly the tiles inside the room; every other tile keeps
      its type. */
  method ApplyRoomToMap(m: Map, room: Rect)
    requires m.Valid() && RoomOnMap(room, m.width, m.height)
    modifies m.tiles
    ensures forall i :: 0 <= i < m.tiles.Length ==>
      m.tiles[i] == if InRoom(room, m.width, i) then Floor else old(m.tiles[i])
  {
    var w := m.width;
    var y := room.y1 + 1;
    while y <= room.y2
      invariant y == room.y1 + 1 || room.y1 + 1 <= y <= room.y2 + 1
      invariant forall i :: 0 <= i < m.tiles.Length ==>
        m.tiles[i] == if room.x1 < Col(w, i) <= room.x2 && room.y1 < Row(w, i) < y
                        then Floor else old(m.tiles[i])
    {
      var x := room.x1 + 1;
      while x <= room.x2
        invariant x == room.x1 + 1 || room.x1 + 1 <= x <= room.x2 + 1
        invariant forall i :: 0 <= i < m.tiles.Length ==>
          m.tiles[i] == if (room.x1 < Col(w, i) <= room.x2 && room.y1 < Row(w, i) < y)
                             || (Row(w, i) == y && room.x1 < Col(w, i) < x)
                          then Floor else old(m.tiles[i])
      {
        var idx := Idx(w, x, y);
        IdxInBounds(w, m.height, x, y);
        IdxCoords(w, x, y);
        forall i | 0 <= i < m.tiles.Length && Col(w, i) == x && Row(w, i) == y
          ensures i == idx
        {
          CoordsIdx(w, i);
        }
        m.tiles[idx] := Floor;
        x := x + 1;
      }
      y := y + 1;
    }
  }


  /** Sets Floor along row y from column min(x1, x2) to max(x1, x2)
      inclusive, skipping index 0 and any index past the end of the grid.
      The footprint depends only on the two endpoints as a pair, so it is
      the same whichever comes first. Columns outside the map carry over into
      the neighbouring row, as the row-major index does. */
  method ApplyHorizontalTunnel(m: Map, x1: int, x2: int, y: int)
    requires m.Valid()
    modifies m.tiles
    ensures forall i :: 0 <= i < m.tiles.Length ==>
      m.tiles[i] == if 0 < i && Min(x1, x2) <= i - y * m.width <= Max(x1, x2)
                      then Floor else old(m.tiles[i])
  {
    var x := Min(x1, x2);
    while x <= Max(x1, x2)
      invariant Min(x1, x2) <= x <= Max(x1, x2) + 1
      invariant forall i :: 0 <= i < m.tiles.Length ==>
        m.tiles[i] == if 0 < i && Min(x1, x2) <= i - y * m.width < x
                        then Floor else old(m.tiles[i])
    {
      var idx := Idx(m.width, x, y);
      if idx > 0 && idx < m.width * m.height {
        m.tiles[idx] := Floor;
      }
      x := x + 1;
    }
  }

  /** Tile `i` is on column x between rows lo and hi inclusive. */
  predicate OnColumn(width: int, i: int, x: int, lo: int, hi: int)
    requires width > 0
  {
    (i - x) % width == 0 && lo <= (i - x) / width <= hi
  }

  lemma OnColumnIdx(width: int, i: int, x: int, y: int)
    requires width > 0
    ensures (i - x) % width == 0 && (i - x) / width == y <==> i == Idx(width, x, y)
  {
    if i == Idx(width, x, y) {
      IdxCoords(width, 0, y);
      assert i - x == Idx(width, 0, y);
    }
    if (i - x) % width == 0 && (i - x) / width == y {
      CoordsIdx(width, i - x);
    }
  }

  /** The column analogue of `ApplyHorizontalTunnel`: Floor on column x from
      row min(y1, y2) to max(y1, y2) inclusive, with the same index guard. */
  method ApplyVerticalTunnel(m: Map, y1: int, y2: int, x: int)
    requires m.Valid()
    modifies m.tiles
    ensures forall i :: 0 <= i < m.tiles.Length ==>
      m.tiles[i] == if 0 < i && OnColumn(m.width, i, x, Min(y1, y2), Max(y1, y2))
                      then Floor else old(m.tiles[i])
  {
    var w := m.width;
    var y := Min(y1, y2);
    while y <= Max(y1, y2)
      invariant Min(y1, y2) <= y <= Max(y1, y2) + 1
      invariant forall i :: 0 <= i < m.tiles.Length ==>
        m.tiles[i] == if 0 < i && OnColumn(w, i, x, Min(y1, y2), y - 1)
                        then Floor else old(m.tiles[i])
    {
      var idx := Idx(w, x, y);
      forall i | 0 <= i < m.tiles.Length
        ensures OnColumn(w, i, x, Min(y1, y2), y) <==> OnColumn(w, i, x, Min(y1, y2), y - 1) || i == idx
      {
        OnColumnIdx(w, i, x, y);
      }
      if idx > 0 && idx < w * m.height {
        m.tiles[idx] := Floor;
      }
      y := y + 1;
    }
  }

  /** Tile j is floor with a finite distance from the start. */
  predicate Reached(tiles: seq<TileType>, dist: seq<Option<nat>>, j: int)
    requires |dist| == |tiles|
  {
    0 <= j < |tiles| && tiles[j] == Floor && dist[j].Some?
  }

  /** `k` is the exit the pruning pass picks: the reached floor tile of
      greatest distance, the lowest such index on a tie, or 0 when no reached
      floor tile is at a positive distance. */
  predicate IsMostDistant(tiles: seq<TileType>, dist: seq<Option<nat>>, k: nat)
    requires |dist| == |tiles|
  {
    if exists j :: 0 <= j < |tiles| && Reached(tiles, dist, j) && dist[j].value > 0 then
      Reached(tiles, dist, k) &&
      (forall j :: 0 <= j < |tiles| && Reached(tiles, dist, j) ==> dist[j].value <= dist[k].value) &&
      (forall j :: 0 <= j < k && Reached(tiles, dist, j) ==> dist[j].value < dist[k].value)
    else
      k == 0
  }

  /** Prunes every floor tile that has no finite distance from the start
      (`dist[i] == None` stands for rltk's `f32::MAX`) by turning it into
      Wall, and returns the exit: the most distant remaining floor tile. */
  method RemoveUnreachableAreasGetMostDistant(m: Map, dist: seq<Option<nat>>) returns (exit: nat)
    requires m.Valid() && |dist| == m.tiles.Length
    modifies m.tiles
    ensures forall i :: 0 <= i < m.tiles.Length ==>
      m.tiles[i] == if old(m.tiles[i]) == Floor && dist[i].None? then Wall else old(m.tiles[i])
    ensures forall i :: 0 <= i < m.tiles.Length && m.tiles[i] == Floor ==> dist[i].Some?
    ensures IsMostDistant(m.tiles[..], dist, exit)
  {
    var exitDistance: nat := 0;
    exit := 0;
    var i := 0;
    while i < m.tiles.Length
      invariant 0 <= i <= m.tiles.Length
      invariant forall j :: 0 <= j < m.tiles.Length ==>
        m.tiles[j] == if j < i && old(m.tiles[j]) == Floor && dist[j].None? then Wall else old(m.tiles[j])
      invariant exitDistance == 0 ==> exit == 0
      invariant exitDistance > 0 ==> exit < i && Reached(m.tiles[..], dist, exit) && dist[exit].value == exitDistance
      invariant forall j :: 0 <= j < i && Reached(m.tiles[..], dist, j) ==> dist[j].value <= exitDistance
      invariant forall j :: 0 <= j < exit && Reached(m.tiles[..], dist, j) ==> dist[j].value < exitDistance
    {
      if m.tiles[i] == Floor {
        match dist[i]
        case None =>
          m.tiles[i] := Wall;
        case Some(d) =>
          if d > exitDistance {
            exit := i;
            exitDistance := d;
          }
      }
      i := i + 1;
    }
    if exists j :: 0 <= j < m.tiles.Length && Reached(m.tiles[..], dist, j) && dist[j].value > 0 {
      assert exitDistance > 0;
    }
  }

  /** Tile (x, y) can host a spawn region: floor, and not on the map's
      outermost ring. */
  predicate SpawnTile(m: Map, x: int, y: int)
    requires m.Valid()
    reads m, m.tiles
  {
    1 <= x < m.width - 1 && 1 <= y < m.height - 1 &&
    (IdxInBounds(m.width, m.height, x, y);
     m.tiles[Idx(m.width, x, y)] == Floor)
  }

  /** Every list in `regions` ascends, holds only indices below `bound`, and
      each index in the list for `l` is a spawnable tile whose cellOf is `l`. */
  ghost predicate Grouped(m: Map, cellOf: (int, int) -> int, regions: map<int, seq<nat>>, bound: int)
    requires m.Valid()
    reads m, m.tiles
  {
    (forall l :: l in regions ==> StrictlyIncreasing(regions[l])) &&
    forall l, k :: l in regions && 0 <= k < |regions[l]| ==>
      var i := regions[l][k];
      i < bound &&
      SpawnTile(m, Col(m.width, i), Row(m.width, i)) && i == Idx(m.width, Col(m.width, i), Row(m.width, i)) &&
      cellOf(Col(m.width, i), Row(m.width, i)) == l
  }

  /** Every spawnable tile before (x, y) in row-major order is in the list of
      its own cellOf. */
  ghost predicate Covers(m: Map, cellOf: (int, int) -> int, regions: map<int, seq<nat>>, x: int, y: int)
    requires m.Valid()
    reads m, m.tiles
  {
    forall x', y' :: (y' < y || (y' == y && x' < x)) && SpawnTile(m, x', y') ==>
      cellOf(x', y') in regions && Idx(m.width, x', y') in regions[cellOf(x', y')]
  }

  /** The regions after visiting tile (x, y): a floor tile is appended to the
      list of its cellOf. */
  function Visit(m: Map, cellOf: (int, int) -> int, regions: map<int, seq<nat>>, x: int, y: int): map<int, seq<nat>>
    requires m.Valid() && 1 <= x < m.width - 1 && 1 <= y < m.height - 1
    reads m, m.tiles
  {
    IdxInBounds(m.width, m.height, x, y);
    var idx := Idx(m.width, x, y);
    if m.tiles[idx] == Floor then
      var l := cellOf(x, y);
      regions[l := (if l in regions then regions[l] else []) + [idx]]
    else regions
  }

  /** Visiting (x, y) keeps the grouping and extends the coverage by one tile. */
  lemma VisitStep(m: Map, cellOf: (int, int) -> int, regions: map<int, seq<nat>>, x: int, y: int)
    requires m.Valid() && 1 <= x < m.width - 1 && 1 <= y < m.height - 1
    requires Grouped(m, cellOf, regions, Idx(m.width, x, y)) && Covers(m, cellOf, regions, x, y)
    ensures Grouped(m, cellOf, Visit(m, cellOf, regions, x, y), Idx(m.width, x + 1, y))
    ensures Covers(m, cellOf, Visit(m, cellOf, regions, x, y), x + 1, y)
  {
    IdxInBounds(m.width, m.height, x, y);
    IdxCoords(m.width, x, y);
  }

  /** Groups the spawnable floor tiles by the cellOf the noise field gives
      them (`cellOf` stands for the cellular noise sample, truncated to an
      integer). Each spawnable tile lands in the list of its own cellOf and in
      no other; no wall or border tile lands anywhere; each list ascends in
      row-major order. */
  method GenerateVoronoiSpawnRegions(m: Map, cellOf: (int, int) -> int) returns (regions: map<int, seq<nat>>)
    requires m.Valid()
    ensures forall l :: l in regions ==> StrictlyIncreasing(regions[l])
    ensures forall l, k :: l in regions && 0 <= k < |regions[l]| ==>
      var i := regions[l][k];
      SpawnTile(m, Col(m.width, i), Row(m.width, i)) &&
      i == Idx(m.width, Col(m.width, i), Row(m.width, i)) &&
      cellOf(Col(m.width, i), Row(m.width, i)) == l
    ensures forall x, y :: SpawnTile(m, x, y) ==>
      cellOf(x, y) in regions && Idx(m.width, x, y) in regions[cellOf(x, y)]
  {
    var w, h := m.width, m.height;
    regions := map[];
    var y := 1;
    while y < h - 1
      invariant 1 <= y && (y <= h - 1 || y == 1)
      invariant Grouped(m, cellOf, regions, Idx(w, 1, y)) && Covers(m, cellOf, regions, 1, y)
    {
      var x := 1;
      while x < w - 1
        invariant 1 <= x && (x <= w - 1 || x == 1)
        invariant Grouped(m, cellOf, regions, Idx(w, x, y)) && Covers(m, cellOf, regions, x, y)
      {
        VisitStep(m, cellOf, regions, x, y);
        var idx := Idx(w, x, y);
        IdxInBounds(w, h, x, y);
        if m.tiles[idx] == Floor {
          var l := cellOf(x, y);
          var old_list := if l in regions then regions[l] else [];
          regions := regions[l := old_list + [idx]];
        }
        x := x + 1;
      }
      NextRow(m, cellOf, regions, x, y);
      y := y + 1;
    }
  }

  /** The end of row y is the start of row y + 1. */
  lemma NextRow(m: Map, cellOf: (int, int) -> int, regions: map<int, seq<nat>>, x: int, y: int)
    requires m.Valid() && 1 <= x && (x == m.width - 1 || (x == 1 && m.width <= 2))
    requires Grouped(m, cellOf, regions, Idx(m.width, x, y)) && Covers(m, cellOf, regions, x, y)
    ensures Grouped(m, cellOf, regions, Idx(m.width, 1, y + 1)) && Covers(m, cellOf, regions, 1, y + 1)
  {
  }
}
