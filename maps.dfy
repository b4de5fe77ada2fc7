/** The dungeon map: a row-major grid of tiles with a per-tile list of the
    entities standing on each tile. */
module Maps {
  import opened Ecs

  datatype TileType = Wall | Floor

  /** The row-major index of tile (x, y) on a map `width` tiles wide
      (`Map::xy_idx`). */
  function Idx(width: int, x: int, y: int): int
  {
    y * width + x
  }

  /** Column and row of a tile index. */
  function Col(width: int, i: int): int
    requires width > 0
  {
    i % width
  }

  function Row(width: int, i: int): int
    requires width > 0
  {
    i / width
  }

  lemma IdxInBounds(width: int, height: int, x: int, y: int)
    requires 0 <= x < width && 0 <= y < height
    ensures 0 <= Idx(width, x, y) < width * height
  {
    assert y * width <= (height - 1) * width by {
      MulLeft(height - 1 - y, width);
    }
  }

  lemma MulLeft(a: int, b: int)
    requires a >= 0 && b >= 0
    ensures a * b >= 0
  {
  }

  lemma {:induction false} MulAtLeast(k: int, b: int)
    requires k >= 1 && b > 0
    ensures k * b >= b
    decreases k
  {
    if k > 1 {
      MulAtLeast(k - 1, b);
      assert k * b == (k - 1) * b + b;
    }
  }

  /** A non-zero multiple of a positive `b` is at least `b` away from 0. */
  lemma MulSign(k: int, b: int)
    requires b > 0
    ensures k >= 1 ==> k * b >= b
    ensures k <= -1 ==> k * b <= -b
  {
    if k >= 1 {
      MulAtLeast(k, b);
    } else if k <= -1 {
      MulAtLeast(-k, b);
      assert k * b == -((-k) * b);
    }
  }

  /** Within a row, index and coordinates determine each other. */
  lemma IdxCoords(width: int, x: int, y: int)
    requires 0 <= x < width
    ensures Col(width, Idx(width, x, y)) == x && Row(width, Idx(width, x, y)) == y
  {
    var i := Idx(width, x, y);
    var q, r := i / width, i % width;
    assert i == q * width + r && 0 <= r < width;
    assert (q - y) * width == x - r;
    MulSign(q - y, width);
  }

  lemma CoordsIdx(width: int, i: int)
    requires width > 0
    ensures Idx(width, Col(width, i), Row(width, i)) == i
    ensures 0 <= Col(width, i) < width
  {
  }

  class Map {
    const width: int
    const height: int
    /** The tile grid, `width * height` tiles in row-major order. */
    const tiles: array<TileType>
    /** For each tile, the entities standing on it, as the indexing pass
        last recorded them. */
    var tileContent: seq<seq<Entity>>

    predicate Valid()
      reads this
    {
      0 < width && 0 < height &&
      tiles.Length == width * height &&
      |tileContent| == width * height
    }
  }
}
