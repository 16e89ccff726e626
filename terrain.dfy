// The terrain of a map: a width x height grid of tiles and a collision map
// of the same size that records, per cell, whether its tile blocks movement.
//
// The tile classes are not part of this model: a tile is any value of the
// type parameter, `IsCollideable` is given at construction, and so is the
// floor tile that construction puts in every cell.

module Terrain {

  /** The collision map: one byte per cell, TRUE where the tile collides. */
  class ByteMap {
    static const TRUE: bv8 := 1
    static const FALSE: bv8 := 0

    const Width: nat
    const Height: nat
    const Bytes: array2<bv8>

    constructor (width: nat, height: nat)
      ensures Width == width && Height == height
      ensures Bytes.Length0 == width && Bytes.Length1 == height
      ensures fresh(Bytes)
    {
      Width, Height := width, height;
      Bytes := new bv8[width, height];
    }
  }

  /** The byte the collision map holds for a tile. */
  function CollisionByte<Tile>(isCollideable: Tile -> bool, t: Tile): (b: bv8)
    ensures b == ByteMap.TRUE <==> isCollideable(t)
    ensures b == ByteMap.FALSE <==> !isCollideable(t)
  {
    if isCollideable(t) then ByteMap.TRUE else ByteMap.FALSE
  }

  class Terrain<Tile(0)> {
    const IsCollideable: Tile -> bool
    const width: nat
    const height: nat
    const tiles: array2<Tile>
    const collisionMap: ByteMap

    /** Both grids have the terrain's dimensions and are distinct arrays. */
    ghost predicate Shaped() {
      && tiles.Length0 == width && tiles.Length1 == height
      && collisionMap.Width == width && collisionMap.Height == height
      && collisionMap.Bytes.Length0 == width && collisionMap.Bytes.Length1 == height
      && tiles as object != collisionMap.Bytes as object
    }

    /** Every byte of the collision map is the one its tile calls for. */
    ghost predicate Valid()
      reads tiles, collisionMap.Bytes
    {
      && Shaped()
      && forall i, j :: 0 <= i < width && 0 <= j < height ==>
           collisionMap.Bytes[i, j] == CollisionByte(IsCollideable, tiles[i, j])
    }

    /** Builds a terrain whose every cell holds the floor tile. */
    constructor (width: nat, height: nat, floor: Tile, isCollideable: Tile -> bool)
      ensures this.width == width && this.height == height
      ensures IsCollideable == isCollideable
      ensures Valid()
      ensures forall i, j :: 0 <= i < width && 0 <= j < height ==> tiles[i, j] == floor
      ensures fresh(tiles) && fresh(collisionMap) && fresh(collisionMap.Bytes)
    {
      IsCollideable := isCollideable;
      this.width, this.height := width, height;
      tiles := new Tile[width, height];
      collisionMap := new ByteMap(width, height);
      new;
      var i := 0;
      while i < tiles.Length0
        invariant 0 <= i <= width
        invariant forall a, b :: 0 <= a < i && 0 <= b < height ==> tiles[a, b] == floor
      {
        var j := 0;
        while j < tiles.Length1
          invariant 0 <= j <= height
          invariant forall a, b :: 0 <= a < i && 0 <= b < height ==> tiles[a, b] == floor
          invariant forall b :: 0 <= b < j ==> tiles[i, b] == floor
        {
          tiles[i, j] := floor;
          j := j + 1;
        }
        i := i + 1;
      }
      GenerateCollisionMap();
    }

    /** Recomputes every byte of the collision map from the tile grid. */
    method GenerateCollisionMap()
      requires Shaped()
      modifies collisionMap.Bytes
      ensures Valid()
    {
      var bytes := collisionMap.Bytes;
      var i := 0;
      while i < collisionMap.Width
        invariant 0 <= i <= width
        invariant forall a, b :: 0 <= a < i && 0 <= b < height ==>
                    bytes[a, b] == CollisionByte(IsCollideable, tiles[a, b])
      {
        var j := 0;
        while j < collisionMap.Height
          invariant 0 <= j <= height
          invariant forall a, b :: 0 <= a < i && 0 <= b < height ==>
                      bytes[a, b] == CollisionByte(IsCollideable, tiles[a, b])
          invariant forall b :: 0 <= b < j ==> bytes[i, b] == CollisionByte(IsCollideable, tiles[i, b])
        {
          if IsCollideable(tiles[i, j]) {
            bytes[i, j] := ByteMap.TRUE;
          } else {
            bytes[i, j] := ByteMap.FALSE;
          }
          j := j + 1;
        }
        i := i + 1;
      }
    }

    /**
     * Puts `tile` at (x, y) and regenerates the collision map. Coordinates
     * outside the grid fault on the array write, before anything changes.
     */
    method SetTile(tile: Tile, x: int, y: int) returns (faulted: bool)
      requires Valid()
      modifies tiles, collisionMap.Bytes
      ensures Valid()
      ensures faulted <==> !(0 <= x < width && 0 <= y < height)
      ensures faulted ==> unchanged(tiles) && unchanged(collisionMap.Bytes)
      ensures forall i, j :: 0 <= i < width && 0 <= j < height ==>
                tiles[i, j] == if i == x && j == y then tile else old(tiles[i, j])
    {
      if !(0 <= x < tiles.Length0 && 0 <= y < tiles.Length1) {
        return true;
      }
      tiles[x, y] := tile;
      GenerateCollisionMap();
      return false;
    }

    function GetWidth(): (w: int)
      requires Shaped()
      ensures w == width
    {
      tiles.Length0
    }

    function GetHeight(): (h: int)
      requires Shaped()
      ensures h == height
    {
      tiles.Length1
    }
  }
}
