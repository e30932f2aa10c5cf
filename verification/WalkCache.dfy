/**
 A creature's cache of which tiles around it can be walked on: recomputed in
 full, or shifted in place and refilled along its edges after a step.
 */
module WalkCache {
  import opened Common

  const MAX_WIDTH := 11
  const MAX_HEIGHT := 11
  const WIDTH := 23   // 2 * MAX_WIDTH + 1
  const HEIGHT := 23  // 2 * MAX_HEIGHT + 1

  type Walk = (int, int) -> bool

  predicate InGrid(r: int, c: int) {
    0 <= r < HEIGHT && 0 <= c < WIDTH
  }

  /** What cell `r`, `c` should hold when the middle cell is the tile at `atX`, `atY`. */
  function Tile(walk: Walk, atX: int, atY: int, r: int, c: int): bool {
    walk(atX + c - MAX_WIDTH, atY + r - MAX_HEIGHT)
  }

  function OnlyTile(tileX: int, tileY: int): Walk {
    (x, y) => x == tileX && y == tileY
  }

  class Creature {
    const cache: array2<bool>
    var x: int
    var y: int

    constructor (x: int, y: int)
      ensures fresh(cache) && Valid() && this.x == x && this.y == y
    {
      cache := new bool[HEIGHT, WIDTH]((r, c) => false);
      this.x := x;
      this.y := y;
    }

    predicate Valid() {
      cache.Length0 == HEIGHT && cache.Length1 == WIDTH
    }

    /** The cache is what a full recomputation would give, but for the creature's own tile. */
    ghost predicate Fresh(walk: Walk)
      requires Valid()
      reads this, cache
    {
      forall r, c :: InGrid(r, c) && (r != MAX_HEIGHT || c != MAX_WIDTH) ==>
        cache[r, c] == Tile(walk, x, y, r, c)
    }

    /** Sets the cell for the tile at an offset, if there is one. */
    method UpdateTileCache(walkable: bool, dx: int, dy: int)
      requires Valid()
      modifies cache
      ensures forall r, c :: InGrid(r, c) ==>
                cache[r, c] == if r == MAX_HEIGHT + dy && c == MAX_WIDTH + dx then walkable else old(cache[r, c])
    {
      if Abs(dx) <= MAX_WIDTH && Abs(dy) <= MAX_HEIGHT {
        cache[MAX_HEIGHT + dy, MAX_WIDTH + dx] := walkable;
      }
    }

    method FillRow(dy: int, walk: Walk)
      requires Valid()
      modifies cache
      ensures forall r, c :: InGrid(r, c) ==>
                cache[r, c] == if r == MAX_HEIGHT + dy then Tile(walk, x, y, r, c) else old(cache[r, c])
    {
      for dx := -MAX_WIDTH to MAX_WIDTH + 1
        invariant forall r, c :: InGrid(r, c) ==>
                    cache[r, c] == if r == MAX_HEIGHT + dy && c < MAX_WIDTH + dx then Tile(walk, x, y, r, c) else old(cache[r, c])
      {
        UpdateTileCache(walk(x + dx, y + dy), dx, dy);
      }
    }

    method FillColumn(dx: int, walk: Walk)
      requires Valid()
      modifies cache
      ensures forall r, c :: InGrid(r, c) ==>
                cache[r, c] == if c == MAX_WIDTH + dx then Tile(walk, x, y, r, c) else old(cache[r, c])
    {
      for dy := -MAX_HEIGHT to MAX_HEIGHT + 1
        invariant forall r, c :: InGrid(r, c) ==>
                    cache[r, c] == if c == MAX_WIDTH + dx && r < MAX_HEIGHT + dy then Tile(walk, x, y, r, c) else old(cache[r, c])
      {
        UpdateTileCache(walk(x + dx, y + dy), dx, dy);
      }
    }

    /** The full recomputation. */
    method UpdateMapCache(walk: Walk)
      requires Valid()
      modifies cache
      ensures Fresh(walk) && cache[MAX_HEIGHT, MAX_WIDTH] == walk(x, y)
    {
      for dy := -MAX_HEIGHT to MAX_HEIGHT + 1
        invariant forall r, c :: InGrid(r, c) && r < MAX_HEIGHT + dy ==> cache[r, c] == Tile(walk, x, y, r, c)
      {
        FillRow(dy, walk);
      }
    }

    method CopyRow(target: int, source: int)
      requires Valid() && 0 <= target < HEIGHT && 0 <= source < HEIGHT
      modifies cache
      ensures forall r, c :: InGrid(r, c) ==>
                cache[r, c] == old(cache[if r == target then source else r, c])
    {
      forall c | 0 <= c < WIDTH {
        cache[target, c] := cache[source, c];
      }
    }

    /** Moves every row one down, from the bottom up. */
    method ShiftSouth()
      requires Valid()
      modifies cache
      ensures forall r, c :: InGrid(r, c) && r >= 1 ==> cache[r, c] == old(cache[r - 1, c])
    {
      for row := HEIGHT - 1 downto 0
        invariant forall r, c :: InGrid(r, c) ==>
                    cache[r, c] == old(cache[if r > row then r - 1 else r, c])
      {
        CopyRow(row + 1, row);
      }
    }

    /** Moves every row one up, from the top down. */
    method ShiftNorth()
      requires Valid()
      modifies cache
      ensures forall r, c :: InGrid(r, c) && r < HEIGHT - 1 ==> cache[r, c] == old(cache[r + 1, c])
    {
      for row := 0 to HEIGHT - 1
        invariant forall r, c :: InGrid(r, c) ==>
                    cache[r, c] == old(cache[if r < row then r + 1 else r, c])
      {
        CopyRow(row, row + 1);
      }
    }

    /** Moves the cells of the rows from `startY` on one to the left. */
    method ShiftWest(startY: nat)
      requires Valid() && startY <= HEIGHT
      modifies cache
      ensures forall r, c :: InGrid(r, c) && c < WIDTH - 1 ==>
                cache[r, c] == old(cache[r, if r >= startY then c + 1 else c])
    {
      for row := startY to HEIGHT
        invariant forall r, c :: InGrid(r, c) && c < WIDTH - 1 ==>
                    cache[r, c] == old(cache[r, if startY <= r < row then c + 1 else c])
        invariant forall r, c :: InGrid(r, c) && r >= row ==> cache[r, c] == old(cache[r, c])
      {
        ShiftRowWest(row);
      }
    }

    method ShiftRowWest(row: nat)
      requires Valid() && row < HEIGHT
      modifies cache
      ensures forall r, c :: InGrid(r, c) && (r != row || c < WIDTH - 1) ==>
                cache[r, c] == old(cache[r, if r == row then c + 1 else c])
    {
      for col := 0 to WIDTH - 1
        invariant forall r, c :: InGrid(r, c) && r == row && c < col ==> cache[r, c] == old(cache[r, c + 1])
        invariant forall r, c :: InGrid(r, c) && (r != row || c >= col) ==> cache[r, c] == old(cache[r, c])
      {
        cache[row, col] := cache[row, col + 1];
      }
    }

    /** Moves the cells of the rows from `startY` on one to the right. */
    method ShiftEast(startY: nat)
      requires Valid() && startY <= HEIGHT
      modifies cache
      ensures forall r, c :: InGrid(r, c) && c >= 1 ==>
                cache[r, c] == old(cache[r, if r >= startY then c - 1 else c])
    {
      for row := startY to HEIGHT
        invariant forall r, c :: InGrid(r, c) && c >= 1 ==>
                    cache[r, c] == old(cache[r, if startY <= r < row then c - 1 else c])
        invariant forall r, c :: InGrid(r, c) && r >= row ==> cache[r, c] == old(cache[r, c])
      {
        ShiftRowEast(row);
      }
    }

    method ShiftRowEast(row: nat)
      requires Valid() && row < HEIGHT
      modifies cache
      ensures forall r, c :: InGrid(r, c) && (r != row || c >= 1) ==>
                cache[r, c] == old(cache[r, if r == row then c - 1 else c])
    {
      for col := WIDTH - 1 downto 0
        invariant forall r, c :: InGrid(r, c) && r == row && c > col ==> cache[r, c] == old(cache[r, c - 1])
        invariant forall r, c :: InGrid(r, c) && (r != row || c <= col) ==> cache[r, c] == old(cache[r, c])
      {
        cache[row, col + 1] := cache[row, col];
      }
    }

    /**
     The cell shows the tile it should when its row's middle is at `atX`; the tiles left
     and entered are still open.
     */
    ghost predicate Shows(r: int, c: int, atX: int, oldX: int, oldY: int, walk: Walk)
      requires Valid() && InGrid(r, c)
      reads this, cache
    {
      var tileX, tileY := atX + c - MAX_WIDTH, y + r - MAX_HEIGHT;
      (tileX == oldX && tileY == oldY) || (tileX == x && tileY == y) || cache[r, c] == Tile(walk, atX, y, r, c)
    }

    /** What the cache held before a step from `oldX`, `oldY`. */
    ghost predicate Held(oldX: int, oldY: int, walk: Walk)
      requires Valid()
      reads this, cache
    {
      forall r, c :: InGrid(r, c) && (r != MAX_HEIGHT || c != MAX_WIDTH) ==>
        (oldX + c - MAX_WIDTH == x && oldY + r - MAX_HEIGHT == y) || cache[r, c] == Tile(walk, oldX, oldY, r, c)
    }

    /** Where the middle of row `r` is once the rows have moved: a row just filled in is ahead of the others. */
    ghost function Ahead(r: int, oldX: int, oldY: int): int
      reads this
    {
      if (y < oldY && r == 0) || (y > oldY && r == HEIGHT - 1) then x else oldX
    }

    /** A step north or south: the rows move, and the new edge row is filled in. */
    method ShiftRows(oldX: int, oldY: int, walk: Walk)
      requires Valid() && Held(oldX, oldY, walk) && Abs(y - oldY) <= 1
      modifies cache
      ensures forall r, c :: InGrid(r, c) ==> Shows(r, c, Ahead(r, oldX, oldY), oldX, oldY, walk)
    {
      if oldY > y {
        ShiftSouth();
        FillRow(-MAX_HEIGHT, walk);
      } else if oldY < y {
        ShiftNorth();
        FillRow(MAX_HEIGHT, walk);
      }
    }

    /**
     Where the middle of row `r` is after a step of `dx`, `dy`: the outermost rows are off
     after south-east and south-west.
     */
    ghost function Middle(r: int, dx: int, dy: int): int
      reads this
    {
      if dx != 0 && dy > 0 && r == 0 then x - dx else if dx != 0 && dy > 0 && r == HEIGHT - 1 then x + dx else x
    }

    ghost predicate Edge(c: int, dx: int) {
      (dx > 0 && c == WIDTH - 1) || (dx < 0 && c == 0)
    }

    /** A step east or west: the cells of each row move, and the new edge column is filled in. */
    method ShiftColumns(oldX: int, oldY: int, walk: Walk)
      requires Valid() && Abs(x - oldX) <= 1 && Abs(y - oldY) <= 1
      requires forall r, c :: InGrid(r, c) ==> Shows(r, c, Ahead(r, oldX, oldY), oldX, oldY, walk)
      modifies cache
      ensures forall r, c :: InGrid(r, c) ==> Shows(r, c, MiddleOf(r, c, oldX, oldY), oldX, oldY, walk)
    {
      var dy := Abs(y - oldY);
      var startY := if dy > 0 then dy else 0;
      Slide(x - oldX, startY, walk);
      forall r, c | InGrid(r, c) ensures Shows(r, c, MiddleOf(r, c, oldX, oldY), oldX, oldY, walk) {
        if !Edge(c, x - oldX) {
          var from := if r >= startY then c + x - oldX else c;
          assert old(Shows(r, from, Ahead(r, oldX, oldY), oldX, oldY, walk));
          assert cache[r, c] == old(cache[r, from]);
        }
      }
    }

    method Slide(dx: int, startY: nat, walk: Walk)
      requires Valid() && Abs(dx) <= 1 && startY <= 1
      modifies cache
      ensures forall r, c :: InGrid(r, c) && Edge(c, dx) ==> cache[r, c] == Tile(walk, x, y, r, c)
      ensures forall r, c :: InGrid(r, c) && !Edge(c, dx) ==>
                cache[r, c] == old(cache[r, if r >= startY then c + dx else c])
    {
      if dx > 0 {
        ShiftWest(startY);
        assert forall r, c :: InGrid(r, c) && c < WIDTH - 1 ==> cache[r, c] == old(cache[r, if r >= startY then c + dx else c]);
        FillColumn(MAX_WIDTH, walk);
      } else if dx < 0 {
        ShiftEast(startY);
        assert forall r, c :: InGrid(r, c) && c >= 1 ==> cache[r, c] == old(cache[r, if r >= startY then c + dx else c]);
        FillColumn(-MAX_WIDTH, walk);
      }
    }

    ghost function MiddleOf(r: int, c: int, oldX: int, oldY: int): int
      reads this
    {
      if Edge(c, x - oldX) then x else Middle(r, x - oldX, y - oldY)
    }

    /** Once the tile left behind is seen to, only the middle cell and skewed rows can be wrong. */
    lemma AfterMove(oldX: int, oldY: int, walk: Walk)
      requires Valid() && Abs(x - oldX) <= 1 && Abs(y - oldY) <= 1
      requires forall r, c :: InGrid(r, c) ==> Shows(r, c, MiddleOf(r, c, oldX, oldY), oldX, oldY, walk)
      requires cache[MAX_HEIGHT + oldY - y, MAX_WIDTH + oldX - x] == walk(oldX, oldY)
      ensures x == oldX || y <= oldY ==> Fresh(walk)
      ensures x != oldX && y > oldY ==> (Fresh(walk) <==> EvenLines(x - oldX, walk))
    {
      var dx := x - oldX;
      if x == oldX || y <= oldY || EvenLines(dx, walk) {
        forall r, c | InGrid(r, c) && (r != MAX_HEIGHT || c != MAX_WIDTH) ensures cache[r, c] == Tile(walk, x, y, r, c) {
          assert Shows(r, c, MiddleOf(r, c, oldX, oldY), oldX, oldY, walk);
        }
      } else {
        var c :| 0 <= c < WIDTH && !Edge(c, dx) && !EvenAt(c, dx, walk);
        assert InGrid(0, c) && InGrid(HEIGHT - 1, c);
        assert MiddleOf(0, c, oldX, oldY) == x - dx && MiddleOf(HEIGHT - 1, c, oldX, oldY) == x + dx;
        assert Shows(0, c, x - dx, oldX, oldY, walk) && Shows(HEIGHT - 1, c, x + dx, oldX, oldY, walk);
        assert cache[0, c] != Tile(walk, x, y, 0, c) || cache[HEIGHT - 1, c] != Tile(walk, x, y, HEIGHT - 1, c);
      }
    }

    ghost predicate EvenAt(c: int, dx: int, walk: Walk)
      reads this
    {
      && Tile(walk, x - dx, y, 0, c) == Tile(walk, x, y, 0, c)
      && Tile(walk, x + dx, y, HEIGHT - 1, c) == Tile(walk, x, y, HEIGHT - 1, c)
    }

    /**
     The tiles on which a skewed cache is wrong are the two outermost lines: it is right
     where they do not change along x.
     */
    ghost predicate EvenLines(dx: int, walk: Walk)
      reads this
    {
      forall c :: 0 <= c < WIDTH && !Edge(c, dx) ==> EvenAt(c, dx, walk)
    }

    method ShiftAll(oldX: int, oldY: int, walk: Walk)
      requires Valid() && Held(oldX, oldY, walk) && Abs(x - oldX) <= 1 && Abs(y - oldY) <= 1
      modifies cache
      ensures forall r, c :: InGrid(r, c) ==> Shows(r, c, MiddleOf(r, c, oldX, oldY), oldX, oldY, walk)
      ensures cache[MAX_HEIGHT + oldY - y, MAX_WIDTH + oldX - x] == walk(oldX, oldY)
    {
      ShiftRows(oldX, oldY, walk);
      ShiftColumns(oldX, oldY, walk);
      UpdateTileCache(walk(oldX, oldY), oldX - x, oldY - y);
    }

    /**
     The creature has moved: after a one-tile step the cache is shifted in place.
     It is then what a full recomputation gives, except that a step south-east or
     south-west leaves the first and last row off by one tile.
     */
    method OnCreatureMove(oldX: int, oldY: int, teleport: bool, walk: Walk)
      requires Valid()
      requires !teleport ==> Held(oldX, oldY, walk) && Abs(x - oldX) <= 1 && Abs(y - oldY) <= 1
      modifies cache
      ensures teleport || x == oldX || y <= oldY ==> Fresh(walk)
      ensures !teleport && x != oldX && y > oldY ==> (Fresh(walk) <==> EvenLines(x - oldX, walk))
    {
      if teleport {
        UpdateMapCache(walk);
      } else {
        ShiftAll(oldX, oldY, walk);
        AfterMove(oldX, oldY, walk);
      }
    }

    /** With one walkable tile in the corner of the view, a step south-east leaves the cache wrong. */
    lemma SouthEastCanFail(walk: Walk)
      requires walk == OnlyTile(x - MAX_WIDTH, y - MAX_HEIGHT)
      ensures !EvenLines(1, walk)
    {
      assert !EvenAt(0, 1, walk);
    }

    /** Asks the cache about a tile: 1 for walkable, 0 for not, 2 when it cannot tell. */
    method GetWalkCache(tileX: int, tileY: int, sameFloor: bool, useCache: bool, ghost walk: Walk) returns (answer: int)
      requires Valid() && Fresh(walk)
      ensures answer == if !useCache then 2 else if !sameFloor then 0 else if tileX == x && tileY == y then 1
                        else if Abs(tileX - x) > MAX_WIDTH || Abs(tileY - y) > MAX_HEIGHT then 2
                        else if walk(tileX, tileY) then 1 else 0
    {
      if !useCache {
        return 2;
      }
      if !sameFloor {
        return 0;
      }
      if tileX == x && tileY == y {
        return 1;
      }
      var dx, dy := tileX - x, tileY - y;
      if Abs(dx) <= MAX_WIDTH {
        if Abs(dy) <= MAX_HEIGHT {
          answer := if cache[MAX_HEIGHT + dy, MAX_WIDTH + dx] then 1 else 0;
          return;
        }
      }
      answer := 2;
    }
  }
}
