/**
 * A creature's cache of the tiles around it that it can walk on (src/creature.cpp).  A
 * step shifts the cache and reads only the tiles that come into sight.
 */
module WalkCache {
  import opened Basics

  /** Whether the creature could enter a tile; there may be no tile at all. */
  type World = Position -> bool

  const VIEWPORT := 11
  const SIZE := 2 * VIEWPORT + 1

  predicate InCache(r: int, c: int) {
    0 <= r < SIZE && 0 <= c < SIZE
  }

  /** The position behind a cell. */
  function At(pos: Position, r: int, c: int): Position {
    Position(pos.x + c - VIEWPORT, pos.y + r - VIEWPORT, pos.z)
  }

  // ---------------------------------------------------------------------------------
  // Where a cell's content comes from
  // ---------------------------------------------------------------------------------

  /** A cell is read anew, as the tile behind some cell, or holds what some cell held before the step. */
  datatype Source = Read(r: int, c: int) | Kept(r: int, c: int)

  function AfterRows(dy: int, r: int, c: int): Source {
    if dy < 0 then (if r == 0 then Read(r, c) else Kept(r - 1, c))
    else if dy > 0 then (if r == SIZE - 1 then Read(r, c) else Kept(r + 1, c))
    else Kept(r, c)
  }

  /** The distance between the two rows is never negative: always the first rows are spared. */
  function AfterColumns(dx: int, dy: int, r: int, c: int): Source {
    if dx > 0 then (if c == SIZE - 1 then Read(r, c) else if r >= Abs(dy) then AfterRows(dy, r, c + 1) else AfterRows(dy, r, c))
    else if dx < 0 then (if c == 0 then Read(r, c) else if r >= Abs(dy) then AfterRows(dy, r, c - 1) else AfterRows(dy, r, c))
    else AfterRows(dy, r, c)
  }

  /** The tile that the creature has left is read last. */
  function SourceOf(dx: int, dy: int, r: int, c: int): Source {
    if r == VIEWPORT - dy && c == VIEWPORT - dx then Read(r, c) else AfterColumns(dx, dy, r, c)
  }

  /** A cell is right if it is read, or kept from the cell that showed the same tile. */
  predicate RightCell(dx: int, dy: int, r: int, c: int) {
    var s := SourceOf(dx, dy, r, c);
    s == Read(r, c) || s == Kept(r + dy, c + dx)
  }

  predicate SouthDiagonal(dx: int, dy: int) {
    dy > 0 && dx != 0
  }

  /** The steps after which the whole cache is right. */
  predicate GoodStep(dx: int, dy: int) {
    Abs(dx) <= 1 && Abs(dy) <= 1 && !SouthDiagonal(dx, dy)
  }

  lemma GoodStepIsRight(dx: int, dy: int, r: int, c: int)
    requires GoodStep(dx, dy) && InCache(r, c)
    ensures RightCell(dx, dy, r, c)
    ensures SourceOf(dx, dy, r, c).Kept? ==> InCache(r + dy, c + dx)
  {
  }

  /** After a step to the south-east or south-west only the first and the last row can be wrong. */
  lemma SouthDiagonalIsRightBetween(dx: int, r: int, c: int)
    requires Abs(dx) == 1 && InCache(r, c)
    ensures RightCell(dx, 1, r, c) <==> (0 < r < SIZE - 1 || c == (if dx > 0 then SIZE - 1 else 0))
  {
  }

  /** A cell other than the creature's own that a step gets wrong. */
  lemma WrongCell(dx: int, dy: int) returns (r: int, c: int)
    requires !GoodStep(dx, dy)
    ensures InCache(r, c) && (r, c) != (VIEWPORT, VIEWPORT) && !RightCell(dx, dy, r, c)
  {
    if Abs(dx) <= 1 && Abs(dy) <= 1 {
      r, c := 0, 5;
    } else if Abs(dy) > 1 {
      r, c := 5, if dx == 0 && VIEWPORT - dy == 5 then 6 else 5;
      if r == VIEWPORT - dy && c == VIEWPORT - dx {
        c := 6;
      }
    } else {
      r := 5;
      c := if VIEWPORT - dx == 5 then 6 else 5;
    }
  }

  // ---------------------------------------------------------------------------------
  // Right for every world
  // ---------------------------------------------------------------------------------

  /** What a cell held before the step, if all but the creature's own were right. */
  function Before(w: World, pos: Position, own: bool, r: int, c: int): bool {
    if r == VIEWPORT && c == VIEWPORT then own else w(At(pos, r, c))
  }

  /** What a cell holds after the step. */
  function After(w: World, w': World, pos: Position, pos': Position, own: bool, r: int, c: int): bool {
    match SourceOf(pos'.x - pos.x, pos'.y - pos.y, r, c)
    case Read(r', c') => w'(At(pos', r', c'))
    case Kept(r', c') => Before(w, pos, own, r', c')
  }

  /** Nothing but the two tiles of the step changes. */
  ghost predicate OnlyMoved(w: World, w': World, pos: Position, pos': Position) {
    forall p: Position :: p != pos && p != pos' ==> w(p) == w'(p)
  }

  ghost predicate AlwaysRight(pos: Position, pos': Position) {
    forall w: World, w': World, own: bool, r: int, c: int ::
      OnlyMoved(w, w', pos, pos') && InCache(r, c) && (r, c) != (VIEWPORT, VIEWPORT)
      ==> After(w, w', pos, pos', own, r, c) == w'(At(pos', r, c))
  }

  /** Shifting the cache equals reading all of it, whatever the world, exactly for the good steps. */
  lemma ShiftIsRight(pos: Position, pos': Position)
    requires pos.z == pos'.z
    ensures AlwaysRight(pos, pos') <==> GoodStep(pos'.x - pos.x, pos'.y - pos.y)
  {
    var dx, dy := pos'.x - pos.x, pos'.y - pos.y;
    if GoodStep(dx, dy) {
      forall w: World, w': World, own: bool, r, c | OnlyMoved(w, w', pos, pos') && InCache(r, c) && (r, c) != (VIEWPORT, VIEWPORT)
        ensures After(w, w', pos, pos', own, r, c) == w'(At(pos', r, c))
      {
        GoodStepIsRight(dx, dy, r, c);
        assert At(pos, r + dy, c + dx) == At(pos', r, c);
      }
    } else {
      var r, c := WrongCell(dx, dy);
      var only := At(pos', r, c);
      var w: World := p => p == only;
      assert OnlyMoved(w, w, pos, pos');
      assert After(w, w, pos, pos', false, r, c) == false;
    }
  }

  // ---------------------------------------------------------------------------------
  // The creature
  // ---------------------------------------------------------------------------------

  class Creature {
    const localMapCache: array2<bool>
    var position: Position
    var isMapLoaded: bool

    ghost predicate Valid()
      reads this
    {
      localMapCache.Length0 == SIZE && localMapCache.Length1 == SIZE
    }

    constructor (position: Position)
      ensures Valid() && this.position == position && !isMapLoaded && fresh(localMapCache)
    {
      this.position := position;
      isMapLoaded := false;
      localMapCache := new bool[SIZE, SIZE]((r, c) => false);
    }

    /** Every cell but the creature's own shows its tile. */
    ghost predicate Tracks(w: World)
      requires Valid()
      reads this, localMapCache
    {
      forall r, c :: InCache(r, c) && (r, c) != (VIEWPORT, VIEWPORT) ==> localMapCache[r, c] == w(At(position, r, c))
    }

    method UpdateTile(w: World, dx: int, dy: int)
      requires Valid()
      modifies localMapCache
      ensures forall r, c :: InCache(r, c) ==>
                localMapCache[r, c] == if r == VIEWPORT + dy && c == VIEWPORT + dx then w(At(position, r, c)) else old(localMapCache[r, c])
    {
      if Abs(dx) <= VIEWPORT && Abs(dy) <= VIEWPORT {
        localMapCache[VIEWPORT + dy, VIEWPORT + dx] := w(Position(position.x + dx, position.y + dy, position.z));
      }
    }

    method UpdateTileAt(w: World, pos: Position)
      requires Valid()
      modifies localMapCache
      ensures forall r, c :: InCache(r, c) ==>
                localMapCache[r, c] == if At(position, r, c) == pos then w(pos) else old(localMapCache[r, c])
    {
      if pos.z == position.z {
        UpdateTile(w, pos.x - position.x, pos.y - position.y);
      }
    }

    /** Reads every tile in sight. */
    method UpdateMapCache(w: World)
      requires Valid()
      modifies localMapCache
      ensures Tracks(w) && localMapCache[VIEWPORT, VIEWPORT] == w(position)
    {
      var y := -VIEWPORT;
      while y <= VIEWPORT
        invariant -VIEWPORT <= y <= VIEWPORT + 1
        invariant forall r, c :: InCache(r, c) && r < VIEWPORT + y ==> localMapCache[r, c] == w(At(position, r, c))
      {
        UpdateRow(w, y);
        y := y + 1;
      }
    }

    method UpdateRow(w: World, y: int)
      requires Valid() && Abs(y) <= VIEWPORT
      modifies localMapCache
      ensures forall r, c :: InCache(r, c) ==>
                localMapCache[r, c] == if r == VIEWPORT + y then w(At(position, r, c)) else old(localMapCache[r, c])
    {
      var x := -VIEWPORT;
      while x <= VIEWPORT
        invariant -VIEWPORT <= x <= VIEWPORT + 1
        invariant forall r, c :: InCache(r, c) ==>
                    localMapCache[r, c] == if r == VIEWPORT + y && c < VIEWPORT + x then w(At(position, r, c)) else old(localMapCache[r, c])
      {
        UpdateTile(w, x, y);
        x := x + 1;
      }
    }

    method UpdateColumn(w: World, x: int)
      requires Valid() && Abs(x) <= VIEWPORT
      modifies localMapCache
      ensures forall r, c :: InCache(r, c) ==>
                localMapCache[r, c] == if c == VIEWPORT + x then w(At(position, r, c)) else old(localMapCache[r, c])
    {
      var y := -VIEWPORT;
      while y <= VIEWPORT
        invariant -VIEWPORT <= y <= VIEWPORT + 1
        invariant forall r, c :: InCache(r, c) ==>
                    localMapCache[r, c] == if c == VIEWPORT + x && r < VIEWPORT + y then w(At(position, r, c)) else old(localMapCache[r, c])
      {
        UpdateTile(w, x, y);
        y := y + 1;
      }
    }

    /** A copy of a whole row. */
    method CopyRow(to: int, from: int)
      requires Valid() && 0 <= to < SIZE && 0 <= from < SIZE && to != from
      modifies localMapCache
      ensures forall r, c :: InCache(r, c) ==>
                localMapCache[r, c] == if r == to then old(localMapCache[from, c]) else old(localMapCache[r, c])
    {
      var c := 0;
      while c < SIZE
        invariant 0 <= c <= SIZE
        invariant forall r, k :: InCache(r, k) ==>
                    localMapCache[r, k] == if r == to && k < c then old(localMapCache[from, k]) else old(localMapCache[r, k])
      {
        localMapCache[to, c] := localMapCache[from, c];
        c := c + 1;
      }
    }

    method ShiftSouth()
      requires Valid()
      modifies localMapCache
      ensures forall r, c :: InCache(r, c) ==> localMapCache[r, c] == old(localMapCache[if r == 0 then 0 else r - 1, c])
    {
      var y := SIZE - 2;
      while y >= 0
        invariant -1 <= y <= SIZE - 2
        invariant forall r, c :: InCache(r, c) ==> localMapCache[r, c] == old(localMapCache[if r <= y + 1 then r else r - 1, c])
      {
        CopyRow(y + 1, y);
        y := y - 1;
      }
    }

    method ShiftNorth()
      requires Valid()
      modifies localMapCache
      ensures forall r, c :: InCache(r, c) ==> localMapCache[r, c] == old(localMapCache[if r == SIZE - 1 then r else r + 1, c])
    {
      var y := 0;
      while y <= SIZE - 2
        invariant 0 <= y <= SIZE - 1
        invariant forall r, c :: InCache(r, c) ==> localMapCache[r, c] == old(localMapCache[if r >= y then r else r + 1, c])
      {
        CopyRow(y, y + 1);
        y := y + 1;
      }
    }

    /** Shifts one row; its end keeps what it held. */
    method ShiftRowWest(y: int)
      requires Valid() && 0 <= y < SIZE
      modifies localMapCache
      ensures forall r, c :: InCache(r, c) ==> localMapCache[r, c] == old(localMapCache[r, if r == y then ShiftedFrom(c, true) else c])
    {
      var x := 0;
      while x <= SIZE - 2
        invariant 0 <= x <= SIZE - 1
        invariant forall r, c :: InCache(r, c) && (r != y || c >= x) ==> localMapCache[r, c] == old(localMapCache[r, c])
        invariant forall c :: 0 <= c < x ==> localMapCache[y, c] == old(localMapCache[y, c + 1])
      {
        localMapCache[y, x] := localMapCache[y, x + 1];
        x := x + 1;
      }
    }

    method ShiftRowEast(y: int)
      requires Valid() && 0 <= y < SIZE
      modifies localMapCache
      ensures forall r, c :: InCache(r, c) ==> localMapCache[r, c] == old(localMapCache[r, if r == y then ShiftedFrom(c, false) else c])
    {
      var x := SIZE - 2;
      while x >= 0
        invariant -1 <= x <= SIZE - 2
        invariant forall r, c :: InCache(r, c) && (r != y || c <= x + 1) ==> localMapCache[r, c] == old(localMapCache[r, c])
        invariant forall c :: x + 1 < c < SIZE ==> localMapCache[y, c] == old(localMapCache[y, c - 1])
      {
        localMapCache[y, x + 1] := localMapCache[y, x];
        x := x - 1;
      }
    }

    method ShiftColumns(starty: int, west: bool)
      requires Valid() && starty >= 0
      modifies localMapCache
      ensures forall r, c :: InCache(r, c) ==> localMapCache[r, c] == old(localMapCache[r, if r >= starty then ShiftedFrom(c, west) else c])
    {
      var y := starty;
      while y <= SIZE - 1
        invariant starty <= y && (y <= SIZE || y == starty)
        invariant forall r, c :: InCache(r, c) ==>
                    localMapCache[r, c] == old(localMapCache[r, if starty <= r < y then ShiftedFrom(c, west) else c])
        decreases SIZE - y
      {
        if west {
          ShiftRowWest(y);
        } else {
          ShiftRowEast(y);
        }
        y := y + 1;
      }
    }

    method ShiftForRows(w: World, dy: int)
      requires Valid()
      modifies localMapCache
      ensures forall r, c :: InCache(r, c) ==>
                localMapCache[r, c] == match AfterRows(dy, r, c)
                                       case Read(r', c') => w(At(position, r', c'))
                                       case Kept(r', c') => if InCache(r', c') then old(localMapCache[r', c']) else false
    {
      if dy < 0 {
        ShiftSouth();
        UpdateRow(w, -VIEWPORT);
      } else if dy > 0 {
        ShiftNorth();
        UpdateRow(w, VIEWPORT);
      }
    }

    method ShiftForColumns(w: World, dx: int, dy: int)
      requires Valid()
      modifies localMapCache
      ensures forall r, c :: InCache(r, c) ==>
                localMapCache[r, c] == if c == EdgeColumn(dx) then w(At(position, r, c))
                                       else old(localMapCache[r, if r >= Abs(dy) then ColumnFrom(c, dx) else c])
    {
      if dx > 0 {
        ShiftColumns(Abs(dy), true);
        UpdateColumn(w, VIEWPORT);
      } else if dx < 0 {
        ShiftColumns(Abs(dy), false);
        UpdateColumn(w, -VIEWPORT);
      }
    }

    /** The creature has moved; its position is the new one already. */
    method OnMove(w: World, oldPos: Position, teleport: bool)
      requires Valid()
      modifies localMapCache
      ensures !isMapLoaded ==> unchanged(localMapCache)
      ensures isMapLoaded && (teleport || oldPos.z != position.z) ==> Tracks(w)
      ensures isMapLoaded && !teleport && oldPos.z == position.z ==>
                forall r, c :: InCache(r, c) ==>
                  localMapCache[r, c] == match SourceOf(position.x - oldPos.x, position.y - oldPos.y, r, c)
                                         case Read(r', c') => w(At(position, r', c'))
                                         case Kept(r', c') => if InCache(r', c') then old(localMapCache[r', c']) else false
    {
      if !isMapLoaded {
        return;
      }
      if teleport || oldPos.z != position.z {
        UpdateMapCache(w);
      } else {
        var dx, dy := position.x - oldPos.x, position.y - oldPos.y;
        ShiftForRows(w, dy);
        ShiftForColumns(w, dx, dy);
        UpdateTileAt(w, oldPos);
      }
    }

    /** A cache that was right before a good step, a teleport or a change of floor is right after it. */
    method Walk(ghost w: World, w': World, newPos: Position, teleport: bool)
      requires Valid() && (isMapLoaded ==> Tracks(w)) && OnlyMoved(w, w', position, newPos)
      modifies this`position, localMapCache
      ensures Valid() && position == newPos && isMapLoaded == old(isMapLoaded)
      ensures var from := old(position);
              isMapLoaded && (teleport || from.z != newPos.z || GoodStep(newPos.x - from.x, newPos.y - from.y)) ==> Tracks(w')
    {
      var oldPos := position;
      position := newPos;
      ghost var own := localMapCache[VIEWPORT, VIEWPORT];
      OnMove(w', oldPos, teleport);
      if isMapLoaded && !teleport && oldPos.z == newPos.z && GoodStep(newPos.x - oldPos.x, newPos.y - oldPos.y) {
        ShiftIsRight(oldPos, newPos);
        forall r, c | InCache(r, c) && (r, c) != (VIEWPORT, VIEWPORT)
          ensures localMapCache[r, c] == w'(At(newPos, r, c))
        {
          GoodStepIsRight(newPos.x - oldPos.x, newPos.y - oldPos.y, r, c);
          assert localMapCache[r, c] == After(w, w', oldPos, newPos, own, r, c);
        }
      }
    }

    /** Another creature has moved: only its two tiles have changed. */
    method OtherMoved(ghost w: World, w': World, oldPos: Position, newPos: Position)
      requires Valid() && (isMapLoaded ==> Tracks(w)) && OnlyMoved(w, w', oldPos, newPos)
      modifies localMapCache
      ensures isMapLoaded ==> Tracks(w')
    {
      if isMapLoaded {
        UpdateTileAt(w', newPos);
        UpdateTileAt(w', oldPos);
      }
    }

    /** Something on one tile has changed. */
    method TileChanged(ghost w: World, w': World, pos: Position)
      requires Valid() && (isMapLoaded ==> Tracks(w)) && OnlyMoved(w, w', pos, pos)
      modifies localMapCache
      ensures isMapLoaded ==> Tracks(w')
    {
      if isMapLoaded && pos.z == position.z {
        UpdateTileAt(w', pos);
      }
    }

    method LoadMap(w: World)
      requires Valid()
      modifies this`isMapLoaded, localMapCache
      ensures Valid() && isMapLoaded && Tracks(w)
    {
      isMapLoaded := true;
      UpdateMapCache(w);
    }

    /** 0 for a tile that cannot be walked on, 1 for one that can, 2 for one that the cache does not cover. */
    method GetWalkCache(ghost w: World, pos: Position, useCacheMap: bool) returns (r: int)
      requires Valid()
      ensures !useCacheMap ==> r == 2
      ensures useCacheMap && pos.z != position.z ==> r == 0
      ensures useCacheMap && pos.z == position.z && (Abs(pos.x - position.x) > VIEWPORT || Abs(pos.y - position.y) > VIEWPORT) ==> r == 2
      ensures useCacheMap && pos == position ==> r == 1
      ensures Tracks(w) && useCacheMap && pos.z == position.z && pos != position
              && Abs(pos.x - position.x) <= VIEWPORT && Abs(pos.y - position.y) <= VIEWPORT
              ==> r == (if w(pos) then 1 else 0)
    {
      if !useCacheMap {
        return 2;
      }
      if position.z != pos.z {
        return 0;
      }
      if pos == position {
        return 1;
      }
      var dx, dy := pos.x - position.x, pos.y - position.y;
      if Abs(dx) <= VIEWPORT && Abs(dy) <= VIEWPORT {
        assert At(position, VIEWPORT + dy, VIEWPORT + dx) == pos;
        return if localMapCache[VIEWPORT + dy, VIEWPORT + dx] then 1 else 0;
      }
      return 2;
    }
  }

  function ShiftedFrom(c: int, west: bool): int {
    if west then (if c == SIZE - 1 then c else c + 1) else (if c == 0 then c else c - 1)
  }

  function ColumnFrom(c: int, dx: int): int {
    if dx > 0 then ShiftedFrom(c, true) else if dx < 0 then ShiftedFrom(c, false) else c
  }

  function EdgeColumn(dx: int): int {
    if dx > 0 then SIZE - 1 else if dx < 0 then 0 else -1
  }
}
