/**
 * The areas that spells hit (src/combat.cpp, src/combat.h): one pattern is turned,
 * mirrored and flipped into the patterns for the other directions.
 */
module SpellArea {
  import opened Basics

  datatype Rotation = Rotate90 | Rotate180 | Rotate270

  datatype Direction = North | East | South | West | SouthWest | SouthEast | NorthWest | NorthEast

  /** A rotation about the centre, worked out from its sine and cosine. */
  function RotatedX(op: Rotation, x: int, y: int): int {
    match op
    case Rotate90 => -y
    case Rotate180 => -x
    case Rotate270 => y
  }

  function RotatedY(op: Rotation, x: int, y: int): int {
    match op
    case Rotate90 => x
    case Rotate180 => -y
    case Rotate270 => -x
  }

  function Inverse(op: Rotation): Rotation {
    match op
    case Rotate90 => Rotate270
    case Rotate180 => Rotate180
    case Rotate270 => Rotate90
  }

  /** Turning back finds exactly the cell that was turned. */
  lemma TurnsBack(op: Rotation, x: int, y: int, dx: int, dy: int)
    ensures RotatedX(op, x, y) == dx && RotatedY(op, x, y) == dy <==>
            RotatedX(Inverse(op), dx, dy) == x && RotatedY(Inverse(op), dx, dy) == y
  {
  }

  lemma TurnStays(op: Rotation, x: int, y: int, m: int)
    requires -m <= x <= m && -m <= y <= m
    ensures -m <= RotatedX(op, x, y) <= m && -m <= RotatedY(op, x, y) <= m
  {
  }

  class MatrixArea {
    const rows: nat
    const cols: nat
    const data: array2<bool>
    var centerX: int
    var centerY: int

    ghost predicate Valid() {
      data.Length0 == rows && data.Length1 == cols
    }

    constructor (rows: nat, cols: nat)
      ensures Valid() && fresh(data) && this.rows == rows && this.cols == cols
      ensures centerX == 0 && centerY == 0
      ensures forall y, x :: 0 <= y < rows && 0 <= x < cols ==> !data[y, x]
    {
      this.rows, this.cols := rows, cols;
      centerX, centerY := 0, 0;
      data := new bool[rows, cols]((y, x) => false);
    }

    predicate InRange(y: int, x: int) {
      0 <= y < rows && 0 <= x < cols
    }

    /** The pattern hits the tile at an offset from its centre. */
    predicate Hits(dx: int, dy: int)
      requires Valid()
      reads this, data
    {
      InRange(centerY + dy, centerX + dx) && data[centerY + dy, centerX + dx]
    }

    predicate Centred()
      reads this
    {
      InRange(centerY, centerX)
    }
  }

  /** The pattern that a list of numbers describes: 1 and 3 are hit, 2 and 3 are the centre. */
  predicate IsHit(value: nat) {
    value == 1 || value == 3
  }

  /** The last entry that marks the centre; the first corner if there is none. */
  function CenterOf(list: seq<nat>): (k: nat)
    ensures list != [] ==> k < |list|
  {
    if list == [] then 0
    else if Last(list) == 2 || Last(list) == 3 then |list| - 1
    else CenterOf(Front(list))
  }

  /** The place of a cell in a list of rows. */
  function Index(y: nat, x: nat, cols: nat): nat {
    y * cols + x
  }

  function Entry(list: seq<nat>, k: nat): nat {
    if k < |list| then list[k] else 0
  }

  predicate Before(y: nat, x: nat, y': nat, x': nat) {
    y < y' || (y == y' && x < x')
  }

  /** The whole rows of a list. */
  function ColsOf(list: seq<nat>, rows: nat): (cols: nat)
    ensures rows * cols <= |list|
  {
    if rows == 0 then 0 else |list| / rows
  }

  /** What follows the last whole row hits nothing: its cells would lie outside of the matrix. */
  predicate HitsFit(list: seq<nat>, rows: nat) {
    forall k :: rows * ColsOf(list, rows) <= k < |list| ==> !IsHit(list[k])
  }

  /** The centre is marked in a whole row, if anywhere. */
  predicate CentreFits(list: seq<nat>, rows: nat) {
    rows * ColsOf(list, rows) > 0 ==> CenterOf(list) < rows * ColsOf(list, rows)
  }

  /** The pattern that a list of numbers makes of its whole rows. */
  ghost predicate MadeFrom(area: MatrixArea, list: seq<nat>, rows: nat)
    reads area, area.data
  {
    && area.Valid() && area.rows == rows && area.cols == ColsOf(list, rows)
    && (forall y, x {:trigger area.data[y, x]} :: area.InRange(y, x) ==>
          area.data[y, x] == IsHit(Entry(list, Index(y, x, area.cols))))
    && 0 <= area.centerY && 0 <= area.centerX && (area.cols > 0 ==> area.centerX < area.cols)
    && Index(area.centerY, area.centerX, area.cols) == CenterOf(list)
  }

  lemma RowOf(y: nat, x: nat, rows: nat, cols: nat)
    ensures cols > 0 && x < cols ==> (Index(y, x, cols) < rows * cols <==> y < rows)
    ensures Index(y, x, cols) + 1 == if x + 1 == cols then Index(y + 1, 0, cols) else Index(y, x + 1, cols)
  {
    assert (y + 1) * cols == y * cols + cols;
    if y < rows {
      MulOrder(cols, y + 1, rows);
    } else {
      MulOrder(cols, rows, y);
    }
  }

  lemma MadeCentred(area: MatrixArea, list: seq<nat>, rows: nat)
    requires MadeFrom(area, list, rows) && CentreFits(list, rows)
    ensures area.rows > 0 && area.cols > 0 ==> area.Centred()
  {
    if area.rows > 0 && area.cols > 0 {
      RowOf(area.centerY, area.centerX, area.rows, area.cols);
      MulOrder(area.cols, 1, area.rows);
    }
  }

  lemma CenterNext(list: seq<nat>, k: nat)
    ensures CenterOf(list[..0]) == 0
    ensures k < |list| ==> list[k] == Entry(list, k)
    ensures k < |list| ==> CenterOf(list[..k + 1]) == if list[k] == 2 || list[k] == 3 then k else CenterOf(list[..k])
  {
    if k < |list| {
      assert Front(list[..k + 1]) == list[..k] && Last(list[..k + 1]) == list[k];
    }
  }

  method MarkCell(area: MatrixArea, y: nat, x: nat, value: nat)
    requires area.Valid() && (IsHit(value) ==> area.InRange(y, x))
    modifies area, area.data
    ensures forall r, c {:trigger area.data[r, c]} :: area.InRange(r, c) ==>
              area.data[r, c] == if r == y && c == x && IsHit(value) then true else old(area.data[r, c])
    ensures if value == 2 || value == 3 then area.centerY == y && area.centerX == x
            else area.centerY == old(area.centerY) && area.centerX == old(area.centerX)
  {
    if IsHit(value) {
      area.data[y, x] := true;
    }
    if value == 2 || value == 3 {
      area.centerY, area.centerX := y, x;
    }
  }

  /** The pattern made from the part of a list before some cell. */
  ghost predicate PartlyMade(area: MatrixArea, list: seq<nat>, k: nat, y: nat, x: nat)
    reads area, area.data
  {
    && area.Valid() && k <= |list| && k == Index(y, x, area.cols) && (if area.cols > 0 then x < area.cols else y == 0)
    && (forall r, c {:trigger area.data[r, c]} :: area.InRange(r, c) ==>
          area.data[r, c] == (Before(r, c, y, x) && IsHit(Entry(list, Index(r, c, area.cols)))))
    && 0 <= area.centerY && 0 <= area.centerX && (area.cols > 0 ==> area.centerX < area.cols)
    && Index(area.centerY, area.centerX, area.cols) == CenterOf(list[..k])
  }

  method CreateArea(list: seq<nat>, rows: nat) returns (area: MatrixArea)
    requires HitsFit(list, rows)
    ensures fresh(area) && fresh(area.data) && area.Valid() && MadeFrom(area, list, rows)
  {
    var cols := ColsOf(list, rows);
    area := new MatrixArea(rows, cols);
    var x, y := 0, 0;
    var k := 0;
    NothingMade(area, list);
    hide PartlyMade;
    while k < |list|
      invariant 0 <= k <= |list| && 0 <= y && 0 <= x && PartlyMade(area, list, k, y, x)
    {
      CellInRange(area, list, k, y, x, rows);
      var value := list[k];
      MarkNext(area, list, k, y, x, value);
      x, k := x + 1, k + 1;
      if cols == x {
        x, y := 0, y + 1;
      }
    }
    AllMade(area, list, y, x, rows);
  }

  lemma NothingMade(area: MatrixArea, list: seq<nat>)
    requires area.Valid() && area.centerX == area.centerY == 0
    requires forall y, x :: 0 <= y < area.rows && 0 <= x < area.cols ==> !area.data[y, x]
    ensures PartlyMade(area, list, 0, 0, 0)
  {
    CenterNext(list, 0);
    assert Index(0, 0, area.cols) == 0;
  }

  lemma CellInRange(area: MatrixArea, list: seq<nat>, k: nat, y: nat, x: nat, rows: nat)
    requires PartlyMade(area, list, k, y, x) && k < |list| && HitsFit(list, rows)
    requires area.rows == rows && area.cols == ColsOf(list, rows)
    ensures IsHit(list[k]) ==> area.InRange(y, x)
  {
    RowOf(y, x, rows, area.cols);
  }

  method MarkNext(area: MatrixArea, ghost list: seq<nat>, ghost k: nat, y: nat, x: nat, value: nat)
    requires PartlyMade(area, list, k, y, x) && k < |list| && value == list[k] && (IsHit(value) ==> area.InRange(y, x))
    modifies area, area.data
    ensures if x + 1 == area.cols then PartlyMade(area, list, k + 1, y + 1, 0) else PartlyMade(area, list, k + 1, y, x + 1)
  {
    CenterNext(list, k);
    RowOf(y, x, area.rows, area.cols);
    hide Index, CenterOf, IsHit, Entry;
    MarkCell(area, y, x, value);
  }

  lemma AllMade(area: MatrixArea, list: seq<nat>, y: nat, x: nat, rows: nat)
    requires PartlyMade(area, list, |list|, y, x) && area.rows == rows && area.cols == ColsOf(list, rows)
    ensures MadeFrom(area, list, rows)
  {
    assert list[..|list|] == list;
    RowOf(y, x, rows, area.cols);
  }

  // ---------------------------------------------------------------------------------
  // Turning, mirroring and flipping
  // ---------------------------------------------------------------------------------

  /** A pattern whose cells can be written around the centre of a large enough one. */
  ghost predicate Fits(input: MatrixArea, output: MatrixArea)
    reads input, output, output.data
  {
    && input.Valid() && output.Valid() && input.data != output.data && input != output
    && output.rows == output.cols == 2 * Max(input.rows, input.cols)
    && (input.rows > 0 && input.cols > 0 ==> input.Centred())
    && forall r, c :: output.InRange(r, c) ==> !output.data[r, c]
  }

  /** Whether a loop over columns, and rows within them, has passed a cell. */
  predicate Passed(x: int, y: int, x': int, y': int) {
    x < x' || (x == x' && y < y')
  }

  method RotateArea(input: MatrixArea, output: MatrixArea, op: Rotation)
    requires Fits(input, output)
    modifies output, output.data
    ensures output.centerX == output.centerY == Max(input.rows, input.cols) - 1
    ensures forall dx, dy :: output.Hits(dx, dy) <==> input.Hits(RotatedX(Inverse(op), dx, dy), RotatedY(Inverse(op), dx, dy))
  {
    var centre := output.cols / 2 - 1;
    var x := 0;
    hide RotatedX, RotatedY;
    while x < input.cols
      invariant 0 <= x <= input.cols
      invariant forall r, c :: output.InRange(r, c) ==> output.data[r, c] == TurnedTo(input, op, centre, r, c, x, 0)
    {
      TurnColumn(input, output, op, x);
      x := x + 1;
    }
    output.centerY, output.centerX := centre, centre;
    forall dx, dy
      ensures output.Hits(dx, dy) <==> input.Hits(RotatedX(Inverse(op), dx, dy), RotatedY(Inverse(op), dx, dy))
    {
      TurnedHits(input, output, op, dx, dy);
    }
  }

  lemma TurnedHits(input: MatrixArea, output: MatrixArea, op: Rotation, dx: int, dy: int)
    requires input.Valid() && output.Valid() && (input.rows > 0 && input.cols > 0 ==> input.Centred())
    requires output.rows == output.cols == 2 * Max(input.rows, input.cols)
    requires output.centerX == output.centerY == Max(input.rows, input.cols) - 1
    requires forall r, c :: output.InRange(r, c) ==> output.data[r, c] == TurnedTo(input, op, output.centerX, r, c, input.cols, 0)
    ensures output.Hits(dx, dy) <==> input.Hits(RotatedX(Inverse(op), dx, dy), RotatedY(Inverse(op), dx, dy))
  {
    var px, py := RotatedX(Inverse(op), dx, dy), RotatedY(Inverse(op), dx, dy);
    TurnsBack(op, px, py, dx, dy);
    hide RotatedX, RotatedY;
    if input.InRange(input.centerY + py, input.centerX + px) {
      TurnStays(op, px, py, output.centerX);
    }
  }

  /** What a rotation has written to a cell so far. */
  predicate TurnedTo(input: MatrixArea, op: Rotation, m: int, r: int, c: int, x: int, y: int)
    requires input.Valid()
    reads input, input.data
  {
    var px := input.centerX + RotatedX(Inverse(op), c - m, r - m);
    var py := input.centerY + RotatedY(Inverse(op), c - m, r - m);
    input.InRange(py, px) && Passed(px, py, x, y) && input.data[py, px]
  }

  method TurnColumn(input: MatrixArea, output: MatrixArea, op: Rotation, x: int)
    requires input.Valid() && output.Valid() && input.data != output.data && 0 <= x < input.cols
    requires input.rows > 0 ==> input.Centred()
    requires output.rows == output.cols == 2 * Max(input.rows, input.cols)
    requires forall r, c :: output.InRange(r, c) ==> output.data[r, c] == TurnedTo(input, op, output.cols / 2 - 1, r, c, x, 0)
    modifies output.data
    ensures forall r, c :: output.InRange(r, c) ==> output.data[r, c] == TurnedTo(input, op, output.cols / 2 - 1, r, c, x + 1, 0)
  {
    var centre := output.cols / 2 - 1;
    var y := 0;
    hide RotatedX, RotatedY;
    assert forall r, c :: TurnedTo(input, op, centre, r, c, x, input.rows) == TurnedTo(input, op, centre, r, c, x + 1, 0);
    hide TurnedTo;
    while y < input.rows
      invariant 0 <= y <= input.rows
      invariant forall r, c :: output.InRange(r, c) ==> output.data[r, c] == TurnedTo(input, op, centre, r, c, x, y)
    {
      var newX, newY := x - input.centerX, y - input.centerY;
      TurnStays(op, newX, newY, centre);
      var row, col := RotatedY(op, newX, newY) + centre, RotatedX(op, newX, newY) + centre;
      output.data[row, col] := input.data[y, x];
      forall r, c | output.InRange(r, c)
        ensures output.data[r, c] == TurnedTo(input, op, centre, r, c, x, y + 1)
      {
        OneTurned(input, op, centre, r, c, x, y, row, col);
      }
      y := y + 1;
    }
  }

  /** Only the cell that is written changes. */
  lemma OneTurned(input: MatrixArea, op: Rotation, m: int, r: int, c: int, x: int, y: int, row: int, col: int)
    requires input.Valid() && input.InRange(y, x)
    requires row == RotatedY(op, x - input.centerX, y - input.centerY) + m && col == RotatedX(op, x - input.centerX, y - input.centerY) + m
    ensures TurnedTo(input, op, m, r, c, x, y + 1) == if r == row && c == col then input.data[y, x] else TurnedTo(input, op, m, r, c, x, y)
  {
    TurnsBack(op, x - input.centerX, y - input.centerY, c - m, r - m);
    hide RotatedX, RotatedY;
  }

  /** Mirrors left and right; the new centre is worked out from the number of rows. */
  method MirrorArea(input: MatrixArea, output: MatrixArea)
    requires input.Valid() && output.Valid() && input.data != output.data && input != output
    requires input.rows <= output.rows && input.cols <= output.cols
    requires forall r, c :: output.InRange(r, c) ==> !output.data[r, c]
    modifies output, output.data
    ensures output.centerY == input.centerY && output.centerX == input.rows - 1 - input.centerX
    ensures forall dx, dy :: output.Hits(dx, dy) <==> input.Hits(input.cols - input.rows - dx, dy)
  {
    var y := 0;
    while y < input.rows
      invariant 0 <= y <= input.rows
      invariant forall r, c :: output.InRange(r, c) ==>
                  output.data[r, c] == (r < y && input.InRange(r, input.cols - 1 - c) && input.data[r, input.cols - 1 - c])
    {
      var rx, x := 0, input.cols - 1;
      while x >= 0
        invariant -1 <= x <= input.cols - 1 && rx == input.cols - 1 - x
        invariant forall r, c :: output.InRange(r, c) ==>
                    output.data[r, c] == ((r < y || (r == y && c < rx)) && input.InRange(r, input.cols - 1 - c) && input.data[r, input.cols - 1 - c])
      {
        output.data[y, rx] := input.data[y, x];
        rx, x := rx + 1, x - 1;
      }
      y := y + 1;
    }
    output.centerY, output.centerX := input.centerY, input.rows - 1 - input.centerX;
  }

  /** Flips top and bottom; the new centre is worked out from the number of columns. */
  method FlipArea(input: MatrixArea, output: MatrixArea)
    requires input.Valid() && output.Valid() && input.data != output.data && input != output
    requires input.rows <= output.rows && input.cols <= output.cols
    requires forall r, c :: output.InRange(r, c) ==> !output.data[r, c]
    modifies output, output.data
    ensures output.centerX == input.centerX && output.centerY == input.cols - 1 - input.centerY
    ensures forall dx, dy :: output.Hits(dx, dy) <==> input.Hits(dx, input.rows - input.cols - dy)
  {
    var x := 0;
    while x < input.cols
      invariant 0 <= x <= input.cols
      invariant forall r, c :: output.InRange(r, c) ==>
                  output.data[r, c] == (c < x && input.InRange(input.rows - 1 - r, c) && input.data[input.rows - 1 - r, c])
    {
      var ry, y := 0, input.rows - 1;
      while y >= 0
        invariant -1 <= y <= input.rows - 1 && ry == input.rows - 1 - y
        invariant forall r, c :: output.InRange(r, c) ==>
                    output.data[r, c] == ((c < x || (c == x && r < ry)) && input.InRange(input.rows - 1 - r, c) && input.data[input.rows - 1 - r, c])
      {
        output.data[ry, x] := input.data[y, x];
        ry, y := ry + 1, y - 1;
      }
      x := x + 1;
    }
    output.centerY, output.centerX := input.cols - 1 - input.centerY, input.centerX;
  }

  ghost predicate IsEmpty(area: MatrixArea)
    requires area.Valid()
    reads area, area.data
  {
    forall dx, dy :: !area.Hits(dx, dy)
  }

  /** A pattern that looks the same after a shift hits nothing. */
  lemma {:induction false} ShiftedForever(area: MatrixArea, kx: int, ky: int, dx: int, dy: int, n: nat)
    requires area.Valid() && (forall u, v :: area.Hits(u, v) <==> area.Hits(u + kx, v + ky)) && area.Hits(dx, dy)
    ensures area.Hits(dx + n * kx, dy + n * ky)
  {
    if n > 0 {
      ShiftedForever(area, kx, ky, dx, dy, n - 1);
      assert n * kx == (n - 1) * kx + kx && n * ky == (n - 1) * ky + ky;
    }
  }

  lemma NoShift(area: MatrixArea, kx: int, ky: int, dx: int, dy: int)
    requires area.Valid() && (kx != 0 || ky != 0) && forall u, v :: area.Hits(u, v) <==> area.Hits(u + kx, v + ky)
    ensures !area.Hits(dx, dy)
  {
    if area.Hits(dx, dy) {
      var n := area.cols + area.rows + 1;
      ShiftedForever(area, kx, ky, dx, dy, n);
      if kx != 0 {
        FarAway(n, kx);
      } else {
        FarAway(n, ky);
      }
    }
  }

  lemma FarAway(n: nat, k: int)
    requires k != 0
    ensures n * k >= n || n * k <= 0 - n
  {
    if k > 0 {
      MulOrder(n, 1, k);
    } else {
      MulOrder(n, 1, 0 - k);
    }
  }

  /** Mirroring reflects a pattern about its centre exactly when it is square, or empty. */
  lemma MirrorExact(input: MatrixArea, output: MatrixArea)
    requires input.Valid() && output.Valid()
    requires forall dx, dy :: output.Hits(dx, dy) <==> input.Hits(input.cols - input.rows - dx, dy)
    ensures (forall dx, dy :: output.Hits(dx, dy) <==> input.Hits(-dx, dy)) <==> input.rows == input.cols || IsEmpty(input)
  {
    var k := input.cols - input.rows;
    if k != 0 && forall dx, dy :: output.Hits(dx, dy) <==> input.Hits(-dx, dy) {
      forall u, v
        ensures input.Hits(u, v) <==> input.Hits(u + k, v + 0)
      {
        assert output.Hits(-u, v) <==> input.Hits(-(-u), v);
        assert output.Hits(-u, v) <==> input.Hits(k - (-u), v);
        assert -(-u) == u && k - (-u) == u + k;
      }
      forall dx, dy
        ensures !input.Hits(dx, dy)
      {
        NoShift(input, k, 0, dx, dy);
      }
    }
  }

  lemma FlipExact(input: MatrixArea, output: MatrixArea)
    requires input.Valid() && output.Valid()
    requires forall dx, dy :: output.Hits(dx, dy) <==> input.Hits(dx, input.rows - input.cols - dy)
    ensures (forall dx, dy :: output.Hits(dx, dy) <==> input.Hits(dx, -dy)) <==> input.rows == input.cols || IsEmpty(input)
  {
    var k := input.rows - input.cols;
    if k != 0 && forall dx, dy :: output.Hits(dx, dy) <==> input.Hits(dx, -dy) {
      forall u, v
        ensures input.Hits(u, v) <==> input.Hits(u + 0, v + k)
      {
        assert output.Hits(u, -v) <==> input.Hits(u, -(-v));
        assert output.Hits(u, -v) <==> input.Hits(u, k - (-v));
        assert -(-v) == v && k - (-v) == v + k;
      }
      forall dx, dy
        ensures !input.Hits(dx, dy)
      {
        NoShift(input, 0, k, dx, dy);
      }
    }
  }

  // ---------------------------------------------------------------------------------
  // The patterns of a spell
  // ---------------------------------------------------------------------------------

  /** The direction from which a pattern is taken; diagonals only if there are patterns for them. */
  function DirectionTo(dx: int, dy: int, hasExtArea: bool): Direction {
    if hasExtArea && dx < 0 && dy < 0 then NorthWest
    else if hasExtArea && dx > 0 && dy < 0 then NorthEast
    else if hasExtArea && dx < 0 && dy > 0 then SouthWest
    else if hasExtArea && dx > 0 && dy > 0 then SouthEast
    else if dx < 0 then West
    else if dx > 0 then East
    else if dy < 0 then North
    else South
  }

  class AreaCombat {
    var areas: map<Direction, MatrixArea>
    var hasExtArea: bool

    ghost predicate Valid()
      reads this
    {
      forall d <- areas :: areas[d].Valid()
    }

    constructor ()
      ensures Valid() && areas == map[] && !hasExtArea
    {
      areas, hasExtArea := map[], false;
    }

    /** The pattern is for north; the others are its rotations. */
    method SetupArea(list: seq<nat>, rows: nat)
      requires Valid() && HitsFit(list, rows) && CentreFits(list, rows)
      modifies this`areas
      ensures Valid() && {North, East, South, West} <= areas.Keys && MadeFrom(areas[North], list, rows)
      ensures Turned(areas[North], areas[East], areas[South], areas[West])
      ensures forall d | d !in {North, East, South, West} :: d in areas <==> d in old(areas)
      ensures forall d | d !in {North, East, South, West} && d in areas :: areas[d] == old(areas)[d]
    {
      var north, east, south, west := Rotations(list, rows);
      hide Turned, MadeFrom;
      areas := areas[North := north][South := south][East := east][West := west];
    }

    method Rotations(list: seq<nat>, rows: nat) returns (north: MatrixArea, east: MatrixArea, south: MatrixArea, west: MatrixArea)
      requires HitsFit(list, rows) && CentreFits(list, rows)
      ensures MadeFrom(north, list, rows) && Turned(north, east, south, west)
    {
      north := CreateArea(list, rows);
      MadeCentred(north, list, rows);
      south := Turn(north, Rotate180);
      east := Turn(north, Rotate90);
      west := Turn(north, Rotate270);
    }

    method Turn(area: MatrixArea, op: Rotation) returns (turned: MatrixArea)
      requires area.Valid() && (area.rows > 0 && area.cols > 0 ==> area.Centred())
      ensures fresh(turned) && fresh(turned.data) && turned.Valid()
      ensures forall dx, dy :: turned.Hits(dx, dy) <==> area.Hits(RotatedX(Inverse(op), dx, dy), RotatedY(Inverse(op), dx, dy))
    {
      var maxOutput := Max(area.cols, area.rows) * 2;
      turned := new MatrixArea(maxOutput, maxOutput);
      RotateArea(area, turned, op);
    }

    method Mirrored(area: MatrixArea, size: nat) returns (mirrored: MatrixArea)
      requires area.Valid() && area.rows <= size && area.cols <= size
      ensures fresh(mirrored) && fresh(mirrored.data) && mirrored.Valid() && mirrored.rows == mirrored.cols == size
      ensures forall dx, dy :: mirrored.Hits(dx, dy) <==> area.Hits(area.cols - area.rows - dx, dy)
    {
      mirrored := new MatrixArea(size, size);
      MirrorArea(area, mirrored);
    }

    method Flipped(area: MatrixArea, size: nat) returns (flipped: MatrixArea)
      requires area.Valid() && area.rows <= size && area.cols <= size
      ensures fresh(flipped) && fresh(flipped.data) && flipped.Valid() && flipped.rows == flipped.cols == size
      ensures forall dx, dy :: flipped.Hits(dx, dy) <==> area.Hits(dx, area.rows - area.cols - dy)
    {
      flipped := new MatrixArea(size, size);
      FlipArea(area, flipped);
    }

    /** The pattern is for north-west; the others are its reflections. */
    method SetupExtArea(list: seq<nat>, rows: nat)
      requires Valid() && HitsFit(list, rows)
      modifies this
      ensures Valid()
      ensures list == [] ==> areas == old(areas) && hasExtArea == old(hasExtArea)
      ensures list != [] ==>
                && hasExtArea && {NorthWest, NorthEast, SouthWest, SouthEast} <= areas.Keys
                && MadeFrom(areas[NorthWest], list, rows)
                && Reflected(areas[NorthWest], areas[NorthEast], areas[SouthWest], areas[SouthEast])
    {
      if list == [] {
        return;
      }
      hasExtArea := true;
      var area, neArea, swArea, seArea := Reflect(list, rows);
      hide Reflected, MadeFrom;
      areas := areas[NorthWest := area][NorthEast := neArea][SouthWest := swArea][SouthEast := seArea];
    }

    method Reflect(list: seq<nat>, rows: nat) returns (nw: MatrixArea, ne: MatrixArea, sw: MatrixArea, se: MatrixArea)
      requires HitsFit(list, rows)
      ensures MadeFrom(nw, list, rows) && Reflected(nw, ne, sw, se)
    {
      hide MadeFrom, Reflected, MatrixArea.Hits, HitsFit;
      nw := CreateArea(list, rows);
      var maxOutput := Max(nw.cols, nw.rows) * 2;
      ne := Mirrored(nw, maxOutput);
      sw := Flipped(nw, maxOutput);
      se := Mirrored(sw, maxOutput);
      AreReflected(nw, ne, sw, se);
    }

    lemma AreReflected(nw: MatrixArea, ne: MatrixArea, sw: MatrixArea, se: MatrixArea)
      requires nw.Valid() && ne.Valid() && sw.Valid() && se.Valid() && sw.rows == sw.cols
      requires forall dx, dy :: ne.Hits(dx, dy) <==> nw.Hits(nw.cols - nw.rows - dx, dy)
      requires forall dx, dy :: sw.Hits(dx, dy) <==> nw.Hits(dx, nw.rows - nw.cols - dy)
      requires forall dx, dy :: se.Hits(dx, dy) <==> sw.Hits(sw.cols - sw.rows - dx, dy)
      ensures Reflected(nw, ne, sw, se)
    {
      forall dx, dy
        ensures se.Hits(dx, dy) <==> sw.Hits(-dx, dy)
      {
        hide MatrixArea.Hits;
        assert sw.cols - sw.rows - dx == -dx;
      }
    }

    /** The tiles that are hit: those under the pattern for the direction that can be seen from its centre. */
    method GetList(centre: Position, target: Position, sight: Position -> bool) returns (list: seq<Position>)
      requires Valid()
      ensures var d := DirectionTo(target.x - centre.x, target.y - centre.y, hasExtArea);
              if d !in areas then list == []
              else forall p :: p in list <==> p.z == target.z && areas[d].Hits(p.x - target.x, p.y - target.y) && sight(p)
      ensures forall i, j :: 0 <= i < j < |list| ==> list[i] != list[j]
    {
      list := [];
      var d := DirectionTo(target.x - centre.x, target.y - centre.y, hasExtArea);
      if d !in areas {
        return;
      }
      var area := areas[d];
      var tmpPos := Position(target.x - area.centerX, target.y - area.centerY, target.z);
      var y := 0;
      hide Collected;
      NothingCollected(area, target, sight);
      while y < area.rows
        invariant 0 <= y <= area.rows
        invariant tmpPos == CellPosition(area, target, y, 0)
        invariant Collected(area, target, sight, list, y, 0)
      {
        var x := 0;
        while x < area.cols
          invariant 0 <= x <= area.cols
          invariant tmpPos == CellPosition(area, target, y, x)
          invariant Collected(area, target, sight, list, y, x)
        {
          CollectNext(area, target, sight, list, y, x);
          if area.data[y, x] && sight(tmpPos) {
            list := [tmpPos] + list;
          }
          tmpPos := tmpPos.(x := tmpPos.x + 1);
          x := x + 1;
        }
        tmpPos := tmpPos.(x := tmpPos.x - area.cols, y := tmpPos.y + 1);
        RowCollected(area, target, sight, list, y);
        y := y + 1;
      }
      AllCollected(area, target, sight, list);
    }

    lemma NothingCollected(area: MatrixArea, target: Position, sight: Position -> bool)
      requires area.Valid()
      ensures Collected(area, target, sight, [], 0, 0)
    {
    }

    lemma CollectNext(area: MatrixArea, target: Position, sight: Position -> bool, list: seq<Position>, y: int, x: int)
      requires area.Valid() && area.InRange(y, x) && Collected(area, target, sight, list, y, x)
      ensures var p := CellPosition(area, target, y, x);
              Collected(area, target, sight, if area.data[y, x] && sight(p) then [p] + list else list, y, x + 1)
    {
      var p := CellPosition(area, target, y, x);
      assert p !in list;
    }

    lemma RowCollected(area: MatrixArea, target: Position, sight: Position -> bool, list: seq<Position>, y: int)
      requires area.Valid() && Collected(area, target, sight, list, y, area.cols)
      ensures Collected(area, target, sight, list, y + 1, 0)
    {
    }

    lemma AllCollected(area: MatrixArea, target: Position, sight: Position -> bool, list: seq<Position>)
      requires area.Valid() && Collected(area, target, sight, list, area.rows, 0)
      ensures forall p :: p in list <==> p.z == target.z && area.Hits(p.x - target.x, p.y - target.y) && sight(p)
      ensures forall i, j :: 0 <= i < j < |list| ==> list[i] != list[j]
    {
    }

    function CellPosition(area: MatrixArea, target: Position, y: int, x: int): Position
      reads area
    {
      Position(target.x - area.centerX + x, target.y - area.centerY + y, target.z)
    }

    /** The tiles under the cells before some cell, each once. */
    ghost predicate Collected(area: MatrixArea, target: Position, sight: Position -> bool, list: seq<Position>, y: int, x: int)
      requires area.Valid()
      reads area, area.data
    {
      && (forall p :: p in list <==>
            var (row, col) := (p.y - target.y + area.centerY, p.x - target.x + area.centerX);
            p.z == target.z && area.InRange(row, col) && (row < y || (row == y && col < x)) && area.data[row, col] && sight(p))
      && (forall i, j :: 0 <= i < j < |list| ==> list[i] != list[j])
    }
  }

  /** How the other patterns come from the one for north. */
  ghost predicate Turned(north: MatrixArea, east: MatrixArea, south: MatrixArea, west: MatrixArea)
    reads north, east, south, west, north.data, east.data, south.data, west.data
  {
    && north.Valid() && east.Valid() && south.Valid() && west.Valid()
    && (forall dx, dy :: east.Hits(dx, dy) <==> north.Hits(dy, -dx))
    && (forall dx, dy :: south.Hits(dx, dy) <==> north.Hits(-dx, -dy))
    && (forall dx, dy :: west.Hits(dx, dy) <==> north.Hits(-dy, dx))
  }

  /** How the diagonal patterns come from the one for north-west. */
  ghost predicate Reflected(nw: MatrixArea, ne: MatrixArea, sw: MatrixArea, se: MatrixArea)
    reads nw, ne, sw, se, nw.data, ne.data, sw.data, se.data
  {
    && nw.Valid() && ne.Valid() && sw.Valid() && se.Valid()
    && (forall dx, dy :: ne.Hits(dx, dy) <==> nw.Hits(nw.cols - nw.rows - dx, dy))
    && (forall dx, dy :: sw.Hits(dx, dy) <==> nw.Hits(dx, nw.rows - nw.cols - dy))
    && (forall dx, dy :: se.Hits(dx, dy) <==> sw.Hits(-dx, dy))
  }

  /** For a square pattern the four diagonal patterns are the four reflections of one. */
  lemma SquareReflections(nw: MatrixArea, ne: MatrixArea, sw: MatrixArea, se: MatrixArea)
    requires Reflected(nw, ne, sw, se) && nw.rows == nw.cols
    ensures forall dx, dy ::
              && (ne.Hits(dx, dy) <==> nw.Hits(-dx, dy))
              && (sw.Hits(dx, dy) <==> nw.Hits(dx, -dy))
              && (se.Hits(dx, dy) <==> nw.Hits(-dx, -dy))
  {
    forall dx, dy
      ensures se.Hits(dx, dy) <==> nw.Hits(-dx, -dy)
    {
      assert se.Hits(dx, dy) <==> sw.Hits(-dx, dy);
    }
  }
}
