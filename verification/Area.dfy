/** The areas spells cover: drawn facing north, turned to face the other ways, and laid over the map. */
module Area {
  import opened Common

  datatype Operation = Copy | Mirror | Flip | Rotate90 | Rotate180 | Rotate270

  function Max(a: int, b: int): int {
    if a < b then b else a
  }

  class MatrixArea {
    const rows: nat
    const cols: nat
    const data: array2<bool>
    // The source keeps these in 32 bits without a sign and uses them only in
    // 16-bit sums, for which a negative number does as well as its wrapped value.
    var centerX: int
    var centerY: int

    constructor (rows: nat, cols: nat)
      ensures Valid() && fresh(data) && this.rows == rows && this.cols == cols && centerX == centerY == 0
      ensures forall r, c :: InGrid(r, c) ==> !data[r, c]
    {
      this.rows := rows;
      this.cols := cols;
      data := new bool[rows, cols]((r, c) => false);
      centerX := 0;
      centerY := 0;
    }

    predicate Valid() {
      data.Length0 == rows && data.Length1 == cols
    }

    predicate InGrid(r: int, c: int) {
      0 <= r < rows && 0 <= c < cols
    }

    /** The area covers the tile `dy`, `dx` away from its centre. */
    ghost predicate Hits(dy: int, dx: int)
      requires Valid()
      reads this, data
    {
      InGrid(centerY + dy, centerX + dx) && data[centerY + dy, centerX + dx]
    }

    method SetCenter(y: int, x: int)
      modifies this`centerX, this`centerY
      ensures centerX == x && centerY == y
    {
      centerX, centerY := x, y;
    }
  }

  /** Where the offset `dy`, `dx` of a turned or reflected area comes from. */
  function Back(op: Operation, dy: int, dx: int): (int, int) {
    match op
    case Copy => (dy, dx)
    case Mirror => (dy, -dx)
    case Flip => (-dy, dx)
    case Rotate90 => (-dx, dy)
    case Rotate180 => (-dy, -dx)
    case Rotate270 => (dx, -dy)
  }

  /** `output` covers exactly the offsets of `input`, turned or reflected, and moved by `shift`. */
  ghost predicate Follows(input: MatrixArea, output: MatrixArea, op: Operation, shiftY: int, shiftX: int)
    requires input.Valid() && output.Valid()
    reads input, input.data, output, output.data
  {
    forall dy, dx :: output.Hits(dy, dx) <==>
      input.Hits(Back(op, dy, dx).0 + shiftY, Back(op, dy, dx).1 + shiftX)
  }

  function Sine(op: Operation): int {
    match op
    case Rotate90 => 1
    case Rotate270 => -1
    case _ => 0
  }

  function Cosine(op: Operation): int {
    match op
    case Rotate90 => 0
    case Rotate180 => -1
    case Rotate270 => 0
    case _ => 1
  }

  /** Turns `newY`, `newX` about the origin; x grows to the east and y to the south. */
  function Rotated(op: Operation, newY: int, newX: int): (int, int) {
    (newX * Sine(op) + newY * Cosine(op), newX * Cosine(op) - newY * Sine(op))
  }

  /**
   The cell the rotation brings to `r`, `c` is set, and its turn has come: columns up to
   `x` are done and `y` cells of column `x`.
   */
  ghost predicate Written(input: MatrixArea, op: Operation, centerY: int, centerX: int, r: int, c: int, x: int, y: int)
    requires input.Valid()
    reads input, input.data
  {
    var back := Back(op, r - centerY, c - centerX);
    var sy, sx := input.centerY + back.0, input.centerX + back.1;
    input.InGrid(sy, sx) && (sx < x || (sx == x && sy < y)) && input.data[sy, sx]
  }

  ghost predicate Progress(input: MatrixArea, output: MatrixArea, op: Operation, centerY: int, centerX: int, x: int,
          y: int)
    requires input.Valid() && output.Valid()
    reads input, input.data, output.data
  {
    forall r, c :: output.InGrid(r, c) ==> output.data[r, c] == Written(input, op, centerY, centerX, r, c, x, y)
  }

  lemma WrittenStep(input: MatrixArea, op: Operation, centerY: int, centerX: int, r: int, c: int, x: int, y: int)
    requires input.Valid() && input.InGrid(y, x) && (op.Rotate90? || op.Rotate180? || op.Rotate270?)
    ensures var t := Rotated(op, y - input.centerY, x - input.centerX);
            Written(input, op, centerY, centerX, r, c, x, y + 1) <==>
              if r == t.0 + centerY && c == t.1 + centerX then input.data[y, x]
              else Written(input, op, centerY, centerX, r, c, x, y)
  {
    var back := Back(op, r - centerY, c - centerX);
    var t := Rotated(op, y - input.centerY, x - input.centerX);
    assert input.centerY + back.0 == y && input.centerX + back.1 == x <==> r == t.0 + centerY && c == t.1 + centerX;
  }

  /** Every turned cell has its place. */
  lemma RotatedInGrid(input: MatrixArea, op: Operation, y: int, x: int)
    requires input.InGrid(y, x) && input.InGrid(input.centerY, input.centerX)
    ensures var t := Rotated(op, y - input.centerY, x - input.centerX);
            var m := Max(input.rows, input.cols);
            0 <= t.0 + m - 1 < 2 * m - 1 && 0 <= t.1 + m - 1 < 2 * m - 1
  {}

  method WriteCell(input: MatrixArea, output: MatrixArea, op: Operation, centerY: int, centerX: int, y: nat, x: nat)
    requires input.Valid() && output.Valid() && input.data != output.data && input.InGrid(y, x)
    requires op.Rotate90? || op.Rotate180? || op.Rotate270?
    requires var t := Rotated(op, y - input.centerY, x - input.centerX); output.InGrid(t.0 + centerY, t.1 + centerX)
    requires Progress(input, output, op, centerY, centerX, x, y)
    modifies output.data
    ensures Progress(input, output, op, centerY, centerX, x, y + 1)
  {
    var t := Rotated(op, y - input.centerY, x - input.centerX);
    output.data[t.0 + centerY, t.1 + centerX] := input.data[y, x];
    forall r, c | output.InGrid(r, c)
      ensures output.data[r, c] == Written(input, op, centerY, centerX, r, c, x, y + 1)
    {
      WrittenStep(input, op, centerY, centerX, r, c, x, y);
    }
  }

  /** Turns `input` about its centre onto an empty square wide enough for any turn. */
  method CopyRotated(input: MatrixArea, output: MatrixArea, op: Operation)
    requires input.Valid() && output.Valid() && input != output && input.data != output.data
    requires op.Rotate90? || op.Rotate180? || op.Rotate270?
    requires input.rows == 0 || input.cols == 0 || input.InGrid(input.centerY, input.centerX)
    requires output.rows == output.cols == 2 * Max(input.rows, input.cols)
    requires forall r, c :: output.InGrid(r, c) ==> !output.data[r, c]
    modifies output, output.data
    ensures Follows(input, output, op, 0, 0)
  {
    var rotateCenterX := output.cols / 2 - 1;
    var rotateCenterY := output.rows / 2 - 1;
    for x := 0 to input.cols
      invariant Progress(input, output, op, rotateCenterY, rotateCenterX, x, 0)
    {
      for y := 0 to input.rows
        invariant Progress(input, output, op, rotateCenterY, rotateCenterX, x, y)
      {
        RotatedInGrid(input, op, y, x);
        WriteCell(input, output, op, rotateCenterY, rotateCenterX, y, x);
      }
    }
    output.SetCenter(rotateCenterY, rotateCenterX);
    AllWritten(input, output, op);
  }

  lemma AllWritten(input: MatrixArea, output: MatrixArea, op: Operation)
    requires input.Valid() && output.Valid() && (op.Rotate90? || op.Rotate180? || op.Rotate270?)
    requires input.rows == 0 || input.cols == 0 || input.InGrid(input.centerY, input.centerX)
    requires output.rows == output.cols == 2 * Max(input.rows, input.cols)
    requires output.centerX == output.centerY == output.rows / 2 - 1
    requires Progress(input, output, op, output.centerY, output.centerX, input.cols, 0)
    ensures Follows(input, output, op, 0, 0)
  {
    forall dy, dx ensures output.Hits(dy, dx) <==> input.Hits(Back(op, dy, dx).0 + 0, Back(op, dy, dx).1 + 0) {
      AllWrittenAt(input, output, op, dy, dx);
    }
  }

  lemma AllWrittenAt(input: MatrixArea, output: MatrixArea, op: Operation, dy: int, dx: int)
    requires input.Valid() && output.Valid() && (op.Rotate90? || op.Rotate180? || op.Rotate270?)
    requires input.rows == 0 || input.cols == 0 || input.InGrid(input.centerY, input.centerX)
    requires output.rows == output.cols == 2 * Max(input.rows, input.cols)
    requires output.centerX == output.centerY == output.rows / 2 - 1
    requires Progress(input, output, op, output.centerY, output.centerX, input.cols, 0)
    ensures output.Hits(dy, dx) <==> input.Hits(Back(op, dy, dx).0, Back(op, dy, dx).1)
  {
    var r, c := output.centerY + dy, output.centerX + dx;
    if input.Hits(Back(op, dy, dx).0, Back(op, dy, dx).1) {
      HitHasPlace(input, op, dy, dx);
    }
    assert r - output.centerY == dy && c - output.centerX == dx;
    if output.InGrid(r, c) {
      assert output.data[r, c] == Written(input, op, output.centerY, output.centerX, r, c, input.cols, 0);
    }
  }

  lemma HitHasPlace(input: MatrixArea, op: Operation, dy: int, dx: int)
    requires input.Valid() && (op.Rotate90? || op.Rotate180? || op.Rotate270?)
    requires input.rows == 0 || input.cols == 0 || input.InGrid(input.centerY, input.centerX)
    requires input.Hits(Back(op, dy, dx).0, Back(op, dy, dx).1)
    ensures var m := Max(input.rows, input.cols); 0 <= dy + m - 1 < 2 * m - 1 && 0 <= dx + m - 1 < 2 * m - 1
  {
    BackAndForth(op, dy, dx);
    RotatedInGrid(input, op, input.centerY + Back(op, dy, dx).0, input.centerX + Back(op, dy, dx).1);
  }

  lemma BackAndForth(op: Operation, dy: int, dx: int)
    requires op.Rotate90? || op.Rotate180? || op.Rotate270?
    ensures Rotated(op, Back(op, dy, dx).0, Back(op, dy, dx).1) == (dy, dx)
  {}

  method CopyPlain(input: MatrixArea, output: MatrixArea)
    requires input.Valid() && output.Valid() && input != output && input.data != output.data
    requires output.rows >= input.rows && output.cols >= input.cols
    requires forall r, c :: output.InGrid(r, c) ==> !output.data[r, c]
    modifies output, output.data
    ensures Follows(input, output, Copy, 0, 0)
  {
    for y := 0 to input.rows
      invariant forall r, c :: output.InGrid(r, c) ==> output.data[r, c] == (r < y && c < input.cols && input.data[r, c])
    {
      for x := 0 to input.cols
        invariant forall r, c :: output.InGrid(r, c) ==>
                    output.data[r, c] == ((r < y || (r == y && c < x)) && c < input.cols && input.data[r, c])
      {
        output.data[y, x] := input.data[y, x];
      }
    }
    output.SetCenter(input.centerY, input.centerX);
  }

  /** Mirrors left and right. The centre is placed by the number of rows, not of columns. */
  method CopyMirrored(input: MatrixArea, output: MatrixArea)
    requires input.Valid() && output.Valid() && input != output && input.data != output.data
    requires output.rows >= input.rows && output.cols >= input.cols
    requires forall r, c :: output.InGrid(r, c) ==> !output.data[r, c]
    modifies output, output.data
    ensures Follows(input, output, Mirror, 0, input.cols - input.rows)
  {
    for y := 0 to input.rows
      invariant forall r, c :: output.InGrid(r, c) ==>
                  output.data[r, c] == (r < y && c < input.cols && input.data[r, input.cols - 1 - c])
    {
      var rx := 0;
      var x: int := input.cols - 1;
      while x >= 0
        invariant -1 <= x && rx == input.cols - 1 - x
        invariant forall r, c :: output.InGrid(r, c) ==>
                    output.data[r, c] == ((r < y || (r == y && c < rx)) && c < input.cols && input.data[r, input.cols - 1 - c])
      {
        output.data[y, rx] := input.data[y, x];
        rx := rx + 1;
        x := x - 1;
      }
    }
    output.SetCenter(input.centerY, input.rows - 1 - input.centerX);
  }

  /** Mirrors top and bottom. The centre is placed by the number of columns, not of rows. */
  method CopyFlipped(input: MatrixArea, output: MatrixArea)
    requires input.Valid() && output.Valid() && input != output && input.data != output.data
    requires output.rows >= input.rows && output.cols >= input.cols
    requires forall r, c :: output.InGrid(r, c) ==> !output.data[r, c]
    modifies output, output.data
    ensures Follows(input, output, Flip, input.rows - input.cols, 0)
  {
    for x := 0 to input.cols
      invariant forall r, c :: output.InGrid(r, c) ==>
                  output.data[r, c] == (c < x && r < input.rows && input.data[input.rows - 1 - r, c])
    {
      var ry := 0;
      var y: int := input.rows - 1;
      while y >= 0
        invariant -1 <= y && ry == input.rows - 1 - y
        invariant forall r, c :: output.InGrid(r, c) ==>
                    output.data[r, c] == ((c < x || (c == x && r < ry)) && r < input.rows && input.data[input.rows - 1 - r, c])
      {
        output.data[ry, x] := input.data[y, x];
        ry := ry + 1;
        y := y - 1;
      }
    }
    output.SetCenter(input.cols - 1 - input.centerY, input.centerX);
  }

  method CopyArea(input: MatrixArea, output: MatrixArea, op: Operation)
    requires input.Valid() && output.Valid() && input != output && input.data != output.data
    requires op.Rotate90? || op.Rotate180? || op.Rotate270? ==>
               && output.rows == output.cols == 2 * Max(input.rows, input.cols)
               && (input.rows == 0 || input.cols == 0 || input.InGrid(input.centerY, input.centerX))
    requires output.rows >= input.rows && output.cols >= input.cols
    requires forall r, c :: output.InGrid(r, c) ==> !output.data[r, c]
    modifies output, output.data
    ensures op == Mirror ==> Follows(input, output, op, 0, input.cols - input.rows)
    ensures op == Flip ==> Follows(input, output, op, input.rows - input.cols, 0)
    ensures op != Mirror && op != Flip ==> Follows(input, output, op, 0, 0)
  {
    match op
    case Copy => CopyPlain(input, output);
    case Mirror => CopyMirrored(input, output);
    case Flip => CopyFlipped(input, output);
    case _ => CopyRotated(input, output, op);
  }

  /** A pattern that equals itself moved one way covers nothing. */
  lemma {:induction false} NoPeriod(area: MatrixArea, dy: int, dx: int, stepY: nat, stepX: nat, n: nat)
    requires area.Valid() && stepY + stepX > 0
    requires area.rows - area.centerY - dy + area.cols - area.centerX - dx <= n
    requires forall y, x :: area.Hits(y, x) <==> area.Hits(y + stepY, x + stepX)
    ensures !area.Hits(dy, dx)
    decreases n
  {
    if area.Hits(dy, dx) {
      assert area.Hits(dy + stepY, dx + stepX);
      var step := stepY + stepX;
      NoPeriod(area, dy + stepY, dx + stepX, stepY, stepX, if n < step then 0 else n - step);
    }
  }

  lemma PeriodicIsEmpty(area: MatrixArea, stepY: nat, stepX: nat)
    requires area.Valid() && stepY + stepX > 0
    requires forall y, x :: area.Hits(y, x) <==> area.Hits(y + stepY, x + stepX)
    ensures Empty(area)
  {
    forall dy, dx ensures !area.Hits(dy, dx) {
      var n := area.rows - area.centerY - dy + area.cols - area.centerX - dx;
      NoPeriod(area, dy, dx, stepY, stepX, if n < 0 then 0 else n);
    }
  }

  ghost predicate Empty(area: MatrixArea)
    requires area.Valid()
    reads area, area.data
  {
    forall dy, dx :: !area.Hits(dy, dx)
  }

  /** The mirrored area is the reflection if and only if the drawing was square, or covered nothing. */
  lemma MirroredIffSquare(input: MatrixArea, output: MatrixArea)
    requires input.Valid() && output.Valid() && Follows(input, output, Mirror, 0, input.cols - input.rows)
    ensures Follows(input, output, Mirror, 0, 0) <==> input.rows == input.cols || Empty(input)
  {
    var shift := input.cols - input.rows;
    if Follows(input, output, Mirror, 0, 0) && shift != 0 {
      var step := if shift > 0 then shift else -shift;
      forall y, x ensures input.Hits(y, x) <==> input.Hits(y + 0, x + step) {
        assert output.Hits(y, -x) <==> input.Hits(y, x);
        assert output.Hits(y, -x) <==> input.Hits(y, x + shift);
        assert output.Hits(y, -x - step) <==> input.Hits(y, x + step);
        assert output.Hits(y, -x - step) <==> input.Hits(y, x + step + shift);
      }
      PeriodicIsEmpty(input, 0, step);
    }
  }

  /** Likewise top to bottom. */
  lemma FlippedIffSquare(input: MatrixArea, output: MatrixArea)
    requires input.Valid() && output.Valid() && Follows(input, output, Flip, input.rows - input.cols, 0)
    ensures Follows(input, output, Flip, 0, 0) <==> input.rows == input.cols || Empty(input)
  {
    var shift := input.rows - input.cols;
    if Follows(input, output, Flip, 0, 0) && shift != 0 {
      var step := if shift > 0 then shift else -shift;
      forall y, x ensures input.Hits(y, x) <==> input.Hits(y + step, x + 0) {
        assert output.Hits(-y, x) <==> input.Hits(y, x);
        assert output.Hits(-y, x) <==> input.Hits(y + shift, x);
        assert output.Hits(-y - step, x) <==> input.Hits(y + step, x);
        assert output.Hits(-y - step, x) <==> input.Hits(y + step + shift, x);
      }
      PeriodicIsEmpty(input, step, 0);
    }
  }

  datatype Direction = North | East | South | West | SouthWest | SouthEast | NorthWest | NorthEast

  /** The value at a place of a list that holds a matrix row by row. */
  function At(list: seq<int>, cols: nat, r: int, c: int): int {
    if 0 <= r * cols + c < |list| then list[r * cols + c] else 0
  }

  /** The area drawn by a list: 1 covers, 2 is the centre, 3 is both. */
  ghost predicate Drawn(area: MatrixArea, list: seq<int>)
    requires area.Valid()
    reads area, area.data
  {
    && (forall r, c :: area.InGrid(r, c) ==> area.data[r, c] == (At(list, area.cols, r, c) in {1, 3}))
    && (area.rows > 0 && area.cols > 0 ==> area.InGrid(area.centerY, area.centerX))
    && ((exists k :: 0 <= k < |list| && list[k] in {2, 3}) ==> At(list, area.cols, area.centerY, area.centerX) in {2, 3})
  }

  lemma RowInGrid(rows: int, cols: int, y: int, x: int)
    requires 0 <= x < cols && y * cols + x < rows * cols
    ensures y < rows
  {
    MultiplesApart(rows - 1, y, cols);
    assert (rows - 1) * cols + cols == rows * cols;
  }

  /** Reads a drawing; the list must fill the rows, as the source takes for granted. */
  method CreateArea(list: seq<int>, rows: nat) returns (area: MatrixArea)
    requires rows == 0 ==> list == []
    requires rows > 0 ==> |list| == rows * (|list| / rows)
    ensures fresh(area) && fresh(area.data) && area.Valid() && Drawn(area, list)
    ensures area.rows == rows && area.cols == if rows == 0 then 0 else |list| / rows
  {
    var cols := if rows == 0 then 0 else |list| / rows;
    area := new MatrixArea(rows, cols);
    var x, y := 0, 0;
    for k := 0 to |list|
      invariant 0 <= y && 0 <= x && (x < cols || |list| == 0) && k == y * cols + x
      invariant forall r, c :: area.InGrid(r, c) ==>
                  area.data[r, c] == ((r < y || (r == y && c < x)) && At(list, cols, r, c) in {1, 3})
      invariant rows > 0 && cols > 0 ==> area.InGrid(area.centerY, area.centerX)
      invariant (exists j :: 0 <= j < k && list[j] in {2, 3}) ==> At(list, cols, area.centerY, area.centerX) in {2, 3}
    {
      RowInGrid(rows, cols, y, x);
      assert At(list, cols, y, x) == list[k];
      if list[k] == 1 || list[k] == 3 {
        area.data[y, x] := true;
      }
      if list[k] == 2 || list[k] == 3 {
        area.SetCenter(y, x);
      }
      x := x + 1;
      if cols == x {
        assert (y + 1) * cols == y * cols + cols;
        x := 0;
        y := y + 1;
      }
    }
    if |list| > 0 {
      EndOfList(rows, cols, y, x);
    }
  }

  lemma EndOfList(rows: int, cols: int, y: int, x: int)
    requires 0 <= x < cols && y * cols + x == rows * cols
    ensures y == rows && x == 0
  {
    MultiplesApart(y, rows, cols);
    MultiplesApart(rows, y, cols);
  }

  /** The wave's list, cell by cell: rows and columns count from 1. */
  function WaveValue(rows: int, cols: int, y: int, x: int, colSpread: int): int {
    if y == rows && x == cols / 2 + 1 then 3 else if cols - colSpread + 1 <= x <= colSpread then 1 else 0
  }

  /** How far the wave is from the side of row `r`, from 0. */
  function Margin(spread: int, r: int): int {
    if spread > 0 then r / spread else 0
  }

  function Half(length: int, spread: int): int {
    if spread > 0 then length / spread else if spread < 0 then -(length / -spread) else 0
  }

  ghost predicate WaveRows(list: seq<int>, rows: int, cols: nat, spread: int, y: int) {
    && |list| == y * cols
    && forall r, c :: 0 <= r < y && 0 <= c < cols ==>
         At(list, cols, r, c) == WaveValue(rows, cols, r + 1, c + 1, cols - Margin(spread, r))
  }

  ghost predicate WaveLine(row: seq<int>, rows: int, cols: nat, spread: int, y: int) {
    |row| == cols && forall c :: 0 <= c < cols ==> row[c] == WaveValue(rows, cols, y + 1, c + 1, cols - Margin(spread, y))
  }

  /** Draws row `y` + 1 of a wave. */
  method DrawLine(rows: int, cols: nat, ghost spread: int, y: nat, colSpread: int) returns (row: seq<int>)
    requires colSpread == cols - Margin(spread, y)
    ensures WaveLine(row, rows, cols, spread, y)
  {
    row := [];
    var mincol := cols - colSpread + 1;
    var maxcol := cols - (cols - colSpread);
    for x := 1 to cols + 1
      invariant |row| == x - 1
      invariant forall c :: 0 <= c < x - 1 ==> row[c] == WaveValue(rows, cols, y + 1, c + 1, colSpread)
    {
      if y + 1 == rows && x == (cols - cols % 2) / 2 + 1 {
        row := row + [3];
      } else if mincol <= x <= maxcol {
        row := row + [1];
      } else {
        row := row + [0];
      }
    }
  }

  lemma LineAdded(list: seq<int>, row: seq<int>, rows: int, cols: nat, spread: int, y: nat)
    requires WaveRows(list, rows, cols, spread, y) && WaveLine(row, rows, cols, spread, y)
    ensures WaveRows(list + row, rows, cols, spread, y + 1)
  {
    assert (y + 1) * cols == y * cols + cols;
    forall r, c | 0 <= r < y + 1 && 0 <= c < cols
      ensures At(list + row, cols, r, c) == WaveValue(rows, cols, r + 1, c + 1, cols - Margin(spread, r))
    {
      MultiplesApart(r, y, cols);
      MultiplesApart(-1, r, cols);
      assert At(list, cols, r, c) == WaveValue(rows, cols, r + 1, c + 1, cols - Margin(spread, r)) || r == y;
    }
  }

  /** One step of the narrowing: a side moves in each time `spread` more rows are done. */
  lemma MarginStep(spread: int, y: nat)
    ensures Margin(spread, y + 1) == Margin(spread, y) + if spread > 0 && (y + 1) % spread == 0 then 1 else 0
  {
    if spread > 0 {
      var q, r := y / spread, y % spread;
      assert y == q * spread + r && 0 <= r < spread;
      if r + 1 == spread {
        assert y + 1 == (q + 1) * spread + 0;
        Quotient(y + 1, spread, q + 1, 0);
      } else {
        Quotient(y + 1, spread, q, r + 1);
      }
    }
  }

  /**
   The wave of a length and spread: row `r` covers what is left between equal
   margins that grow by one every `spread` rows and never meet, so that no row
   is empty; the centre is in the middle of the last row.
   */
  ghost predicate WaveShaped(area: MatrixArea, length: nat, spread: int)
    requires area.Valid()
    reads area, area.data
  {
    && area.rows == length && area.cols == Max(2 * Half(length, spread) + 1, 0)
    && (length > 0 && area.cols > 0 ==> area.centerY == length - 1 && area.centerX == Half(length, spread))
    && (forall r, c :: area.InGrid(r, c) ==> area.data[r, c] == (Margin(spread, r) <= c < area.cols - Margin(spread, r)))
    && (forall r :: 0 <= r < length && area.cols > 0 ==> Margin(spread, r) <= Half(length, spread))
  }

  method WaveList(length: nat, spread: int) returns (list: seq<int>)
    ensures WaveRows(list, length, Max(2 * Half(length, spread) + 1, 0), spread, length)
  {
    list := [];
    var cols := 1;
    if spread != 0 {
      // C++ division: (length - length % spread) / spread, towards zero
      cols := (if spread > 0 then length / spread else -(length / -spread)) * 2 + 1;
    }
    if cols < 0 {
      cols := 0;
    }
    var colSpread: int := cols;
    for y := 0 to length
      invariant colSpread == cols - Margin(spread, y) && WaveRows(list, length, cols, spread, y)
    {
      var row := DrawLine(length, cols, spread, y, colSpread);
      LineAdded(list, row, length, cols, spread, y);
      list := list + row;
      MarginStep(spread, y);
      if spread > 0 && (y + 1) % spread == 0 {
        colSpread := colSpread - 1;
      }
    }
  }

  lemma WaveIsDrawn(area: MatrixArea, list: seq<int>, length: nat, spread: int)
    requires area.Valid() && Drawn(area, list)
    requires area.rows == length && area.cols == Max(2 * Half(length, spread) + 1, 0)
    requires WaveRows(list, length, area.cols, spread, length)
    ensures WaveShaped(area, length, spread)
  {
    var cols, half := area.cols, Half(length, spread);
    forall r: nat | r < length && cols > 0 ensures Margin(spread, r) <= Half(length, spread) {
      MiddleCovered(length, spread, r);
    }
    if length > 0 && cols > 0 {
      assert At(list, cols, length - 1, half) == 3;
      MultiplesApart(length - 1, length, cols);
      MultiplesApart(-1, length - 1, cols);
      assert list[(length - 1) * cols + half] == 3;
      assert At(list, cols, area.centerY, area.centerX) in {2, 3};
    }
    forall r, c | area.InGrid(r, c)
      ensures area.data[r, c] == (Margin(spread, r) <= c < cols - Margin(spread, r))
    {
      assert At(list, cols, r, c) == WaveValue(length, cols, r + 1, c + 1, cols - Margin(spread, r));
    }
  }

  /** The margins never meet: the middle of every row is covered. */
  lemma MiddleCovered(length: nat, spread: int, r: nat)
    requires r < length && Half(length, spread) >= 0
    ensures Margin(spread, r) <= Half(length, spread)
  {
    if spread > 0 {
      var q, q' := length / spread, r / spread;
      assert q * spread <= length < q * spread + spread;
      assert q' * spread <= r < q' * spread + spread;
      MultiplesApart(q, q', spread);
    }
  }

  ghost predicate Turns(north: MatrixArea, east: MatrixArea, south: MatrixArea, west: MatrixArea)
    reads north, north.data, east, east.data, south, south.data, west, west.data
  {
    && north.Valid() && east.Valid() && south.Valid() && west.Valid()
    && Follows(north, east, Rotate90, 0, 0)
    && Follows(north, south, Rotate180, 0, 0)
    && Follows(north, west, Rotate270, 0, 0)
  }

  ghost predicate Reflections(nw: MatrixArea, ne: MatrixArea, sw: MatrixArea, se: MatrixArea)
    reads nw, nw.data, ne, ne.data, sw, sw.data, se, se.data
  {
    && nw.Valid() && ne.Valid() && sw.Valid() && se.Valid()
    && Follows(nw, ne, Mirror, 0, nw.cols - nw.rows)
    && Follows(nw, sw, Flip, nw.rows - nw.cols, 0)
    && Follows(sw, se, Mirror, 0, 0)
  }

  class AreaCombat {
    var areas: map<Direction, MatrixArea>
    var hasExtArea: bool

    /** The four straight areas are the drawing and its turns about the centre. */
    ghost predicate Turned()
      reads this, areas.Values, set a | a in areas.Values :: a.data
    {
      && North in areas && South in areas && East in areas && West in areas
      && Turns(areas[North], areas[East], areas[South], areas[West])
    }

    method Turn(area: MatrixArea, op: Operation) returns (turned: MatrixArea)
      requires area.Valid() && (op.Rotate90? || op.Rotate180? || op.Rotate270?)
      requires area.rows == 0 || area.cols == 0 || area.InGrid(area.centerY, area.centerX)
      ensures turned.Valid() && fresh(turned) && fresh(turned.data) && Follows(area, turned, op, 0, 0)
    {
      var maxOutput := Max(area.cols, area.rows) * 2;
      turned := new MatrixArea(maxOutput, maxOutput);
      CopyArea(area, turned, op);
    }

    /** Sets up the four areas of a drawing made facing north. */
    method SetupArea(list: seq<int>, rows: nat)
      requires rows == 0 ==> list == []
      requires rows > 0 ==> |list| == rows * (|list| / rows)
      modifies this
      ensures Turned() && Drawn(areas[North], list) && hasExtArea == old(hasExtArea)
      ensures areas[North].rows == rows && areas[North].cols == if rows == 0 then 0 else |list| / rows
    {
      var area := CreateArea(list, rows);
      var southArea, eastArea, westArea := TurnAll(area);
      areas := areas[North := area][South := southArea][East := eastArea][West := westArea];
    }

    method TurnAll(area: MatrixArea) returns (southArea: MatrixArea, eastArea: MatrixArea, westArea: MatrixArea)
      requires area.Valid()
      requires area.rows == 0 || area.cols == 0 || area.InGrid(area.centerY, area.centerX)
      ensures Turns(area, eastArea, southArea, westArea)
    {
      southArea := Turn(area, Rotate180);
      eastArea := Turn(area, Rotate90);
      westArea := Turn(area, Rotate270);
    }

    method SetupWave(length: nat, spread: int)
      modifies this
      ensures Turned() && (length > 0 ==> WaveShaped(areas[North], length, spread))
    {
      var list := WaveList(length, spread);
      ghost var cols := Max(2 * Half(length, spread) + 1, 0);
      if length > 0 {
        Quotient(|list|, length, cols, 0);
      }
      SetupArea(list, length);
      if length > 0 {
        WaveIsDrawn(areas[North], list, length, spread);
      }
    }

    method Reflect(area: MatrixArea, op: Operation, side: nat) returns (reflected: MatrixArea)
      requires area.Valid() && (op == Mirror || op == Flip) && side >= area.rows && side >= area.cols
      ensures reflected.Valid() && fresh(reflected) && fresh(reflected.data)
      ensures reflected.rows == reflected.cols == side
      ensures op == Mirror ==> Follows(area, reflected, Mirror, 0, area.cols - area.rows)
      ensures op == Flip ==> Follows(area, reflected, Flip, area.rows - area.cols, 0)
    {
      reflected := new MatrixArea(side, side);
      CopyArea(area, reflected, op);
    }

    /** The diagonal areas are reflections of the north-west one, displaced when its drawing is not square. */
    ghost predicate Reflected()
      reads this, areas.Values, set a | a in areas.Values :: a.data
    {
      && NorthWest in areas && NorthEast in areas && SouthWest in areas && SouthEast in areas
      && Reflections(areas[NorthWest], areas[NorthEast], areas[SouthWest], areas[SouthEast])
    }

    method SetupExtArea(list: seq<int>, rows: nat)
      requires rows == 0 ==> list == []
      requires rows > 0 ==> |list| == rows * (|list| / rows)
      modifies this
      ensures list == [] ==> unchanged(this)
      ensures list != [] ==> hasExtArea && Reflected() && Drawn(areas[NorthWest], list)
    {
      if list == [] {
        return;
      }
      hasExtArea := true;
      var area := CreateArea(list, rows);
      var neArea, swArea, seArea := ReflectAll(area);
      areas := areas[NorthWest := area][NorthEast := neArea][SouthWest := swArea][SouthEast := seArea];
    }

    method ReflectAll(area: MatrixArea) returns (neArea: MatrixArea, swArea: MatrixArea, seArea: MatrixArea)
      requires area.Valid()
      ensures Reflections(area, neArea, swArea, seArea)
    {
      var maxOutput := Max(area.cols, area.rows) * 2;
      neArea := Reflect(area, Mirror, maxOutput);
      swArea := Reflect(area, Flip, maxOutput);
      seArea := Reflect(swArea, Mirror, maxOutput);
    }

    /** From a square drawing all three are exact: the south-east area is the north-west one reflected both ways. */
    lemma SquareIsReflected(dy: int, dx: int)
      requires Reflected() && areas[NorthWest].rows == areas[NorthWest].cols
      ensures areas[NorthEast].Hits(dy, dx) <==> areas[NorthWest].Hits(dy, -dx)
      ensures areas[SouthWest].Hits(dy, dx) <==> areas[NorthWest].Hits(-dy, dx)
      ensures areas[SouthEast].Hits(dy, dx) <==> areas[NorthWest].Hits(-dy, -dx)
    {
      assert areas[SouthEast].Hits(dy, dx) <==> areas[SouthWest].Hits(dy, -dx);
      assert areas[SouthWest].Hits(dy, -dx) <==> areas[NorthWest].Hits(-dy, -dx);
    }

    /** East of north, south and west the drawing made facing north is turned to the right once, twice and three times. */
    lemma TurnedAsDrawn(dy: int, dx: int)
      requires Turned()
      ensures areas[East].Hits(dy, dx) <==> areas[North].Hits(-dx, dy)
      ensures areas[South].Hits(dy, dx) <==> areas[North].Hits(-dy, -dx)
      ensures areas[West].Hits(dy, dx) <==> areas[North].Hits(dx, -dy)
    {}

    ghost function AreaFor(dir: Direction): MatrixArea?
      reads this`areas
    {
      if dir in areas then areas[dir] else null
    }

    /** The area for a target seen from the caster, if there is one for that direction. */
    method GetArea(dx: int, dy: int) returns (area: MatrixArea?)
      ensures var dir := Toward(dx, dy, hasExtArea); area == if dir in areas then areas[dir] else null
      ensures dx > 0 && (dy == 0 || !hasExtArea) ==> area == AreaFor(East)
      ensures dx < 0 && (dy == 0 || !hasExtArea) ==> area == AreaFor(West)
      ensures dx == 0 ==> area == AreaFor(if dy < 0 then North else South)
      ensures dx > 0 && dy < 0 && hasExtArea ==> area == AreaFor(NorthEast)
      ensures dx > 0 && dy > 0 && hasExtArea ==> area == AreaFor(SouthEast)
      ensures dx < 0 && dy < 0 && hasExtArea ==> area == AreaFor(NorthWest)
      ensures dx < 0 && dy > 0 && hasExtArea ==> area == AreaFor(SouthWest)
    {
      var dir;
      if dx < 0 {
        dir := West;
      } else if dx > 0 {
        dir := East;
      } else if dy < 0 {
        dir := North;
      } else {
        dir := South;
      }
      if hasExtArea {
        if dx < 0 && dy < 0 {
          dir := NorthWest;
        } else if dx > 0 && dy < 0 {
          dir := NorthEast;
        } else if dx < 0 && dy > 0 {
          dir := SouthWest;
        } else if dx > 0 && dy > 0 {
          dir := SouthEast;
        }
      }
      area := if dir in areas then areas[dir] else null;
    }

    /** The tiles a spell reaches: those at the area's offsets from the target that can be seen from it. */
    method GetList(centerX: int, centerY: int, targetX: int, targetY: int, sight: ((int, int)) -> bool)
      returns (list: seq<(int, int)>)
      requires forall d :: d in areas ==> areas[d].Valid()
      ensures var dir := Toward(targetX - centerX, targetY - centerY, hasExtArea);
              if dir !in areas then list == [] else
                && (forall dy, dx :: areas[dir].Hits(dy, dx) && sight(Spot(targetX, targetY, dy, dx)) ==>
                      Spot(targetX, targetY, dy, dx) in list)
                && (forall p :: p in list ==> exists dy, dx ::
                      areas[dir].Hits(dy, dx) && sight(p) && p == Spot(targetX, targetY, dy, dx))
                && (areas[dir].rows <= LIMIT && areas[dir].cols <= LIMIT ==> Distinct(list))
    {
      var area := GetArea(targetX - centerX, targetY - centerY);
      if area == null {
        return [];
      }
      list := LayOut(area, targetX, targetY, sight);
    }
  }

  const LIMIT := 65536  // coordinates are 16 bits wide

  function Spot(targetX: int, targetY: int, dy: int, dx: int): (int, int) {
    ((targetX + dx) % LIMIT, (targetY + dy) % LIMIT)
  }

  /** Everywhere on a map of 16-bit coordinates a spot is the tile at that offset. */
  lemma SpotOnMap(targetX: int, targetY: int, dy: int, dx: int)
    requires 0 <= targetX + dx < 0x1_0000 && 0 <= targetY + dy < 0x1_0000
    ensures Spot(targetX, targetY, dy, dx) == (targetX + dx, targetY + dy)
  {}

  predicate Distinct<T(==)>(list: seq<T>) {
    forall j, k :: 0 <= j < k < |list| ==> list[j] != list[k]
  }

  /** Which way the target lies; straight east or west wins over north and south unless there are diagonal areas. */
  function Toward(dx: int, dy: int, diagonal: bool): Direction {
    if diagonal && dx != 0 && dy != 0 then
      if dy < 0 then if dx < 0 then NorthWest else NorthEast else if dx < 0 then SouthWest else SouthEast
    else if dx != 0 then if dx < 0 then West else East
    else if dy < 0 then North else South
  }

  /** The spot of cell `r`, `c`, one of the first cells of the area in reading order, and covered and in sight. */
  ghost predicate Laid(area: MatrixArea, targetX: int, targetY: int, sight: ((int, int)) -> bool, p: (int, int),
          r: int, c: int, y: int, x: int)
    requires area.Valid()
    reads area, area.data
  {
    && area.InGrid(r, c) && (r < y || (r == y && c < x)) && area.data[r, c]
    && p == Spot(targetX, targetY, r - area.centerY, c - area.centerX) && sight(p)
  }

  ghost predicate Reached(area: MatrixArea, targetX: int, targetY: int, sight: ((int, int)) -> bool, p: (int, int),
          y: int, x: int)
    requires area.Valid()
    reads area, area.data
  {
    exists r, c :: Laid(area, targetX, targetY, sight, p, r, c, y, x)
  }

  ghost predicate LaidOut(area: MatrixArea, targetX: int, targetY: int, sight: ((int, int)) -> bool, list: seq<(int,
          int)>, y: int, x: int)
    requires area.Valid()
    reads area, area.data
  {
    && (forall p :: p in list ==> Reached(area, targetX, targetY, sight, p, y, x))
    && (forall r, c, p :: Laid(area, targetX, targetY, sight, p, r, c, y, x) ==> p in list)
    && (area.rows <= LIMIT && area.cols <= LIMIT ==> Distinct(list))
  }

  lemma SpotsDiffer(a: int, b: int)
    requires a % LIMIT == b % LIMIT && -LIMIT < a - b < LIMIT
    ensures a == b
  {}

  lemma StepAside(a: int, b: int)
    ensures (a % LIMIT + b) % LIMIT == (a + b) % LIMIT
  {}

  method LayOut(area: MatrixArea, targetX: int, targetY: int, sight: ((int, int)) -> bool) returns (list: seq<(int,
          int)>)
    requires area.Valid()
    ensures forall dy, dx :: area.Hits(dy, dx) && sight(Spot(targetX, targetY, dy, dx)) ==> Spot(targetX, targetY, dy, dx) in list
    ensures forall p :: p in list ==> exists dy, dx :: area.Hits(dy, dx) && sight(p) && p == Spot(targetX, targetY, dy, dx)
    ensures area.rows <= LIMIT && area.cols <= LIMIT ==> Distinct(list)
  {
    list := [];
    var cols: int := area.cols;
    var tmpX: int, tmpY: int := (targetX - area.centerX) % LIMIT, (targetY - area.centerY) % LIMIT;
    for y := 0 to area.rows
      invariant tmpX == (targetX - area.centerX) % LIMIT && tmpY == (targetY - area.centerY + y) % LIMIT
      invariant LaidOut(area, targetX, targetY, sight, list, y, 0)
    {
      for x := 0 to area.cols
        invariant tmpX == (targetX - area.centerX + x) % LIMIT && tmpY == (targetY - area.centerY + y) % LIMIT
        invariant LaidOut(area, targetX, targetY, sight, list, y, x)
      {
        list := LayCell(area, targetX, targetY, sight, list, y, x, tmpX, tmpY);
        StepAside(targetX - area.centerX + x, 1);
        tmpX := (tmpX + 1) % LIMIT;
      }
      StepAside(targetX - area.centerX + cols, -cols);
      tmpX := (tmpX - cols) % LIMIT;
      StepAside(targetY - area.centerY + y, 1);
      tmpY := (tmpY + 1) % LIMIT;
      NextLine(area, targetX, targetY, sight, list, y);
    }
    AllLaid(area, targetX, targetY, sight, list);
  }

  lemma NextLine(area: MatrixArea, targetX: int, targetY: int, sight: ((int, int)) -> bool, list: seq<(int, int)>,
          y: int)
    requires area.Valid() && LaidOut(area, targetX, targetY, sight, list, y, area.cols)
    ensures LaidOut(area, targetX, targetY, sight, list, y + 1, 0)
  {
    var next := y + 1;
    forall p | p in list ensures Reached(area, targetX, targetY, sight, p, next, 0) {
      var r, c :| Laid(area, targetX, targetY, sight, p, r, c, y, area.cols);
      assert Laid(area, targetX, targetY, sight, p, r, c, next, 0);
    }
    forall r, c, p | Laid(area, targetX, targetY, sight, p, r, c, next, 0) ensures p in list {
      assert Laid(area, targetX, targetY, sight, p, r, c, y, area.cols);
    }
  }

  lemma AllLaid(area: MatrixArea, targetX: int, targetY: int, sight: ((int, int)) -> bool, list: seq<(int, int)>)
    requires area.Valid() && LaidOut(area, targetX, targetY, sight, list, area.rows, 0)
    ensures forall dy, dx :: area.Hits(dy, dx) && sight(Spot(targetX, targetY, dy, dx)) ==> Spot(targetX, targetY, dy, dx) in list
    ensures forall p :: p in list ==> exists dy, dx :: area.Hits(dy, dx) && sight(p) && p == Spot(targetX, targetY, dy, dx)
  {
    forall dy, dx | area.Hits(dy, dx) && sight(Spot(targetX, targetY, dy, dx)) ensures Spot(targetX, targetY, dy, dx) in list {
      assert Laid(area, targetX, targetY, sight, Spot(targetX, targetY, dy, dx), area.centerY + dy, area.centerX + dx, area.rows, 0);
    }
    forall p | p in list ensures exists dy, dx :: area.Hits(dy, dx) && sight(p) && p == Spot(targetX, targetY, dy, dx) {
      var r, c :| Laid(area, targetX, targetY, sight, p, r, c, area.rows, 0);
      assert area.Hits(r - area.centerY, c - area.centerX);
    }
  }

  method LayCell(area: MatrixArea, targetX: int, targetY: int, sight: ((int, int)) -> bool, list0: seq<(int, int)>,
          y: int, x: int, tmpX: int, tmpY: int)
    returns (list: seq<(int, int)>)
    requires area.Valid() && area.InGrid(y, x) && LaidOut(area, targetX, targetY, sight, list0, y, x)
    requires (tmpX, tmpY) == Spot(targetX, targetY, y - area.centerY, x - area.centerX)
    ensures LaidOut(area, targetX, targetY, sight, list, y, x + 1)
  {
    list := list0;
    var p := (tmpX, tmpY);
    ghost var next := x + 1;
    if area.data[y, x] {
      if sight(p) {
        list := [p] + list;
        assert Laid(area, targetX, targetY, sight, p, y, x, y, next);
        if area.rows <= LIMIT && area.cols <= LIMIT && p in list0 {
          ghost var r, c :| Laid(area, targetX, targetY, sight, p, r, c, y, x);
          SpotsDiffer(targetX + c - area.centerX, targetX + x - area.centerX);
          SpotsDiffer(targetY + r - area.centerY, targetY + y - area.centerY);
          assert false;
        }
      }
    }
    forall q | q in list ensures Reached(area, targetX, targetY, sight, q, y, next) {
      if q in list0 {
        ghost var r, c :| Laid(area, targetX, targetY, sight, q, r, c, y, x);
        assert Laid(area, targetX, targetY, sight, q, r, c, y, next);
      }
    }
    forall r, c, q | Laid(area, targetX, targetY, sight, q, r, c, y, next) ensures q in list {
      assert Laid(area, targetX, targetY, sight, q, r, c, y, x) || (r == y && c == x);
    }
  }
}
