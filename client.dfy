/** The browser client's arithmetic: the colour scale, the checks made before a run is
    requested, the source-position inputs, and the drawing of a temperature matrix. */
module Client {

  // ---------------------------------------------------------------------------
  // Colour scale

  /** A colour with its three channels. */
  datatype Rgb = Rgb(r: int, g: int, b: int)

  predicate Channel(v: int) {
    0 <= v <= 255
  }

  /** `t` limited to [0, 1]; `Math.max(0, Math.min(1, t))` and `Math.min(Math.max(t, 0), 1)`
      agree on every number. */
  function Clamp01(t: real): (c: real)
    ensures 0.0 <= c <= 1.0
    ensures 0.0 <= t <= 1.0 ==> c == t
    ensures t < 0.0 ==> c == 0.0
    ensures t > 1.0 ==> c == 1.0
  {
    if t < 0.0 then 0.0 else if t > 1.0 then 1.0 else t
  }

  /** The five-segment scale blue, cyan, green, yellow, orange (255, 180, 0), red. Each channel
      is the floor of a linear interpolation within its segment. */
  function TemperatureToColor(tNorm: real): (c: Rgb)
    ensures Channel(c.r) && Channel(c.g) && Channel(c.b)
  {
    var t := Clamp01(tNorm);
    if t <= 0.25 then
      Rgb(0, ((t / 0.25) * 255.0).Floor, 255)
    else if t <= 0.5 then
      Rgb(0, 255, ((1.0 - (t - 0.25) / 0.25) * 255.0).Floor)
    else if t <= 0.75 then
      Rgb(((t - 0.5) / 0.25 * 255.0).Floor, 255, 0)
    else if t <= 0.9 then
      Rgb(255, (255.0 - (t - 0.75) / 0.15 * (255.0 - 180.0)).Floor, 0)
    else
      Rgb(255, (180.0 - (t - 0.9) / 0.1 * 180.0).Floor, 0)
  }

  /** Values outside [0, 1] are drawn like the nearest end of the scale. */
  lemma ColorClamps(t: real)
    ensures t < 0.0 ==> TemperatureToColor(t) == TemperatureToColor(0.0)
    ensures t > 1.0 ==> TemperatureToColor(t) == TemperatureToColor(1.0)
  {
  }

  /** The segment ends are the colours the scale names. */
  lemma ColorAnchors()
    ensures TemperatureToColor(0.0) == Rgb(0, 0, 255)
    ensures TemperatureToColor(0.25) == Rgb(0, 255, 255)
    ensures TemperatureToColor(0.5) == Rgb(0, 255, 0)
    ensures TemperatureToColor(0.75) == Rgb(255, 255, 0)
    ensures TemperatureToColor(0.9) == Rgb(255, 180, 0)
    ensures TemperatureToColor(1.0) == Rgb(255, 0, 0)
  {
  }

  /** Where each channel is saturated or off: no red in the cold half, full red above 0.75,
      full blue up to 0.25, no blue in the hot half, full green between 0.25 and 0.75. */
  lemma ColorBands(t: real)
    ensures t <= 0.5 ==> TemperatureToColor(t).r == 0
    ensures t > 0.75 ==> TemperatureToColor(t).r == 255
    ensures t <= 0.25 ==> TemperatureToColor(t).b == 255
    ensures t > 0.5 ==> TemperatureToColor(t).b == 0
    ensures 0.25 <= t <= 0.75 ==> TemperatureToColor(t).g == 255
  {
  }

  lemma FloorMonotone(x: real, y: real)
    requires x <= y
    ensures x.Floor <= y.Floor
  {
  }

  /** Hotter is never less red and never more blue: the scale runs from blue to red. */
  lemma {:induction false} ColorOrdered(s: real, t: real)
    requires s <= t
    ensures TemperatureToColor(s).r <= TemperatureToColor(t).r
    ensures TemperatureToColor(s).b >= TemperatureToColor(t).b
  {
    var cs, ct := Clamp01(s), Clamp01(t);
    if 0.5 < cs <= 0.75 && ct <= 0.75 {
      FloorMonotone((cs - 0.5) / 0.25 * 255.0, (ct - 0.5) / 0.25 * 255.0);
    }
    if 0.25 < cs <= 0.5 && ct <= 0.5 {
      FloorMonotone((1.0 - (ct - 0.25) / 0.25) * 255.0, (1.0 - (cs - 0.25) / 0.25) * 255.0);
    }
  }

  // ---------------------------------------------------------------------------
  // Checks before a run is requested

  /** The outcome of the checks in `startSimulation`. Each rejection shows an alert and returns
      before the buttons change or the request is sent. */
  datatype StartCheck = Proceed | SourceXTooLarge(maxX: int) | SourceYTooLarge(maxY: int) | DtTooLarge(dtMax: real)

  /** The explicit scheme's stability bound with safety factor 0.9. With `alpha == 0` the bound
      is infinite (or not a number), and no `dt` is rejected. */
  predicate Stable(dx: real, dt: real, alpha: real): (ok: bool)
    ensures alpha > 0.0 ==> (ok <==> 4.0 * alpha * dt <= 0.9 * (dx * dx))
  {
    alpha == 0.0 || dt <= 0.9 * (dx * dx) / (4.0 * alpha)
  }

  /** The source position is checked first (x, then y; a coordinate equal to the dimension is
      accepted), then the time step. */
  function CheckStart(width: int, height: int, sourceX: int, sourceY: int, dx: real, dt: real, alpha: real): (r: StartCheck)
    ensures r == Proceed <==> sourceX <= width && sourceY <= height && Stable(dx, dt, alpha)
    ensures r.SourceXTooLarge? <==> sourceX > width
    ensures r.SourceYTooLarge? <==> sourceX <= width && sourceY > height
    ensures r.DtTooLarge? <==> sourceX <= width && sourceY <= height && !Stable(dx, dt, alpha)
    ensures r.SourceXTooLarge? ==> r.maxX == width
    ensures r.SourceYTooLarge? ==> r.maxY == height
    ensures r.DtTooLarge? ==> r.dtMax == 0.9 * (dx * dx) / (4.0 * alpha)
  {
    if sourceX > width then SourceXTooLarge(width)
    else if sourceY > height then SourceYTooLarge(height)
    else if alpha != 0.0 && dt > 0.9 * (dx * dx) / (4.0 * alpha) then DtTooLarge(0.9 * (dx * dx) / (4.0 * alpha))
    else Proceed
  }

  /** The default parameters pass the check. */
  lemma DefaultsProceed()
    ensures CheckStart(50, 50, 25, 25, 1.0, 0.1, 0.1) == Proceed
  {
  }

  // ---------------------------------------------------------------------------
  // The source-position inputs

  /** A coordinate above its limit is replaced by half the limit, rounded down. */
  function WithinLimit(v: int, limit: int): (r: int)
    ensures v <= limit ==> r == v
    ensures v > limit ==> 2 * r <= limit < 2 * r + 2
    ensures limit >= 0 ==> r <= limit
  {
    if v > limit then limit / 2 else v
  }

  /** Applying the limit twice is applying it once, for every limit. */
  lemma WithinLimitIdempotent(v: int, limit: int)
    ensures WithinLimit(WithinLimit(v, limit), limit) == WithinLimit(v, limit)
  {
  }

  /** After the limits are applied, the source checks of `CheckStart` pass. */
  lemma LimitedSourceAccepted(width: int, height: int, sourceX: int, sourceY: int, dx: real, dt: real, alpha: real)
    requires width >= 0 && height >= 0
    ensures var r := CheckStart(width, height, WithinLimit(sourceX, width), WithinLimit(sourceY, height), dx, dt, alpha);
      r == Proceed || r.DtTooLarge?
  {
  }

  /** The form's numeric inputs: plate size, source position, and the upper limits of the two
      source inputs. */
  class Form {
    var width: int
    var height: int
    var sourceX: int
    var sourceY: int
    var sourceXMax: int
    var sourceYMax: int

    constructor (width: int, height: int, sourceX: int, sourceY: int)
      ensures this.width == width && this.height == height
      ensures this.sourceX == sourceX && this.sourceY == sourceY
    {
      this.width := width;
      this.height := height;
      this.sourceX := sourceX;
      this.sourceY := sourceY;
    }

    /** `updateSourceLimits`: the source inputs' limits become the plate size, and a coordinate
        above its limit is brought back inside. */
    method UpdateSourceLimits()
      modifies this`sourceX, this`sourceY, this`sourceXMax, this`sourceYMax
      ensures sourceXMax == width && sourceYMax == height
      ensures sourceX == WithinLimit(old(sourceX), width)
      ensures sourceY == WithinLimit(old(sourceY), height)
    {
      sourceXMax := width;
      sourceYMax := height;
      if sourceX > width {
        sourceX := width / 2;
      }
      if sourceY > height {
        sourceY := height / 2;
      }
    }

    /** `centerSource`: the source moves to the middle of the plate, rounded down. */
    method CenterSource()
      modifies this`sourceX, this`sourceY
      ensures 2 * sourceX <= width < 2 * sourceX + 2
      ensures 2 * sourceY <= height < 2 * sourceY + 2
    {
      sourceX := width / 2;
      sourceY := height / 2;
    }
  }

  // ---------------------------------------------------------------------------
  // Drawing

  const CellSize := 10
  const Padding := 10

  /** One `fillRect` of a `size x size` square at `(x, y)` in `color`. */
  datatype Rect = Rect(x: int, y: int, size: int, color: Rgb)

  /** The position of `temp` between `ambient` (0) and `heatTemp` (1), limited to [0, 1]. */
  function Normalised(temp: real, ambient: real, heatTemp: real): (t: real)
    requires heatTemp != ambient
    ensures 0.0 <= t <= 1.0
    ensures temp == ambient ==> t == 0.0
    ensures temp == heatTemp ==> t == 1.0
  {
    var span := heatTemp - ambient;
    assert span / span == 1.0;
    Clamp01((temp - ambient) / span)
  }

  /** At least one row, and every row as long as the first. */
  predicate Rectangular<T>(m: seq<seq<T>>) {
    |m| >= 1 && forall i :: 0 <= i < |m| ==> |m[i]| == |m[0]|
  }

  /** The square drawn for cell `(i, j)`: at `(Padding + j * CellSize, Padding + i * CellSize)`,
      `CellSize` wide, in the colour of the cell's normalised temperature. */
  function CellRect(matrix: seq<seq<real>>, ambient: real, heatTemp: real, i: nat, j: nat): (r: Rect)
    requires heatTemp != ambient && i < |matrix| && j < |matrix[i]|
    ensures Padding <= r.x && r.x + r.size <= Padding + |matrix[i]| * CellSize
    ensures Padding <= r.y && r.y + r.size <= Padding + |matrix| * CellSize
  {
    Rect(Padding + j * CellSize, Padding + i * CellSize, CellSize,
         TemperatureToColor(Normalised(matrix[i][j], ambient, heatTemp)))
  }

  /** The squares of the first `n` cells of row `i`. */
  function RowRects(matrix: seq<seq<real>>, ambient: real, heatTemp: real, i: nat, n: nat): (rs: seq<Rect>)
    requires heatTemp != ambient && i < |matrix| && n <= |matrix[i]|
    ensures |rs| == n
  {
    if n == 0 then [] else RowRects(matrix, ambient, heatTemp, i, n - 1) + [CellRect(matrix, ambient, heatTemp, i, n - 1)]
  }

  /** The squares of the first `n` rows, row by row. */
  function Picture(matrix: seq<seq<real>>, ambient: real, heatTemp: real, n: nat): (rs: seq<Rect>)
    requires Rectangular(matrix) && heatTemp != ambient && n <= |matrix|
    ensures |rs| == n * |matrix[0]|
  {
    if n == 0 then [] else Picture(matrix, ambient, heatTemp, n - 1) + RowRects(matrix, ambient, heatTemp, n - 1, |matrix[0]|)
  }

  lemma {:induction false} RowRectsAt(matrix: seq<seq<real>>, ambient: real, heatTemp: real, i: nat, n: nat, j: nat)
    requires heatTemp != ambient && i < |matrix| && j < n <= |matrix[i]|
    ensures RowRects(matrix, ambient, heatTemp, i, n)[j] == CellRect(matrix, ambient, heatTemp, i, j)
  {
    if j < n - 1 {
      RowRectsAt(matrix, ambient, heatTemp, i, n - 1, j);
    }
  }

  /** Drawing more rows only appends. */
  lemma {:induction false} PicturePrefix(matrix: seq<seq<real>>, ambient: real, heatTemp: real, m: nat, n: nat)
    requires Rectangular(matrix) && heatTemp != ambient && m <= n <= |matrix|
    ensures Picture(matrix, ambient, heatTemp, m) <= Picture(matrix, ambient, heatTemp, n)
    decreases n
  {
    if m < n {
      PicturePrefix(matrix, ambient, heatTemp, m, n - 1);
    }
  }

  /** Row `i` is complete once `i + 1` rows are drawn. */
  lemma PictureRowAt(matrix: seq<seq<real>>, ambient: real, heatTemp: real, i: nat, j: nat)
    requires Rectangular(matrix) && heatTemp != ambient && i < |matrix| && j < |matrix[0]|
    ensures i * |matrix[0]| + j < |Picture(matrix, ambient, heatTemp, i + 1)|
    ensures Picture(matrix, ambient, heatTemp, i + 1)[i * |matrix[0]| + j] == CellRect(matrix, ambient, heatTemp, i, j)
  {
    RowRectsAt(matrix, ambient, heatTemp, i, |matrix[0]|, j);
  }

  lemma PictureTakesRow(matrix: seq<seq<real>>, ambient: real, heatTemp: real, n: nat, i: nat, j: nat)
    requires Rectangular(matrix) && heatTemp != ambient && i < n <= |matrix| && j < |matrix[0]|
    ensures i * |matrix[0]| + j < |Picture(matrix, ambient, heatTemp, n)|
    ensures Picture(matrix, ambient, heatTemp, n)[i * |matrix[0]| + j] == CellRect(matrix, ambient, heatTemp, i, j)
  {
    PictureRowAt(matrix, ambient, heatTemp, i, j);
    PicturePrefix(matrix, ambient, heatTemp, i + 1, n);
  }

  /** The picture of a matrix with `rows` rows of `cols` cells has `rows * cols` squares, and
      square `i * cols + j` is the square of cell `(i, j)`. */
  lemma PictureAt(matrix: seq<seq<real>>, ambient: real, heatTemp: real, i: nat, j: nat)
    requires Rectangular(matrix) && heatTemp != ambient && i < |matrix| && j < |matrix[0]|
    ensures |Picture(matrix, ambient, heatTemp, |matrix|)| == |matrix| * |matrix[0]|
    ensures i * |matrix[0]| + j < |matrix| * |matrix[0]|
    ensures Picture(matrix, ambient, heatTemp, |matrix|)[i * |matrix[0]| + j] ==
      Rect(Padding + j * CellSize, Padding + i * CellSize, CellSize,
           TemperatureToColor(Normalised(matrix[i][j], ambient, heatTemp)))
  {
    PictureTakesRow(matrix, ambient, heatTemp, |matrix|, i, j);
  }

  /** The canvas: its size and the squares painted on it since it was last cleared. */
  class Canvas {
    var width: int
    var height: int
    var painted: seq<Rect>

    constructor (width: int, height: int)
      ensures this.width == width && this.height == height && painted == []
    {
      this.width, this.height := width, height;
      painted := [];
    }

    /** `drawSimulation`: setting the size clears the canvas to `cols * CellSize + 2 * Padding`
        by `rows * CellSize + 2 * Padding`; then every cell is painted, row by row. */
    method DrawSimulation(matrix: seq<seq<real>>, ambient: real, heatTemp: real)
      requires Rectangular(matrix) && heatTemp != ambient
      modifies this
      ensures width == |matrix[0]| * CellSize + 2 * Padding
      ensures height == |matrix| * CellSize + 2 * Padding
      ensures painted == Picture(matrix, ambient, heatTemp, |matrix|)
    {
      Resize(|matrix|, |matrix[0]|);
      var rows := |matrix|;
      var i := 0;
      while i < rows
        invariant 0 <= i <= rows
        invariant painted == Picture(matrix, ambient, heatTemp, i)
        modifies this`painted
      {
        PaintRow(matrix, i, ambient, heatTemp);
        i := i + 1;
      }
    }

    /** Setting the canvas size, which also clears it. */
    method Resize(rows: nat, cols: nat)
      modifies this
      ensures width == cols * CellSize + 2 * Padding
      ensures height == rows * CellSize + 2 * Padding
      ensures painted == []
    {
      width := cols * CellSize + 2 * Padding;
      height := rows * CellSize + 2 * Padding;
      painted := [];
    }

    /** The inner loop of `drawSimulation`: the cells of row `i`, left to right. */
    method PaintRow(matrix: seq<seq<real>>, i: nat, ambient: real, heatTemp: real)
      requires Rectangular(matrix) && heatTemp != ambient && i < |matrix|
      modifies this`painted
      ensures painted == old(painted) + RowRects(matrix, ambient, heatTemp, i, |matrix[0]|)
    {
      var cols := |matrix[0]|;
      var j := 0;
      while j < cols
        invariant 0 <= j <= cols
        invariant painted == old(painted) + RowRects(matrix, ambient, heatTemp, i, j)
      {
        var tNorm := Normalised(matrix[i][j], ambient, heatTemp);
        var color := TemperatureToColor(tNorm);
        painted := painted + [Rect(Padding + j * CellSize, Padding + i * CellSize, CellSize, color)];
        j := j + 1;
      }
    }
  }
}
