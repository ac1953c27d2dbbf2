/** The temperature field of the heat plate as a value, and what one tick does to it.

    A field is `h` rows of `w` cells (row-major, the shape of the engine's array `T`).
    One tick is written as the same sequence of stages the engine performs on its
    second buffer: the explicit 5-point stencil on the interior, the four edge copies
    of the insulated (zero-gradient) boundary, and the pin of the centre source. */
module Field {

  ghost predicate IsGrid(g: seq<seq<real>>, h: nat, w: nat) {
    |g| == h && forall i :: 0 <= i < h ==> |g[i]| == w
  }

  /** Fraction of the source-ambient gap a cell must reach to count as heated. */
  const HeatedFraction: real := 0.99

  /** The temperature at or above which a cell counts as heated. */
  function Threshold(ambient: real, heatTemp: real): (t: real)
    ensures heatTemp >= ambient ==> ambient <= t <= heatTemp
    ensures heatTemp > ambient ==> ambient < t < heatTemp
    ensures heatTemp >= t <==> heatTemp >= ambient
    ensures t - ambient == HeatedFraction * (heatTemp - ambient)
  {
    ambient + HeatedFraction * (heatTemp - ambient)
  }

  /** The plate at start: every cell at `ambient` but the centre `(h / 2, w / 2)`, which is at
      `heatTemp`. */
  function InitialField(h: nat, w: nat, ambient: real, heatTemp: real): (g: seq<seq<real>>)
    ensures IsGrid(g, h, w)
  {
    seq(h, i => seq(w, j => if (i, j) == (h / 2, w / 2) then heatTemp else ambient))
  }

  /** The stencil divides by `dx * dx`. A plate with no interior cell never evaluates it, so
      there any `dx` will do. */
  predicate StencilDefined(h: int, w: int, dx: real) {
    dx != 0.0 || h <= 2 || w <= 2
  }

  predicate Interior(h: int, w: int, i: int, j: int) {
    0 < i < h - 1 && 0 < j < w - 1
  }

  /** The explicit finite-difference update of a cell at temperature `c` from its four
      neighbours' temperatures. */
  function Updated(c: real, down: real, up: real, right: real, left: real, alpha: real, dt: real, dx: real): (u: real)
    requires dx != 0.0
  {
    c + dt * alpha * ((down + up + right + left - 4.0 * c) / (dx * dx))
  }

  /** The update of interior cell `(i, j)`, from the old field only. */
  function Stencil(g: seq<seq<real>>, w: nat, i: nat, j: nat, alpha: real, dt: real, dx: real): (u: real)
    requires IsGrid(g, |g|, w) && Interior(|g|, w, i, j) && StencilDefined(|g|, w, dx)
  {
    Updated(g[i][j], g[i + 1][j], g[i - 1][j], g[i][j + 1], g[i][j - 1], alpha, dt, dx)
  }

  /** Row `i` after the stencil: interior cells updated, edge cells unchanged. */
  function DiffuseRow(g: seq<seq<real>>, w: nat, i: nat, alpha: real, dt: real, dx: real): (r: seq<real>)
    requires IsGrid(g, |g|, w) && i < |g| && StencilDefined(|g|, w, dx)
    ensures |r| == w
  {
    seq(w, j requires 0 <= j < w =>
      if Interior(|g|, w, i, j) then Stencil(g, w, i, j, alpha, dt, dx) else g[i][j])
  }

  /** Rows `i` to the last after the stencil. */
  function DiffuseFrom(g: seq<seq<real>>, w: nat, i: nat, alpha: real, dt: real, dx: real): (r: seq<seq<real>>)
    requires IsGrid(g, |g|, w) && i <= |g| && StencilDefined(|g|, w, dx)
    ensures IsGrid(r, |g| - i, w)
    decreases |g| - i
  {
    if i == |g| then [] else [DiffuseRow(g, w, i, alpha, dt, dx)] + DiffuseFrom(g, w, i + 1, alpha, dt, dx)
  }

  /** Stage 1: the stencil on every interior cell, computed from the old field only; edge
      cells keep their old value. */
  function Diffuse(g: seq<seq<real>>, w: nat, alpha: real, dt: real, dx: real): (r: seq<seq<real>>)
    requires IsGrid(g, |g|, w) && StencilDefined(|g|, w, dx)
    ensures IsGrid(r, |g|, w)
  {
    DiffuseFrom(g, w, 0, alpha, dt, dx)
  }

  lemma {:induction false} DiffuseFromAt(g: seq<seq<real>>, w: nat, k: nat, i: nat, alpha: real, dt: real, dx: real)
    requires IsGrid(g, |g|, w) && k <= i < |g| && StencilDefined(|g|, w, dx)
    ensures DiffuseFrom(g, w, k, alpha, dt, dx)[i - k] == DiffuseRow(g, w, i, alpha, dt, dx)
    decreases i - k
  {
    if k < i {
      DiffuseFromAt(g, w, k + 1, i, alpha, dt, dx);
    }
  }

  /** Cell `(i, j)` of the diffused field: the stencil value inside, the old value on the edge. */
  lemma DiffuseAt(g: seq<seq<real>>, w: nat, alpha: real, dt: real, dx: real, i: nat, j: nat)
    requires IsGrid(g, |g|, w) && StencilDefined(|g|, w, dx) && i < |g| && j < w
    ensures Diffuse(g, w, alpha, dt, dx)[i][j] ==
      if Interior(|g|, w, i, j) then Stencil(g, w, i, j, alpha, dt, dx) else g[i][j]
  {
    DiffuseFromAt(g, w, 0, i, alpha, dt, dx);
  }

  /** Row `dst` becomes a copy of row `src`. */
  function CopyRow(g: seq<seq<real>>, w: nat, dst: nat, src: nat): (r: seq<seq<real>>)
    requires IsGrid(g, |g|, w) && dst < |g| && src < |g|
    ensures IsGrid(r, |g|, w)
  {
    g[dst := g[src]]
  }

  /** Column `dst` becomes a copy of column `src`, in every row. */
  function CopyCol(g: seq<seq<real>>, w: nat, dst: nat, src: nat): (r: seq<seq<real>>)
    requires IsGrid(g, |g|, w) && dst < w && src < w
    ensures IsGrid(r, |g|, w)
  {
    if g == [] then [] else [g[0][dst := g[0][src]]] + CopyCol(g[1..], w, dst, src)
  }

  /** Row `i` after the column copy. */
  lemma {:induction false} CopyColAt(g: seq<seq<real>>, w: nat, dst: nat, src: nat, i: nat)
    requires IsGrid(g, |g|, w) && dst < w && src < w && i < |g|
    ensures CopyCol(g, w, dst, src)[i] == g[i][dst := g[i][src]]
  {
    if i > 0 {
      CopyColAt(g[1..], w, dst, src, i - 1);
    }
  }

  /** Stage 2: the insulated boundary, row 0, last row, column 0, last column, in that order. */
  function Insulate(g: seq<seq<real>>, w: nat): (r: seq<seq<real>>)
    requires IsGrid(g, |g|, w) && |g| >= 2 && w >= 2
    ensures IsGrid(r, |g|, w)
  {
    var h := |g|;
    var top := CopyRow(g, w, 0, 1);
    var bottom := CopyRow(top, w, h - 1, h - 2);
    var left := CopyCol(bottom, w, 0, 1);
    CopyCol(left, w, w - 1, w - 2)
  }

  /** Stage 3: one cell set to `v`. */
  function Pin(g: seq<seq<real>>, w: nat, i: nat, j: nat, v: real): (r: seq<seq<real>>)
    requires IsGrid(g, |g|, w) && i < |g| && j < w
    ensures IsGrid(r, |g|, w)
  {
    g[i := g[i][j := v]]
  }

  /** The field before the source is pinned: stencil, then insulated edges. */
  function Unpinned(g: seq<seq<real>>, w: nat, alpha: real, dt: real, dx: real): (r: seq<seq<real>>)
    requires IsGrid(g, |g|, w) && |g| >= 2 && w >= 2 && StencilDefined(|g|, w, dx)
    ensures IsGrid(r, |g|, w)
  {
    Insulate(Diffuse(g, w, alpha, dt, dx), w)
  }

  /** One whole tick: the field the engine holds after `step`. */
  function StepField(g: seq<seq<real>>, w: nat, alpha: real, dt: real, dx: real, heatTemp: real): (r: seq<seq<real>>)
    requires IsGrid(g, |g|, w) && |g| >= 2 && w >= 2 && StencilDefined(|g|, w, dx)
    ensures IsGrid(r, |g|, w)
  {
    Pin(Unpinned(g, w, alpha, dt, dx), w, |g| / 2, w / 2, heatTemp)
  }

  // ---------------------------------------------------------------------------
  // What a tick does to the field

  /** After a tick the centre cell holds the source temperature, and every other cell
      holds what stencil and boundary gave it. */
  lemma StepPinsCentre(g: seq<seq<real>>, w: nat, alpha: real, dt: real, dx: real, heatTemp: real)
    requires IsGrid(g, |g|, w) && |g| >= 2 && w >= 2 && StencilDefined(|g|, w, dx)
    ensures StepField(g, w, alpha, dt, dx, heatTemp)[|g| / 2][w / 2] == heatTemp
    ensures forall i, j :: 0 <= i < |g| && 0 <= j < w && (i, j) != (|g| / 2, w / 2) ==>
      StepField(g, w, alpha, dt, dx, heatTemp)[i][j] == Unpinned(g, w, alpha, dt, dx)[i][j]
  {
  }

  /** The insulated boundary: each edge row and column equals its inward neighbour. */
  lemma InsulatedEdges(d: seq<seq<real>>, w: nat)
    requires IsGrid(d, |d|, w) && |d| >= 2 && w >= 2
    ensures IsGrid(Insulate(d, w), |d|, w)
    ensures Insulate(d, w)[0] == Insulate(d, w)[1]
    ensures Insulate(d, w)[|d| - 1] == Insulate(d, w)[|d| - 2]
    ensures forall i :: 0 <= i < |d| ==> Insulate(d, w)[i][0] == Insulate(d, w)[i][1]
    ensures forall i :: 0 <= i < |d| ==> Insulate(d, w)[i][w - 1] == Insulate(d, w)[i][w - 2]
  {
    var h := |d|;
    var top := CopyRow(d, w, 0, 1);
    var bottom := CopyRow(top, w, h - 1, h - 2);
    var left := CopyCol(bottom, w, 0, 1);
    var u := CopyCol(left, w, w - 1, w - 2);
    forall i | 0 <= i < h
      ensures left[i] == bottom[i][0 := bottom[i][1]] && u[i] == left[i][w - 1 := left[i][w - 2]]
    {
      CopyColAt(bottom, w, 0, 1, i);
      CopyColAt(left, w, w - 1, w - 2, i);
    }
  }

  /** The interior keeps the insulated copy untouched: an interior cell after the boundary
      stage is the stencil value. */
  lemma InsulateKeepsInterior(d: seq<seq<real>>, w: nat, i: nat, j: nat)
    requires IsGrid(d, |d|, w) && |d| >= 2 && w >= 2 && Interior(|d|, w, i, j)
    ensures Insulate(d, w)[i][j] == d[i][j]
  {
    var h := |d|;
    var bottom := CopyRow(CopyRow(d, w, 0, 1), w, h - 1, h - 2);
    var left := CopyCol(bottom, w, 0, 1);
    CopyColAt(bottom, w, 0, 1, i);
    CopyColAt(left, w, w - 1, w - 2, i);
  }

  /** Every interior cell other than the centre gets the 5-point update computed from the
      old field only. */
  lemma StepInterior(g: seq<seq<real>>, w: nat, alpha: real, dt: real, dx: real, heatTemp: real, i: nat, j: nat)
    requires IsGrid(g, |g|, w) && |g| >= 2 && w >= 2 && StencilDefined(|g|, w, dx)
    requires Interior(|g|, w, i, j) && (i, j) != (|g| / 2, w / 2)
    ensures StepField(g, w, alpha, dt, dx, heatTemp)[i][j] ==
      g[i][j] + dt * alpha * ((g[i + 1][j] + g[i - 1][j] + g[i][j + 1] + g[i][j - 1] - 4.0 * g[i][j]) / (dx * dx))
  {
    StepPinsCentre(g, w, alpha, dt, dx, heatTemp);
    InsulateKeepsInterior(Diffuse(g, w, alpha, dt, dx), w, i, j);
    DiffuseAt(g, w, alpha, dt, dx, i, j);
  }

  /** The top and bottom edges after a whole tick. Row 0 never holds the centre, so it is the
      copy of row 1 taken before the pin; the last row is the copy of the row above it unless the
      cell is the centre. Hence an edge cell equals its inward neighbour except where one of the
      two is the centre: an edge cell beside the centre keeps the centre's value from before the
      pin. */
  lemma StepRowEdges(g: seq<seq<real>>, w: nat, alpha: real, dt: real, dx: real, heatTemp: real)
    requires IsGrid(g, |g|, w) && |g| >= 2 && w >= 2 && StencilDefined(|g|, w, dx)
    ensures var s, u, c := StepField(g, w, alpha, dt, dx, heatTemp), Unpinned(g, w, alpha, dt, dx), (|g| / 2, w / 2);
      var first, second, last, beforeLast := s[0], s[1], s[|g| - 1], s[|g| - 2];
      && first == u[1]
      && (forall j :: 0 <= j < w && (|g| - 1, j) != c ==> last[j] == u[|g| - 2][j])
      && (forall j :: 0 <= j < w && (1, j) != c ==> first[j] == second[j])
      && (forall j :: 0 <= j < w && (|g| - 2, j) != c && (|g| - 1, j) != c ==> last[j] == beforeLast[j])
  {
    InsulatedEdges(Diffuse(g, w, alpha, dt, dx), w);
    StepPinsCentre(g, w, alpha, dt, dx, heatTemp);
  }

  /** The left and right edges after a whole tick, in the same way: column 0 is the copy of
      column 1 taken before the pin, the last column that of the one before it unless the cell
      is the centre. */
  lemma StepColumnEdges(g: seq<seq<real>>, w: nat, alpha: real, dt: real, dx: real, heatTemp: real)
    requires IsGrid(g, |g|, w) && |g| >= 2 && w >= 2 && StencilDefined(|g|, w, dx)
    ensures var s, u, c := StepField(g, w, alpha, dt, dx, heatTemp), Unpinned(g, w, alpha, dt, dx), (|g| / 2, w / 2);
      && (forall i :: 0 <= i < |g| ==> s[i][0] == u[i][1])
      && (forall i :: 0 <= i < |g| && (i, w - 1) != c ==> s[i][w - 1] == u[i][w - 2])
      && (forall i :: 0 <= i < |g| && (i, 1) != c ==> s[i][0] == s[i][1])
      && (forall i :: 0 <= i < |g| && (i, w - 2) != c && (i, w - 1) != c ==> s[i][w - 1] == s[i][w - 2])
  {
    InsulatedEdges(Diffuse(g, w, alpha, dt, dx), w);
    StepPinsCentre(g, w, alpha, dt, dx, heatTemp);
  }

  /** One tick of a 5 x 5 plate at 20 with the source at 100, alpha 0.01, dx 1, dt 1: the
      source stays at 100, every other cell in its row or column (its four neighbours and the
      edge cells the insulated boundary copies from them) rises to 20.8, and every other cell
      stays at 20. */
  lemma FiveByFiveTick()
    ensures var s := StepField(InitialField(5, 5, 20.0, 100.0), 5, 0.01, 1.0, 1.0, 100.0);
      forall i, j :: 0 <= i < 5 && 0 <= j < 5 ==>
        s[i][j] == (if (i, j) == (2, 2) then 100.0 else if i == 2 || j == 2 then 20.8 else 20.0)
  {
    var g := InitialField(5, 5, 20.0, 100.0);
    StepPinsCentre(g, 5, 0.01, 1.0, 1.0, 100.0);
    forall i, j | 1 <= i < 4 && 1 <= j < 4 && (i, j) != (2, 2)
      ensures StepField(g, 5, 0.01, 1.0, 1.0, 100.0)[i][j] == (if i == 2 || j == 2 then 20.8 else 20.0)
    {
      StepInterior(g, 5, 0.01, 1.0, 1.0, 100.0, i, j);
    }
    StepRowEdges(g, 5, 0.01, 1.0, 1.0, 100.0);
    StepColumnEdges(g, 5, 0.01, 1.0, 1.0, 100.0);
  }

  // ---------------------------------------------------------------------------
  // Heated cells and the percentage a tick reports

  function CountRow(row: seq<real>, threshold: real): (n: nat) {
    if row == [] then 0 else (if row[0] >= threshold then 1 else 0) + CountRow(row[1..], threshold)
  }

  /** Number of cells at or above `threshold` (the sum of `T >= threshold`). */
  function CountAtLeast(g: seq<seq<real>>, threshold: real): (n: nat)
    ensures n >= 1 <==> exists i, j :: 0 <= i < |g| && 0 <= j < |g[i]| && g[i][j] >= threshold
  {
    if g == [] then 0
    else
      CountRowBounds(g[0], threshold);
      assert forall i :: 1 <= i < |g| ==> g[i] == g[1..][i - 1];
      CountRow(g[0], threshold) + CountAtLeast(g[1..], threshold)
  }

  lemma {:induction false} CountRowBounds(row: seq<real>, threshold: real)
    ensures CountRow(row, threshold) <= |row|
    ensures CountRow(row, threshold) == |row| <==> forall k :: 0 <= k < |row| ==> row[k] >= threshold
    ensures (exists k :: 0 <= k < |row| && row[k] >= threshold) <==> CountRow(row, threshold) >= 1
  {
    if row != [] {
      CountRowBounds(row[1..], threshold);
      assert forall k :: 1 <= k < |row| ==> row[k] == row[1..][k - 1];
    }
  }

  /** The heated count never exceeds the number of cells, and reaches it exactly when every
      cell is heated. */
  lemma {:induction false} CountBounds(g: seq<seq<real>>, w: nat, threshold: real)
    requires IsGrid(g, |g|, w)
    ensures CountAtLeast(g, threshold) <= |g| * w
    ensures CountAtLeast(g, threshold) == |g| * w <==>
      forall i, j :: 0 <= i < |g| && 0 <= j < w ==> g[i][j] >= threshold
  {
    if g != [] {
      CountRowBounds(g[0], threshold);
      CountBounds(g[1..], w, threshold);
      assert |g| * w == w + (|g| - 1) * w;
      assert forall i :: 1 <= i < |g| ==> g[i] == g[1..][i - 1];
    }
  }

  /** A row whose only heated cell is `c` counts one. */
  lemma {:induction false} CountRowSingle(row: seq<real>, threshold: real, c: nat)
    requires c < |row| && row[c] >= threshold
    requires forall k :: 0 <= k < |row| && k != c ==> row[k] < threshold
    ensures CountRow(row, threshold) == 1
  {
    if c == 0 {
      CountRowBounds(row[1..], threshold);
    } else {
      CountRowSingle(row[1..], threshold, c - 1);
    }
  }

  /** A field whose only row with heated cells is row `r`, which counts one, counts one. */
  lemma {:induction false} CountSingle(g: seq<seq<real>>, threshold: real, r: nat)
    requires r < |g| && CountRow(g[r], threshold) == 1
    requires forall i :: 0 <= i < |g| && i != r ==> CountRow(g[i], threshold) == 0
    ensures CountAtLeast(g, threshold) == 1
  {
    if r == 0 {
      CountNone(g[1..], threshold);
    } else {
      CountSingle(g[1..], threshold, r - 1);
    }
  }

  lemma {:induction false} CountNone(g: seq<seq<real>>, threshold: real)
    requires forall i :: 0 <= i < |g| ==> CountRow(g[i], threshold) == 0
    ensures CountAtLeast(g, threshold) == 0
  {
    if g != [] {
      CountNone(g[1..], threshold);
    }
  }

  /** At the start only the source cell is heated, when the source is hotter than the plate. */
  lemma InitialHeated(h: nat, w: nat, ambient: real, heatTemp: real)
    requires h >= 1 && w >= 1 && heatTemp > ambient
    ensures CountAtLeast(InitialField(h, w, ambient, heatTemp), Threshold(ambient, heatTemp)) == 1
  {
    var g, t := InitialField(h, w, ambient, heatTemp), Threshold(ambient, heatTemp);
    forall i | 0 <= i < h && i != h / 2
      ensures CountRow(g[i], t) == 0
    {
      CountRowBounds(g[i], t);
    }
    CountRowSingle(g[h / 2], t, w / 2);
    CountSingle(g, t, h / 2);
  }

  lemma CellCountPositive(width: nat, height: nat)
    requires width >= 1 && height >= 1
    ensures width * height >= 1 && height * width == width * height
  {
  }

  /** The percentage a tick reports: heated cells over the `width * height` cells, times 100. */
  function Percentage(heated: nat, width: nat, height: nat): (p: real)
    requires width >= 1 && height >= 1
    ensures heated <= width * height ==> 0.0 <= p <= 100.0
    ensures p == 100.0 <==> heated == width * height
    ensures p > 0.0 <==> heated > 0
  {
    CellCountPositive(width, height);
    (heated as real / (width * height) as real) * 100.0
  }

  /** The percentage of heated cells in a `height x width` field: within [0, 100], and 100
      exactly when every cell is heated. */
  lemma HeatedPercentage(g: seq<seq<real>>, width: nat, height: nat, threshold: real)
    requires IsGrid(g, height, width) && width >= 1 && height >= 1
    ensures 0.0 <= Percentage(CountAtLeast(g, threshold), width, height) <= 100.0
    ensures Percentage(CountAtLeast(g, threshold), width, height) == 100.0 <==>
      forall i, j :: 0 <= i < height && 0 <= j < width ==> g[i][j] >= threshold
  {
    CountBounds(g, width, threshold);
    CellCountPositive(width, height);
  }

  /** With the source at least as hot as the ambient, the pinned centre is always heated, so a
      tick reports a positive percentage. */
  lemma StepPercentagePositive(g: seq<seq<real>>, w: nat, alpha: real, dt: real, dx: real, heatTemp: real, ambient: real)
    requires IsGrid(g, |g|, w) && |g| >= 2 && w >= 2 && StencilDefined(|g|, w, dx) && heatTemp >= ambient
    ensures Percentage(CountAtLeast(StepField(g, w, alpha, dt, dx, heatTemp), Threshold(ambient, heatTemp)), w, |g|) > 0.0
  {
    var s := StepField(g, w, alpha, dt, dx, heatTemp);
    StepPinsCentre(g, w, alpha, dt, dx, heatTemp);
    assert s[|g| / 2][w / 2] >= Threshold(ambient, heatTemp);
  }
}
