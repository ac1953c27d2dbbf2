/** The simulation engine: the plate's temperature array, the centre source, the clock and
    the two histories, advanced one tick at a time. */
module Engine {
  import opened Field

  /** The array read as a field value, row by row. */
  function Cells(a: array2<real>): (g: seq<seq<real>>)
    reads a
    ensures IsGrid(g, a.Length0, a.Length1)
    ensures forall i, j :: 0 <= i < a.Length0 && 0 <= j < a.Length1 ==> g[i][j] == a[i, j]
  {
    seq(a.Length0, i requires 0 <= i < a.Length0 reads a =>
      seq(a.Length1, j requires 0 <= j < a.Length1 reads a => a[i, j]))
  }

  lemma SameCells(g: seq<seq<real>>, s: seq<seq<real>>, h: nat, w: nat)
    requires IsGrid(g, h, w) && IsGrid(s, h, w)
    requires forall i, j :: 0 <= i < h && 0 <= j < w ==> g[i][j] == s[i][j]
    ensures g == s
  {
    forall i | 0 <= i < h ensures g[i] == s[i] {
      assert forall j :: 0 <= j < w ==> g[i][j] == s[i][j];
    }
  }

  /** The array holds exactly the field `g`. */
  ghost predicate Stores(a: array2<real>, g: seq<seq<real>>)
    reads a
  {
    IsGrid(g, a.Length0, a.Length1) &&
    forall i, j :: 0 <= i < a.Length0 && 0 <= j < a.Length1 ==> a[i, j] == g[i][j]
  }

  lemma StoresCells(a: array2<real>, g: seq<seq<real>>)
    requires Stores(a, g)
    ensures Cells(a) == g
  {
    SameCells(Cells(a), g, a.Length0, a.Length1);
  }

  /** `T.copy()` followed by the stencil on the interior slice `[1:-1, 1:-1]`, which reads
      only the old array. */
  method Diffused(a: array2<real>, ghost g: seq<seq<real>>, alpha: real, dt: real, dx: real) returns (next: array2<real>)
    requires Stores(a, g) && StencilDefined(a.Length0, a.Length1, dx)
    ensures fresh(next) && next.Length0 == a.Length0 && next.Length1 == a.Length1
    ensures Stores(next, Diffuse(g, a.Length1, alpha, dt, dx))
  {
    next := new real[a.Length0, a.Length1];
    forall i, j | 0 <= i < a.Length0 && 0 <= j < a.Length1 {
      next[i, j] := a[i, j];
    }
    forall i, j | 1 <= i < a.Length0 - 1 && 1 <= j < a.Length1 - 1 {
      next[i, j] := Updated(a[i, j], a[i + 1, j], a[i - 1, j], a[i, j + 1], a[i, j - 1], alpha, dt, dx);
    }
    ghost var d := Diffuse(g, a.Length1, alpha, dt, dx);
    forall i, j | 0 <= i < a.Length0 && 0 <= j < a.Length1
      ensures next[i, j] == d[i][j]
    {
      DiffuseAt(g, a.Length1, alpha, dt, dx, i, j);
    }
  }

  /** The new buffer of one tick: copy and stencil, insulated edges, then the source pinned at
      the centre (it wins over stencil and boundary). */
  method NextField(a: array2<real>, ghost g: seq<seq<real>>, alpha: real, dt: real, dx: real, heatTemp: real)
    returns (next: array2<real>)
    requires Stores(a, g) && a.Length0 >= 2 && a.Length1 >= 2 && StencilDefined(a.Length0, a.Length1, dx)
    ensures fresh(next) && next.Length0 == a.Length0 && next.Length1 == a.Length1
    ensures Stores(next, StepField(g, a.Length1, alpha, dt, dx, heatTemp))
  {
    var h, w := a.Length0, a.Length1;
    next := Diffused(a, g, alpha, dt, dx);
    ghost var d := Diffuse(g, w, alpha, dt, dx);
    ghost var top := CopyRow(d, w, 0, 1);
    ghost var bottom := CopyRow(top, w, h - 1, h - 2);
    ghost var left := CopyCol(bottom, w, 0, 1);
    ghost var u := CopyCol(left, w, w - 1, w - 2);
    CopyRowInPlace(next, d, 0, 1);
    CopyRowInPlace(next, top, h - 1, h - 2);
    CopyColInPlace(next, bottom, 0, 1);
    CopyColInPlace(next, left, w - 1, w - 2);
    assert u == Unpinned(g, w, alpha, dt, dx);
    PinInPlace(next, u, h / 2, w / 2, heatTemp);
  }

  /** `(a >= threshold).sum() / (width * height) * 100` for the array holding `g`: the share of
      heated cells, in [0, 100], and positive when the centre cell is heated. */
  method HeatedShare(a: array2<real>, ghost g: seq<seq<real>>, threshold: real) returns (p: real)
    requires Stores(a, g) && a.Length0 >= 1 && a.Length1 >= 1
    ensures p == Percentage(CountAtLeast(g, threshold), a.Length1, a.Length0)
    ensures 0.0 <= p <= 100.0
    ensures g[a.Length0 / 2][a.Length1 / 2] >= threshold ==> p > 0.0
  {
    StoresCells(a, g);
    var heated := CountAtLeast(Cells(a), threshold);
    p := Percentage(heated, a.Length1, a.Length0);
    HeatedPercentage(g, a.Length1, a.Length0, threshold);
  }

  /** `a[i, j] = v`. */
  method PinInPlace(a: array2<real>, ghost g: seq<seq<real>>, i: nat, j: nat, v: real)
    requires Stores(a, g) && i < a.Length0 && j < a.Length1
    modifies a
    ensures Stores(a, Pin(g, a.Length1, i, j, v))
  {
    a[i, j] := v;
  }

  /** `a[dst, :] = a[src, :]`, as numpy performs it. */
  method CopyRowInPlace(a: array2<real>, ghost g: seq<seq<real>>, dst: nat, src: nat)
    requires Stores(a, g) && dst < a.Length0 && src < a.Length0
    modifies a
    ensures Stores(a, CopyRow(g, a.Length1, dst, src))
  {
    forall j | 0 <= j < a.Length1 {
      a[dst, j] := a[src, j];
    }
  }

  /** `a[:, dst] = a[:, src]`, as numpy performs it. */
  method CopyColInPlace(a: array2<real>, ghost g: seq<seq<real>>, dst: nat, src: nat)
    requires Stores(a, g) && dst < a.Length1 && src < a.Length1
    modifies a
    ensures Stores(a, CopyCol(g, a.Length1, dst, src))
  {
    forall i | 0 <= i < a.Length0 {
      a[i, dst] := a[i, src];
    }
    forall i | 0 <= i < a.Length0 {
      CopyColAt(g, a.Length1, dst, src, i);
    }
  }

  /** Every recorded percentage lies in [0, 100]. */
  ghost predicate Percentages(history: seq<real>) {
    forall k :: 0 <= k < |history| ==> 0.0 <= history[k] <= 100.0
  }

  /** After `n` ticks of length `dt` the clock reads `n * dt`, and the `k`-th recorded time is
      `(k + 1) * dt`. */
  ghost predicate Clock(times: seq<real>, now: real, dt: real) {
    && now == |times| as real * dt
    && forall k :: 0 <= k < |times| ==> times[k] == (k + 1) as real * dt
  }

  lemma RecordPercentage(history: seq<real>, p: real)
    requires Percentages(history) && 0.0 <= p <= 100.0
    ensures Percentages(history + [p])
  {
  }

  lemma TickClock(times: seq<real>, now: real, dt: real)
    requires Clock(times, now, dt)
    ensures Clock(times + [now + dt], now + dt, dt)
  {
  }

  /** Everything `step` may change, as one value. */
  datatype Progress = Progress(field: seq<seq<real>>, currentTime: real,
                               percentageHistory: seq<real>, timeHistory: seq<real>)

  class SimulationEngine {
    const width: int
    const height: int
    const alpha: real
    const heatTemp: real
    const ambient: real
    const dx: real
    const dt: real
    /** The source cell, (row, column). */
    const center: (int, int)
    const threshold: real

    var T: array2<real>
    /** The temperatures `T` holds, as a value. */
    ghost var field: seq<seq<real>>
    var percentageHistory: seq<real>
    var timeHistory: seq<real>
    var currentTime: real

    // Control flags, set by the server.
    var running: bool
    var paused: bool
    var simSpeed: real

    ghost predicate Valid()
      reads this, T
    {
      && width >= 1 && height >= 1
      && T.Length0 == height && T.Length1 == width
      && Stores(T, field)
      && center == (height / 2, width / 2)
      && threshold == Threshold(ambient, heatTemp)
      && |percentageHistory| == |timeHistory|
      && Percentages(percentageHistory)
      && Clock(timeHistory, currentTime, dt)
    }

    ghost function Progressed(): Progress
      reads this
    {
      Progress(field, currentTime, percentageHistory, timeHistory)
    }

    /** A `height x width` plate at `ambient` with the centre cell at `heatTemp`; no history,
        time 0, not running, not paused, speed 1. */
    constructor (width: int, height: int, alpha: real, heatTemp: real, ambient: real, dx: real, dt: real)
      requires width >= 1 && height >= 1
      ensures Valid() && fresh(T)
      ensures this.width == width && this.height == height && this.alpha == alpha
      ensures this.heatTemp == heatTemp && this.ambient == ambient && this.dx == dx && this.dt == dt
      ensures field == InitialField(height, width, ambient, heatTemp)
      ensures percentageHistory == [] && timeHistory == [] && currentTime == 0.0
      ensures threshold == ambient + 0.99 * (heatTemp - ambient)
      ensures !running && !paused && simSpeed == 1.0
    {
      this.width := width;
      this.height := height;
      this.alpha := alpha;
      this.heatTemp := heatTemp;
      this.ambient := ambient;
      this.dx := dx;
      this.dt := dt;
      var plate := new real[height, width]((i, j) => ambient);
      center := (height / 2, width / 2);
      plate[height / 2, width / 2] := heatTemp;
      T := plate;
      field := InitialField(height, width, ambient, heatTemp);
      percentageHistory := [];
      timeHistory := [];
      currentTime := 0.0;
      threshold := ambient + HeatedFraction * (heatTemp - ambient);
      running := false;
      paused := false;
      simSpeed := 1.0;
    }

    /** The new buffer of a tick swapped in for `T`. */
    method Advance()
      requires T.Length0 == height && T.Length1 == width && Stores(T, field)
      requires width >= 2 && height >= 2 && StencilDefined(height, width, dx)
      modifies this`T, this`field
      ensures fresh(T) && T.Length0 == height && T.Length1 == width && Stores(T, field)
      ensures field == StepField(old(field), width, alpha, dt, dx, heatTemp)
      ensures field[height / 2][width / 2] == heatTemp
    {
      T := NextField(T, field, alpha, dt, dx, heatTemp);
      StepPinsCentre(field, width, alpha, dt, dx, heatTemp);
      field := StepField(field, width, alpha, dt, dx, heatTemp);
    }

    /** One tick: the new field is `StepField` of the old one, held in a freshly allocated
        array; time advances by `dt`; the returned percentage of heated cells and the new time
        are appended to the histories. Nothing else changes. */
    method Step() returns (percentage: real)
      requires Valid() && width >= 2 && height >= 2 && StencilDefined(height, width, dx)
      modifies this`T, this`field, this`currentTime, this`percentageHistory, this`timeHistory
      ensures Valid() && fresh(T)
      ensures field == StepField(old(field), width, alpha, dt, dx, heatTemp)
      ensures currentTime == old(currentTime) + dt
      ensures percentage == Percentage(CountAtLeast(field, threshold), width, height)
      ensures 0.0 <= percentage <= 100.0
      ensures heatTemp >= ambient ==> percentage > 0.0
      ensures percentageHistory == old(percentageHistory) + [percentage]
      ensures timeHistory == old(timeHistory) + [currentTime]
    {
      Advance();
      TickClock(timeHistory, currentTime, dt);
      currentTime := currentTime + dt;
      percentage := HeatedShare(T, field, threshold);
      RecordPercentage(percentageHistory, percentage);
      percentageHistory := percentageHistory + [percentage];
      timeHistory := timeHistory + [currentTime];
    }
  }
}
