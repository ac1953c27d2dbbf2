# Heat plate simulator, modelled in Dafny

The system simulates heat spreading over a rectangular metal plate. A heat source is held at a
fixed temperature at the centre cell of the plate. A Python engine advances the temperature
field with the explicit five-point finite-difference scheme on an insulated plate. A Flask server
runs the engine in a background loop and exposes `/start`, `/pause`, `/resume`, `/status` and
`/graph`. A browser client checks the form, keeps the source-position inputs inside the plate,
and draws the field returned by `/status` as coloured squares.

The model has four modules, one per layer of the program:

- `Field` (field.dfy) is the temperature field as a value (`seq<seq<real>>`, row-major). One tick
  is `StepField`. It is built from the same stages the engine performs on its second buffer:
  - the stencil on the interior, computed from the old field only (`Diffuse`);
  - the four edge copies of the insulated boundary, in the engine's order: top row, bottom row,
    left column, right column (`Insulate`);
  - the pin of the source (`Pin`).

  The module also holds the heated-cell count and the percentage a tick reports.
- `Engine` (engine.dfy) is the `SimulationEngine` class. Its temperatures are an `array2<real>`.
  `Step` builds a fresh array with parallel `forall` assignments, which is how numpy slice
  assignment behaves. Each such method is proved against the `Field` function of the same stage.
  A ghost field `field` holds the array's contents as a value. `Valid()` keeps these invariants:
  - the array has the plate's shape;
  - `field` is what the array holds;
  - the centre and the heated threshold are those of the parameters;
  - the two histories have equal length;
  - every recorded percentage is in [0, 100];
  - the clock equals ticks times `dt`, and the k-th recorded time is `(k + 1) * dt`.
- `Server` (server.dfy) is the `App` class, which holds the single optional engine. Each handler
  is one method. So is one pass of the background loop (`RunIteration`), taken as one atomic step.
- `Client` (client.dfy) covers the client:
  - the colour scale;
  - the checks `startSimulation` makes before it sends a request;
  - the `Form` class with `updateSourceLimits` and `centerSource`;
  - the `Canvas` class, whose `DrawSimulation` paints the squares in its two nested loops.

Temperatures, times and percentages are `real`. This is exact arithmetic, not IEEE doubles.

What the code does, and the model with it:
- `/start` does not validate its parameters.
- The boundary is always insulated. The `boundary` value is never used, so there is no fixed
  boundary.
- The source is always the centre cell. `source_x` and `source_y` are never used.
- The background loop stops the run once at least 99% of the cells have reached 99% of the gap
  from ambient to the source temperature.
- Each edge row and column is a copy of the one next to it, including cells beside the source.
  So in one tick of a 5 x 5 plate (alpha 0.01, dx 1, dt 1, plate at 20, source at 100), the
  source's four neighbours and the edge cells in line with the source all rise to 20.8. The
  other cells stay at 20. `Field.FiveByFiveTick` proves this for all 25 cells.

## Model

| member | source | states |
|---|---|---|
| Field.Threshold | simulation_engine.py:23-24 | The heated threshold lies at 99% of the way from ambient to source. It lies between the two, strictly when the source is hotter. The source itself is heated exactly when it is not colder than the plate. |
| Field.InitialField | simulation_engine.py:14-17 | The starting plate is a `height x width` grid. |
| Field.InitialHeated | simulation_engine.py:14-24 | At the start, with the source hotter than the plate, exactly one cell counts as heated: the source. |
| Field.Diffuse | simulation_engine.py:33-40 | The copy with the stencil applied keeps the plate's shape. Its cells are given by `Field.DiffuseAt`. |
| Field.DiffuseAt | simulation_engine.py:33-40 | After the copy and the stencil, an interior cell holds the five-point update computed from the old field. An edge cell keeps its old value. |
| Field.CopyColAt | simulation_engine.py:45-46 | A column copy sets, in every row, the destination cell to the source column's value. |
| Field.CopyRow | simulation_engine.py:43-44 | A row copy keeps the plate's shape. |
| Field.CopyCol | simulation_engine.py:45-46 | A column copy keeps the plate's shape. Its rows are given by `Field.CopyColAt`. |
| Field.Insulate | simulation_engine.py:42-46 | The four edge copies, in the engine's order, keep the plate's shape. Their effect is given by `Field.InsulatedEdges` and `Field.InsulateKeepsInterior`. |
| Field.Pin | simulation_engine.py:49 | Setting one cell keeps the plate's shape. |
| Field.Unpinned | simulation_engine.py:33-46 | The stencil followed by the insulated edges keeps the plate's shape. |
| Field.InsulatedEdges | simulation_engine.py:42-46 | After the boundary stage, the top and bottom rows equal their inward neighbours. So do the left and right columns, in every row. |
| Field.InsulateKeepsInterior | simulation_engine.py:42-46 | The boundary stage leaves every interior cell as the stencil left it. |
| Field.StepField | simulation_engine.py:31-49 | A tick yields a grid of the same shape. |
| Field.StepPinsCentre | simulation_engine.py:48-49 | After a tick the centre cell holds the source temperature. Every other cell holds what the stencil and the boundary gave it. |
| Field.StepInterior | simulation_engine.py:35-40 | After a tick, every interior cell other than the source has the five-point update of the old field, with `dt * alpha / dx^2`. |
| Field.StepRowEdges | simulation_engine.py:42-49 | After a tick, row 0 is the pre-pin copy of row 1. The last row copies the row above it except at the source. An edge cell equals its inward neighbour unless one of the two is the source. |
| Field.StepColumnEdges | simulation_engine.py:42-49 | The same for the left and right columns, in every row. |
| Field.FiveByFiveTick | simulation_engine.py:31-49 | One tick of the 5 x 5 example, cell by cell: the source stays at 100. Every other cell in its row or column rises to 20.8, the edge cells included. All other cells stay at 20. |
| Field.CountAtLeast | simulation_engine.py:55 | The heated count is positive exactly when some cell is at or above the threshold. |
| Field.CountRowBounds | simulation_engine.py:55 | The heated count of a row is at most its length. It equals the length iff every cell is heated, and it is positive iff some cell is heated. |
| Field.CountBounds | simulation_engine.py:55-56 | The heated count of a field is at most `height * width`. It equals that product iff every cell is heated. |
| Field.Percentage | simulation_engine.py:55-57 | The percentage is in [0, 100] when the count does not exceed the cells. It is 100 iff every cell counts and positive iff some cell counts. |
| Field.HeatedPercentage | simulation_engine.py:55-57 | For a `height x width` field the percentage is in [0, 100]. It is 100 exactly when every cell is at or above the threshold. |
| Field.StepPercentagePositive | simulation_engine.py:49-57 | With the source not colder than the plate, every tick reports a positive percentage, because the pinned source is heated. |
| Engine.Cells | app.py:76 | The array read as rows has the array's shape and its values cell by cell. |
| Engine.StoresCells | app.py:76 | The rows read from the engine's array are exactly the engine's field. |
| Engine.Diffused | simulation_engine.py:33-40 | A fresh array of the same shape holds `Diffuse` of the old field. |
| Engine.CopyRowInPlace | simulation_engine.py:43-44 | The array afterwards holds the field with row `dst` replaced by row `src`. |
| Engine.CopyColInPlace | simulation_engine.py:45-46 | The array afterwards holds the field with column `dst` replaced by column `src`. |
| Engine.PinInPlace | simulation_engine.py:49 | The array afterwards holds the field with one cell set. |
| Engine.NextField | simulation_engine.py:33-49 | The fresh buffer of a tick holds `StepField` of the old field. |
| Engine.HeatedShare | simulation_engine.py:55-57 | The percentage of cells at or above the threshold is in [0, 100]. It is positive when the centre is heated. |
| Engine.RecordPercentage | simulation_engine.py:57-58 | Appending a percentage in [0, 100] keeps every recorded percentage in [0, 100]. |
| Engine.TickClock | simulation_engine.py:52-59 | Advancing the clock by `dt` and recording it keeps the clock equal to ticks times `dt`, with the k-th time `(k + 1) * dt`. |
| Engine.SimulationEngine.constructor | simulation_engine.py:5-29 | The engine keeps its parameters. The plate is at ambient with the centre at the source temperature. Histories are empty and time is 0. The threshold is `ambient + 0.99 * (heat_temp - ambient)`. The engine is not running, not paused, at speed 1, and valid. |
| Engine.SimulationEngine.Advance | simulation_engine.py:33-50 | `T` becomes a fresh array holding `StepField` of the old field, with the centre at the source temperature. |
| Engine.SimulationEngine.Step | simulation_engine.py:31-60 | After a tick the field is `StepField` of the old one and time advances by `dt`. The result is the percentage of heated cells, in [0, 100], and positive when the source is not colder than the plate. Both histories grow by the new percentage and time. Validity is kept. |
| Server.Resolve | app.py:21-32 | Each field present in the request is used as given. A missing source coordinate is half the resolved dimension, rounded down. |
| Server.DefaultRequest | app.py:22-32 | An empty request gives the default experiment: 50 x 50, alpha 0.1, source 100, plate 20, speed 1, source (25, 25), dx 1, dt 0.1, "Neumann". |
| Server.StartCallRaises | app.py:34-35 | The keywords passed to the engine in `/start` include `source_x`, which is not a parameter of the engine. So the call cannot bind. |
| Server.LastPercentage | app.py:77 | The reported percentage is the last recorded one, or 0 with no history. It is in [0, 100] when the history is. |
| Server.App.constructor | app.py:10 | Before any `/start` there is no engine. |
| Server.App.Start | app.py:18-38 | On a plate with at least one cell, a fresh engine replaces any previous one. It has the resolved parameters, the starting plate and empty histories, and is running, not paused, at the requested speed. On an empty plate, an error reply leaves the previous engine in place. |
| Server.App.Pause | app.py:54-60 | The reply is "paused". An engine, if any, is paused, and its run flag, speed, array and progress are unchanged. |
| Server.App.Resume | app.py:62-68 | The reply is "resumed". An engine, if any, is unpaused, and everything else is as in `Pause`. A finished run stays finished. |
| Server.App.RunIteration | app.py:40-48 | Requires `dx != 0` only on a plate with an interior cell. A stopped run exits and a paused one sleeps, both with no change. A plate one cell wide or high crashes with no change. Otherwise exactly one tick happens, and the run stops iff the reported percentage is at least 99. |
| Server.App.Status | app.py:70-83 | No engine gives the error reply. With an engine, the reply carries the field, the last percentage (in [0, 100]), the time, and the two flags. The time equals ticks times `dt` and the last recorded time. |
| Server.App.Graph | app.py:89-94 | `/graph` refuses with 400 and the fixed message exactly when there is no engine or the run is still going. Past the guard it plots only attributes the engine has, the percentage history among them. |
| Server.GraphRaises | app.py:100 | The first plot reads `avg_temp_history`, which is not among the engine's attributes (simulation_engine.py:6-29). |
| Server.GraphReadsRecorded | app.py:113-139 | Without that plot, the plots read the time and percentage histories and `T`, all attributes the engine has. |
| Client.Clamp01 | static/js/simulation.js:217 | The clamped value is in [0, 1], equals the input inside [0, 1], and is the nearer end outside. |
| Client.TemperatureToColor | static/js/simulation.js:231-267 | Every channel of the colour is in [0, 255]. |
| Client.ColorClamps | static/js/simulation.js:232 | Values below 0 or above 1 get the colour of 0 or of 1. |
| Client.ColorAnchors | static/js/simulation.js:235-265 | The segment ends are blue, cyan, green, yellow, orange (255, 180, 0) and red. |
| Client.ColorBands | static/js/simulation.js:235-265 | There is no red up to 0.5 and full red above 0.75. There is full blue up to 0.25 and no blue above 0.5. Green is full from 0.25 to 0.75. |
| Client.ColorOrdered | static/js/simulation.js:231-265 | A hotter value is never less red and never more blue. |
| Client.Stable | static/js/simulation.js:108-111 | For positive alpha the `dt` check passes exactly when `4 alpha dt <= 0.9 dx^2`. |
| Client.CheckStart | static/js/simulation.js:98-116 | A source x beyond the width is rejected first, then a source y beyond the height, then a `dt` over `0.9 dx^2 / (4 alpha)`. Each check is an iff. Each rejection carries the limit it reports: the width, the height or that `dt` bound. An equal coordinate passes, and `alpha = 0` never rejects. |
| Client.DefaultsProceed | static/js/simulation.js:98-116 | The server's default experiment passes the client's checks. |
| Client.WithinLimit | static/js/simulation.js:40-45 | A coordinate within its limit is kept. One above it becomes half the limit, rounded down, which is within a non-negative limit. |
| Client.WithinLimitIdempotent | static/js/simulation.js:40-45 | Applying the limit twice equals applying it once. |
| Client.LimitedSourceAccepted | static/js/simulation.js:29-46 | After the limits are applied, only the `dt` check can reject the form. |
| Client.Form.constructor | static/js/simulation.js:30-39 | The form holds the given plate size and source position. |
| Client.Form.UpdateSourceLimits | static/js/simulation.js:29-46 | The source inputs' maxima become the plate size, and each coordinate is brought within its limit. |
| Client.Form.CenterSource | static/js/simulation.js:51-58 | The source moves to the middle of the plate, rounded down. |
| Client.Normalised | static/js/simulation.js:216-217 | The normalised temperature is in [0, 1]. It is 0 at ambient and 1 at the source temperature. |
| Client.CellRect | static/js/simulation.js:220 | The square of cell `(i, j)` lies inside the padded canvas: at least `Padding` from the top-left, and at most `Padding + cols * CellSize` right and `Padding + rows * CellSize` down. |
| Client.Picture | static/js/simulation.js:213-222 | The squares of the first `n` rows number `n * cols`. |
| Client.RowRects | static/js/simulation.js:214-221 | One square per cell of the row prefix. |
| Client.RowRectsAt | static/js/simulation.js:214-221 | Square `j` of a row is the square of cell `(i, j)`. |
| Client.PicturePrefix | static/js/simulation.js:213-222 | Drawing more rows only appends squares. |
| Client.PictureAt | static/js/simulation.js:204-223 | The picture of a `rows x cols` matrix has `rows * cols` squares. Square `i * cols + j` is at `(10 + 10 j, 10 + 10 i)`, 10 wide, in the colour of cell `(i, j)`'s normalised temperature. |
| Client.Canvas.constructor | static/js/simulation.js:4-5 | The canvas has the given size and nothing painted. |
| Client.Canvas.Resize | static/js/simulation.js:207-208 | Setting the size clears the canvas to `cols * 10 + 20` by `rows * 10 + 20`. |
| Client.Canvas.PaintRow | static/js/simulation.js:214-221 | The inner loop appends the squares of row `i`, left to right. |
| Client.Canvas.DrawSimulation | static/js/simulation.js:204-223 | The canvas gets the matrix's size plus padding, and the painted squares are exactly `Picture` of the matrix, row by row. |

## Left out

- HTTP, JSON and Flask routing, the `/` page, and `render_template` are not modelled. The handlers take and return Dafny values.
- The background thread, the lock and the sleep pacing (`0.05 / sim_speed`) are not modelled. `RunIteration` is one loop pass taken atomically, and `simSpeed` is only stored.
- Server.App.RunIteration: does not model the sleep that follows every pass that does not stop the run, paused passes included. With `sim_speed` 0 that sleep raises `ZeroDivisionError`, and with a negative speed it raises `ValueError`. Either ends the thread after its first pass. The model instead goes on stepping.
- A second `/start` during a run leaves the old loop thread running, and that thread reads the global `simulation`. This interleaving is concurrency and is not modelled.
- The `int()`/`float()` conversions in `/start` are not modelled: the request fields are already typed. The conversions' exceptions and truncation are left out too.
- `boundary`, `source_x` and `source_y` never reach the engine: the boundary is always insulated and the source is at the centre. They are only resolved.
- The defaults in the engine constructor's signature are not modelled, because the server always passes every argument.
- Server.App.RunIteration: requires `dx != 0` on plates at least three cells high and wide. On those, `dx = 0` makes the interior update divide by zero, and numpy produces infinities and NaNs, which `real` cannot represent. On a plate two cells high or wide there is no interior, the update is never evaluated, and any `dx` is allowed (`Field.StencilDefined`).
- Engine.SimulationEngine.Step: the same condition on `dx`, for the same reason.
- `/graph` past its guard plots four figures with matplotlib. The drawing is not modelled: the reply only names the engine attributes the plots read. The `AttributeError` of the first plot is under "## Findings".
- Floating point: `real` is exact. Rounding in numpy's float64 and in JavaScript numbers is not modelled.
- Client.Canvas.DrawSimulation: requires a non-empty rectangular matrix and `heatTemp != ambient`. In the browser an empty matrix throws at `matrix[0].length`. With equal temperatures the normalisation divides by zero. A hotter cell gets +Infinity, which is clamped to 1 and drawn red. A colder cell gets -Infinity, which is clamped to 0 and drawn blue. A cell exactly at ambient gets NaN (0/0), and its colour string is `rgb(255,NaN,0)`. None of these results is modelled.
- Client.Normalised: requires `heatTemp != ambient`, for the same reason.
- Client.TemperatureToColor: the result is the three channels, not the `"rgb(r,g,b)"` string.
- The DOM is not modelled: element lookups, `parseInt`/`parseFloat` and their NaN results, alerts, button states, `updateSliderValue`, `restartSimulation` and `showGraph`.
- `fetch`, the `getStatus` polling interval and the text formatting with `toFixed` are not modelled.
- Client.Form.UpdateSourceLimits: the input's `max` attribute is only recorded. The browser's own enforcement of it is not modelled.

## Findings

| source | as written | input that shows it | evidently intended | confidence | as-written member | corrected member |
|---|---|---|---|---|---|---|
| app.py:34-35 | `/start` passes `source_x`, `source_y` and `boundary` to an engine constructor that declares none of them, so every call raises `TypeError` and no run can start | any request, including the empty one | construct the engine with the seven parameters it declares (the extra values are unused anywhere) | high; not executed | Server.StartCallRaises | Server.App.Start |
| app.py:100 | the first plot of `/graph` reads `simulation.avg_temp_history`, which the engine never sets, so every `/graph` past its guard raises `AttributeError` | a finished run (`running` false), then `GET /graph` (once `/start` binds; see the row above) | plot only recorded histories, or record the average temperature at each tick | high; not executed | Server.GraphRaises | Server.App.Graph |
