/** The web server's handlers as one sequential state machine over the single, optional engine.
    Each handler, and one iteration of the background loop, is one atomic step; the thread, the
    lock and the pacing sleep are not part of this model. */
module Server {
  import opened Field
  import opened Engine

  datatype Option<T> = None | Some(value: T)

  function Or<T>(o: Option<T>, default: T): (v: T) {
    if o.Some? then o.value else default
  }

  /** The JSON body of `POST /start`; any field may be missing. */
  datatype StartRequest = StartRequest(
    width: Option<int>, height: Option<int>, alpha: Option<real>, heatTemp: Option<real>,
    ambient: Option<real>, simSpeed: Option<real>, sourceX: Option<int>, sourceY: Option<int>,
    dx: Option<real>, dt: Option<real>, boundary: Option<string>)

  /** The parameters `/start` works with once defaults are filled in. */
  datatype Config = Config(
    width: int, height: int, alpha: real, heatTemp: real, ambient: real, simSpeed: real,
    sourceX: int, sourceY: int, dx: real, dt: real, boundary: string)

  /** A field that is present is taken as given; a missing one takes its default. The default
      source position is the centre of the (resolved) plate, rounded down. */
  function Resolve(req: StartRequest): (c: Config)
    ensures req.width.Some? ==> c.width == req.width.value
    ensures req.height.Some? ==> c.height == req.height.value
    ensures req.alpha.Some? ==> c.alpha == req.alpha.value
    ensures req.heatTemp.Some? ==> c.heatTemp == req.heatTemp.value
    ensures req.ambient.Some? ==> c.ambient == req.ambient.value
    ensures req.simSpeed.Some? ==> c.simSpeed == req.simSpeed.value
    ensures req.sourceX.Some? ==> c.sourceX == req.sourceX.value
    ensures req.sourceY.Some? ==> c.sourceY == req.sourceY.value
    ensures req.dx.Some? ==> c.dx == req.dx.value
    ensures req.dt.Some? ==> c.dt == req.dt.value
    ensures req.boundary.Some? ==> c.boundary == req.boundary.value
    ensures req.sourceX.None? ==> 2 * c.sourceX <= c.width < 2 * c.sourceX + 2
    ensures req.sourceY.None? ==> 2 * c.sourceY <= c.height < 2 * c.sourceY + 2
  {
    var width := Or(req.width, 50);
    var height := Or(req.height, 50);
    Config(width, height, Or(req.alpha, 0.1), Or(req.heatTemp, 100.0), Or(req.ambient, 20.0),
           Or(req.simSpeed, 1.0), Or(req.sourceX, width / 2), Or(req.sourceY, height / 2),
           Or(req.dx, 1.0), Or(req.dt, 0.1), Or(req.boundary, "Neumann"))
  }

  /** An empty request runs the default experiment: a 50 x 50 plate, alpha 0.1, source at 100
      on a plate at 20, speed 1, source at (25, 25), dx 1, dt 0.1, insulated edges. */
  lemma DefaultRequest()
    ensures Resolve(StartRequest(None, None, None, None, None, None, None, None, None, None, None))
      == Config(50, 50, 0.1, 100.0, 20.0, 1.0, 25, 25, 1.0, 0.1, "Neumann")
  {
  }

  // ---------------------------------------------------------------------------
  // The engine call in `/start`

  /** The keyword parameters the engine's constructor accepts. */
  const EngineParameters: set<string> := {"width", "height", "alpha", "heat_temp", "ambient", "dx", "dt"}

  /** The keywords the handler passes to the constructor as the handler is written. */
  const StartKeywords: set<string> := EngineParameters + {"source_x", "source_y", "boundary"}

  /** A keyword call binds, rather than raising a `TypeError`, when every keyword names a
      parameter. */
  predicate Binds(keywords: set<string>) {
    keywords <= EngineParameters
  }

  /** As written, the constructor call in `/start` cannot bind: `source_x` is not a parameter. */
  lemma StartCallRaises()
    ensures !Binds(StartKeywords)
    ensures "source_x" in StartKeywords - EngineParameters
  {
    assert "source_x" in StartKeywords;
  }

  // ---------------------------------------------------------------------------
  // The attributes `/graph` reads

  /** The attributes an engine has: those its constructor sets, none added by a tick. */
  const EngineAttributes: set<string> := {
    "width", "height", "alpha", "heat_temp", "ambient", "dx", "dt", "T", "center",
    "percentage_history", "time_history", "current_time", "threshold",
    "running", "paused", "sim_speed"}

  /** The engine attributes the four plots of `/graph` read, as written. */
  const GraphReadsAsWritten: set<string> := {"time_history", "avg_temp_history", "percentage_history", "T"}

  /** The engine attributes the plots read once the average-temperature plot, which has no
      recorded history to draw, is dropped. */
  const GraphReads: set<string> := GraphReadsAsWritten - {"avg_temp_history"}

  /** As written, the first plot reads an attribute no engine has, so every `/graph` that passes
      its guard raises `AttributeError`. */
  lemma GraphRaises()
    ensures "avg_temp_history" in GraphReadsAsWritten - EngineAttributes
    ensures !(GraphReadsAsWritten <= EngineAttributes)
  {
    assert "avg_temp_history" in GraphReadsAsWritten;
  }

  /** Without that plot, every attribute the plots read is one the engine has. */
  lemma GraphReadsRecorded()
    ensures GraphReads <= EngineAttributes
    ensures GraphReads == {"time_history", "percentage_history", "T"}
  {
  }

  // ---------------------------------------------------------------------------
  // Replies

  datatype StartReply = Started | ServerError

  datatype StatusReply =
    | NoSimulation(error: string)
    | Snapshot(matrix: seq<seq<real>>, percentage: real, time: real, running: bool, paused: bool)

  /** `/graph` either refuses, or passes its guard and plots from the engine attributes named in
      `plotted` (the drawing itself is not modelled). */
  datatype GraphReply = Refused(code: int, message: string) | Plot(plotted: set<string>)

  /** What one iteration of the background loop did. `Crashed`: `step` raised on a plate with a
      single row or column, which ends the thread and leaves the engine as it was. */
  datatype Iteration = Exited | Slept | Crashed | Stepped(percentage: real)

  const NotFinished := "La simulación aún no ha finalizado."

  /** The run stops once at least this percentage of the plate is heated. */
  const StopPercentage := 99.0

  /** The last percentage recorded, or 0 before the first tick. */
  function LastPercentage(history: seq<real>): (p: real)
    ensures Percentages(history) ==> 0.0 <= p <= 100.0
    ensures history == [] ==> p == 0.0
    ensures history != [] ==> p == history[|history| - 1]
  {
    if history == [] then 0.0 else history[|history| - 1]
  }

  class App {
    /** The global `simulation`: no engine until the first successful `/start`. */
    var simulation: SimulationEngine?

    ghost predicate Valid()
      reads this, simulation, if simulation != null then {simulation.T} else {}
    {
      simulation != null ==> simulation.Valid()
    }

    constructor ()
      ensures Valid() && simulation == null
    {
      simulation := null;
    }

    /** `POST /start`: a fresh engine built from the resolved parameters replaces any previous
        one, running, not paused, at the requested speed. The constructor raises on a plate
        with no cell, and then the previous engine stays in place. */
    method Start(req: StartRequest) returns (reply: StartReply)
      requires Valid()
      modifies this
      ensures Valid()
      ensures var c := Resolve(req);
        if c.width >= 1 && c.height >= 1 then
          && reply == Started
          && simulation != null && fresh(simulation)
          && simulation.width == c.width && simulation.height == c.height
          && simulation.alpha == c.alpha && simulation.heatTemp == c.heatTemp
          && simulation.ambient == c.ambient && simulation.dx == c.dx && simulation.dt == c.dt
          && simulation.field == InitialField(c.height, c.width, c.ambient, c.heatTemp)
          && simulation.percentageHistory == [] && simulation.timeHistory == []
          && simulation.currentTime == 0.0
          && simulation.running && !simulation.paused && simulation.simSpeed == c.simSpeed
        else
          reply == ServerError && simulation == old(simulation)
    {
      var c := Resolve(req);
      if c.width < 1 || c.height < 1 {
        return ServerError;
      }
      var engine := new SimulationEngine(c.width, c.height, c.alpha, c.heatTemp, c.ambient, c.dx, c.dt);
      engine.simSpeed := c.simSpeed;
      engine.running := true;
      engine.paused := false;
      simulation := engine;
      reply := Started;
    }

    /** `POST /pause`: sets `paused` on the engine if there is one, and nothing else. */
    method Pause() returns (status: string)
      requires Valid()
      modifies simulation
      ensures Valid() && status == "paused"
      ensures simulation != null ==>
        && simulation.paused
        && simulation.running == old(simulation.running)
        && simulation.simSpeed == old(simulation.simSpeed)
        && simulation.T == old(simulation.T)
        && simulation.Progressed() == old(simulation.Progressed())
    {
      if simulation != null {
        simulation.paused := true;
      }
      status := "paused";
    }

    /** `POST /resume`: clears `paused` on the engine if there is one, and nothing else; in
        particular a finished run is not restarted. */
    method Resume() returns (status: string)
      requires Valid()
      modifies simulation
      ensures Valid() && status == "resumed"
      ensures simulation != null ==>
        && !simulation.paused
        && simulation.running == old(simulation.running)
        && simulation.simSpeed == old(simulation.simSpeed)
        && simulation.T == old(simulation.T)
        && simulation.Progressed() == old(simulation.Progressed())
    {
      if simulation != null {
        simulation.paused := false;
      }
      status := "resumed";
    }

    /** One pass of the background loop: it exits once the run has stopped, sleeps while
        paused, and otherwise performs exactly one tick, stopping the run when at least
        `StopPercentage` of the plate is heated. */
    method RunIteration() returns (it: Iteration)
      requires Valid() && simulation != null
      requires StencilDefined(simulation.height, simulation.width, simulation.dx)
      modifies simulation
      ensures Valid()
      ensures !old(simulation.running) ==> it == Exited
      ensures old(simulation.running) && old(simulation.paused) ==> it == Slept
      ensures (old(simulation.running) && !old(simulation.paused) &&
               (simulation.width < 2 || simulation.height < 2)) ==> it == Crashed
      ensures (old(simulation.running) && !old(simulation.paused) &&
               simulation.width >= 2 && simulation.height >= 2) ==> it.Stepped?
      ensures !it.Stepped? ==> unchanged(simulation)
      ensures it.Stepped? ==>
        && simulation.field == StepField(old(simulation.field), simulation.width, simulation.alpha,
                                         simulation.dt, simulation.dx, simulation.heatTemp)
        && simulation.currentTime == old(simulation.currentTime) + simulation.dt
        && it.percentage == Percentage(CountAtLeast(simulation.field, simulation.threshold),
                                       simulation.width, simulation.height)
        && simulation.percentageHistory == old(simulation.percentageHistory) + [it.percentage]
        && simulation.timeHistory == old(simulation.timeHistory) + [simulation.currentTime]
        && (simulation.running <==> it.percentage < StopPercentage)
        && simulation.paused == old(simulation.paused)
        && simulation.simSpeed == old(simulation.simSpeed)
    {
      if !simulation.running {
        return Exited;
      }
      if simulation.paused {
        return Slept;
      }
      if simulation.width < 2 || simulation.height < 2 {
        return Crashed;
      }
      var percentage := simulation.Step();
      if percentage >= StopPercentage {
        simulation.running := false;
      }
      it := Stepped(percentage);
    }

    /** `GET /status`: an error object without an engine; otherwise the temperatures, the
        last recorded percentage (0 before the first tick, always in [0, 100]), the clock
        (ticks times `dt`, the last recorded time) and the two flags. */
    method Status() returns (reply: StatusReply)
      requires Valid()
      ensures simulation == null <==> reply == NoSimulation("No simulation running")
      ensures simulation != null ==>
        && reply.Snapshot?
        && reply.matrix == simulation.field
        && IsGrid(reply.matrix, simulation.height, simulation.width)
        && reply.percentage == LastPercentage(simulation.percentageHistory)
        && 0.0 <= reply.percentage <= 100.0
        && reply.time == simulation.currentTime
        && reply.time == |simulation.timeHistory| as real * simulation.dt
        && (simulation.timeHistory != [] ==> reply.time == simulation.timeHistory[|simulation.timeHistory| - 1])
        && reply.running == simulation.running && reply.paused == simulation.paused
    {
      if simulation == null {
        return NoSimulation("No simulation running");
      }
      StoresCells(simulation.T, simulation.field);
      var matrix := Cells(simulation.T);
      reply := Snapshot(matrix, LastPercentage(simulation.percentageHistory),
                        simulation.currentTime, simulation.running, simulation.paused);
    }

    /** `GET /graph`: refused with 400 exactly when there is no engine or the run has not
        stopped; otherwise it plots the recorded histories and the temperatures, all of which
        the engine has. */
    method Graph() returns (reply: GraphReply)
      ensures reply.Refused? <==> simulation == null || simulation.running
      ensures reply.Refused? ==> reply == Refused(400, NotFinished)
      ensures reply.Plot? ==> reply.plotted <= EngineAttributes && "percentage_history" in reply.plotted
    {
      if simulation == null || simulation.running {
        return Refused(400, NotFinished);
      }
      GraphReadsRecorded();
      reply := Plot(GraphReads);
    }
  }
}
