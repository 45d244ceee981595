// How the two threads leave their loops: a full bar is the only way out, the handler can miss
// the last response, and then a sender allowed one request at a time never gets out.
module MultiturnLeaving {
  import opened Bags
  import opened Basics
  import opened Multiturn
  import opened MultiturnSafety
  import opened MultiturnBarrier
  import opened MultiturnStop

  // The workload with its two threads; the event loop ends with the sender.
  datatype Program = Program(core: State, handlerGone: bool, senderGone: bool)

  // `inside` says that a response is just then between the bar and the queue.
  datatype Step = Do(taken: Label) | HandlerLeaves(inside: bool) | SenderLeaves(seen: int)

  predicate CanDo(cfg: Config, p: Program, step: Step) {
    match step
    case Do(l) => Enabled(cfg, p.core, l) && !(if ByHandler(l) then p.handlerGone else p.senderGone)
    case HandlerLeaves(inside) =>
      && !p.handlerGone && p.core.handler.Idle? && p.core.responses == [] && BarFull(cfg, p.core)
      && inside == p.core.landing.Some?
    case SenderLeaves(seen) =>
      && !p.senderGone && p.core.landing.None? && BarFull(cfg, p.core)
      && seen <= p.core.completed && p.core.sent - seen < cfg.maxParallel
  }

  function After(cfg: Config, p: Program, step: Step): Program
    requires CanDo(cfg, p, step)
  {
    match step
    case Do(l) => p.(core := Next(cfg, p.core, l))
    case HandlerLeaves(_) => p.(handlerGone := true)
    case SenderLeaves(_) => p.(senderGone := true)
  }

  function Run(cfg: Config, steps: seq<Step>): Option<Program> {
    if steps == [] then Some(Program(Init(cfg), false, false))
    else
      var before := Run(cfg, steps[..|steps| - 1]);
      if before.Some? && CanDo(cfg, before.value, steps[|steps| - 1])
      then Some(After(cfg, before.value, steps[|steps| - 1])) else None
  }

  ghost predicate Over(cfg: Config, p: Program) {
    forall step :: !CanDo(cfg, p, step)
  }

  // The handler left between the move of the bar and the put of the response.
  ghost predicate LeftInside(steps: seq<Step>) {
    HandlerLeaves(true) in steps
  }

  lemma {:induction false} RunSnoc(cfg: Config, steps: seq<Step>, p: Program, step: Step)
    requires Run(cfg, steps) == Some(p) && CanDo(cfg, p, step)
    ensures Run(cfg, steps + [step]) == Some(After(cfg, p, step))
  {
    assert (steps + [step])[..|steps|] == steps;
  }

  // --- The program's workload takes the steps of the state machine ---

  function Labels(steps: seq<Step>): seq<Label> {
    if steps == [] then []
    else Labels(steps[..|steps| - 1]) + if steps[|steps| - 1].Do? then [steps[|steps| - 1].taken] else []
  }

  lemma {:induction false} Projects(cfg: Config, steps: seq<Step>)
    requires Run(cfg, steps).Some?
    ensures Exec(cfg, Labels(steps)) == Some(Run(cfg, steps).value.core)
  {
    if steps != [] {
      var init, last := steps[..|steps| - 1], steps[|steps| - 1];
      Projects(cfg, init);
      if last.Do? {
        ExecSnoc(cfg, Labels(init), last.taken);
      } else {
        assert Labels(steps) == Labels(init);
      }
    }
  }

  lemma {:induction false} Lifts(cfg: Config, run: seq<Label>) returns (steps: seq<Step>)
    requires Exec(cfg, run).Some?
    ensures Run(cfg, steps) == Some(Program(Exec(cfg, run).value, false, false))
  {
    if run == [] {
      steps := [];
    } else {
      var init, last := run[..|run| - 1], run[|run| - 1];
      steps := Lifts(cfg, init);
      RunSnoc(cfg, steps, Program(Exec(cfg, init).value, false, false), Do(last));
      steps := steps + [Do(last)];
    }
  }

  // --- What leaving keeps ---

  ghost predicate Leaving(cfg: Config, p: Program, inside: bool) {
    && (p.senderGone ==> BarFull(cfg, p.core) && p.core.landing.None? && p.core.sent - p.core.completed < cfg.maxParallel)
    && (p.handlerGone ==>
          BarFull(cfg, p.core) && p.core.handler.Idle? && Landed(p.core) + |p.core.responses| == if inside then 1 else 0)
    && (inside ==> p.handlerGone)
  }

  // On a full bar nothing is sent, answered or lost any more.
  lemma {:induction false} FullBarSteps(cfg: Config, s: State, l: Label)
    requires Inv(cfg, s) && BarFull(cfg, s) && Enabled(cfg, s, l)
    ensures l.Put? || ByHandler(l)
    ensures var t := Next(cfg, s, l); BarFull(cfg, t) && t.sent == s.sent && t.completed >= s.completed
  {
    FullBarWork(cfg, s);
  }

  lemma {:induction false} StepLeaving(cfg: Config, p: Program, step: Step, inside: bool)
    requires Inv(cfg, p.core) && Leaving(cfg, p, inside) && CanDo(cfg, p, step)
    ensures Leaving(cfg, After(cfg, p, step), inside || step == HandlerLeaves(true))
  {
    match step
    case Do(l) => if BarFull(cfg, p.core) { FullBarSteps(cfg, p.core, l); }
    case HandlerLeaves(_) =>
    case SenderLeaves(_) =>
  }

  lemma {:induction false} ReachableLeaving(cfg: Config, steps: seq<Step>)
    requires WellFormed(cfg) && Run(cfg, steps).Some?
    ensures Inv(cfg, Run(cfg, steps).value.core) && Leaving(cfg, Run(cfg, steps).value, LeftInside(steps))
  {
    Projects(cfg, steps);
    ReachableInv(cfg, Labels(steps));
    if steps != [] {
      var init, last := steps[..|steps| - 1], steps[|steps| - 1];
      ReachableLeaving(cfg, init);
      StepLeaving(cfg, Run(cfg, init).value, last, LeftInside(init));
      LeftInsideSnoc(steps);
    }
  }

  lemma {:induction false} LeftInsideSnoc(steps: seq<Step>)
    requires steps != []
    ensures LeftInside(steps) <==> LeftInside(steps[..|steps| - 1]) || steps[|steps| - 1] == HandlerLeaves(true)
  {
    assert steps == steps[..|steps| - 1] + [steps[|steps| - 1]];
  }

  // Every run is finite.
  lemma {:induction false} StepsTaken(cfg: Config, steps: seq<Step>)
    requires Run(cfg, steps).Some?
    ensures var p := Run(cfg, steps).value;
      |steps| == |Labels(steps)| + (if p.handlerGone then 1 else 0) + (if p.senderGone then 1 else 0)
  {
    if steps != [] { StepsTaken(cfg, steps[..|steps| - 1]); }
  }

  lemma {:induction false} ProgramIsBounded(cfg: Config, steps: seq<Step>)
    requires WellFormed(cfg) && Run(cfg, steps).Some?
    ensures |steps| <= 11 * Sum(cfg.totals) + 7 * |cfg.totals| + 2
  {
    Projects(cfg, steps);
    RunIsBounded(cfg, Labels(steps));
    StepsTaken(cfg, steps);
  }

  // --- Who gets out ---

  lemma {:induction false} NotOver(cfg: Config, p: Program, step: Step)
    requires CanDo(cfg, p, step)
    ensures !Over(cfg, p)
  {
  }

  lemma {:induction false} OverIsStill(cfg: Config, p: Program, inside: bool)
    requires Inv(cfg, p.core) && cfg.maxParallel >= 1 && Leaving(cfg, p, inside) && Over(cfg, p)
    ensures p.core.landing.None? && p.core.inFlight == [] && p.core.ready == [] && p.core.handler.Idle?
    ensures !p.handlerGone ==> p.core.responses == []
  {
    var s := p.core;
    if p.senderGone || p.handlerGone { FullBarWork(cfg, s); }
    assert !CanDo(cfg, p, Do(Put));
    if !p.handlerGone { HandlerIsIdle(cfg, p); }
    if !Settled(s) && !p.senderGone && !p.handlerGone {
      var l := SomeStep(cfg, s);
      NotOver(cfg, p, Do(l));
    }
  }

  lemma {:induction false} HandlerIsIdle(cfg: Config, p: Program)
    requires Inv(cfg, p.core) && Over(cfg, p) && !p.handlerGone
    ensures p.core.handler.Idle? && p.core.responses == []
  {
    if !p.core.handler.Idle? || p.core.responses != [] {
      var l := HandlerStep(cfg, p.core);
      NotOver(cfg, p, Do(l));
    }
  }

  // While the handler has something to do it can do it.
  lemma {:induction false} HandlerStep(cfg: Config, s: State) returns (l: Label)
    requires Inv(cfg, s) && (!s.handler.Idle? || s.responses != [])
    ensures Enabled(cfg, s, l) && ByHandler(l)
  {
    match s.handler
    case Idle => l := Get;
    case Got(r) =>
      assert Places(s, r.client) > 0;
      l := Count;
    case Counted(_) =>
      CountedCanRequeue(cfg, s);
      l := Requeue;
    case AtBarrier => l := Barrier;
    case Releasing(_) => l := Release;
  }

  // A program with no step left: the handler got out exactly on a full bar; it missed one
  // response exactly when it left inside the window; and the sender got out with it unless
  // that response was all it was allowed to have outstanding. On a bar that is not full
  // nobody got out, and the workload is stuck in the sense of StopsIff.
  lemma {:induction false} LeavesIff(cfg: Config, steps: seq<Step>)
    requires WellFormed(cfg) && cfg.maxParallel >= 1 && Run(cfg, steps).Some? && Over(cfg, Run(cfg, steps).value)
    ensures var p := Run(cfg, steps).value;
      && (p.handlerGone <==> BarFull(cfg, p.core))
      && (p.senderGone <==> BarFull(cfg, p.core) && !(LeftInside(steps) && cfg.maxParallel == 1))
      && |p.core.responses| == (if LeftInside(steps) then 1 else 0)
      && (BarFull(cfg, p.core) ==> p.core.completed + |p.core.responses| == Sum(cfg.totals))
      && (!BarFull(cfg, p.core) ==> Quiescent(cfg, p.core))
  {
    var p := Run(cfg, steps).value;
    ReachableLeaving(cfg, steps);
    OverIsStill(cfg, p, LeftInside(steps));
    FullIffAllSent(cfg, p.core);
    assert !CanDo(cfg, p, HandlerLeaves(false));
    assert !CanDo(cfg, p, SenderLeaves(p.core.completed));
    if !BarFull(cfg, p.core) {
      forall l ensures !Enabled(cfg, p.core, l) { assert !CanDo(cfg, p, Do(l)); }
    }
  }

  // If nobody left inside the window, both got out exactly when every client played out and
  // nothing crashed.
  lemma {:induction false} EndsIff(cfg: Config, steps: seq<Step>)
    requires WellFormed(cfg) && cfg.maxParallel >= 1 && Run(cfg, steps).Some? && Over(cfg, Run(cfg, steps).value)
    requires !LeftInside(steps)
    ensures var p := Run(cfg, steps).value;
      && (p.handlerGone <==> p.senderGone) && |p.core.round| == |cfg.totals|
      && (p.handlerGone <==> p.core.crashes == 0 && forall c :: 0 <= c < |cfg.totals| ==> PlayedOut(cfg, p.core, c))
  {
    LeavesIff(cfg, steps);
    ReachableLeaving(cfg, steps);
    OverIsStill(cfg, Run(cfg, steps).value, false);
    SettledStops(cfg, Run(cfg, steps).value.core);
  }

  // --- The window is always there ---

  // With a response landing, the handler can work off everything before it.
  lemma {:induction false} HandlerCatchesUp(cfg: Config, steps: seq<Step>, s: State) returns (longer: seq<Step>, t: State)
    requires WellFormed(cfg) && Run(cfg, steps) == Some(Program(s, false, false))
    requires BarFull(cfg, s) && s.landing.Some?
    ensures Run(cfg, longer) == Some(Program(t, false, false))
    ensures BarFull(cfg, t) && t.landing.Some? && t.handler.Idle? && t.responses == []
    decreases Work(cfg, s)
  {
    ReachableLeaving(cfg, steps);
    if s.handler.Idle? && s.responses == [] {
      longer, t := steps, s;
    } else {
      var l := HandlerStep(cfg, s);
      FullBarSteps(cfg, s, l);
      RunSnoc(cfg, steps, Program(s, false, false), Do(l));
      ReachableLeaving(cfg, steps + [Do(l)]);
      WorkLeft(cfg, s);
      StepWork(cfg, s, l);
      longer, t := HandlerCatchesUp(cfg, steps + [Do(l)], Next(cfg, s, l));
    }
  }

  // The bar fills up by an answer that is not yet queued.
  lemma {:induction false} FillingRun(cfg: Config, run: seq<Label>) returns (short: seq<Label>)
    requires WellFormed(cfg) && cfg.totals != [] && Exec(cfg, run).Some? && BarFull(cfg, Exec(cfg, run).value)
    ensures Exec(cfg, short).Some? && BarFull(cfg, Exec(cfg, short).value) && Exec(cfg, short).value.landing.Some?
  {
    if run == [] {
      SumPositive(cfg.totals);
      assert false;
    } else if BarFull(cfg, Exec(cfg, run[..|run| - 1]).value) {
      short := FillingRun(cfg, run[..|run| - 1]);
    } else {
      short := run;
    }
  }

  lemma {:induction false} SumPositive(totals: seq<nat>)
    requires totals != [] && forall c :: 0 <= c < |totals| ==> totals[c] >= 1
    ensures Sum(totals) >= 1
  {
    assert totals[|totals| - 1] >= 1;
  }

  // Whenever a configuration can fill the bar at all, some schedule loses the last response;
  // with one request at a time the program then never ends.
  lemma {:induction false} LastResponseLost(cfg: Config, run: seq<Label>) returns (steps: seq<Step>)
    requires WellFormed(cfg) && cfg.totals != [] && cfg.maxParallel >= 1
    requires Exec(cfg, run).Some? && BarFull(cfg, Exec(cfg, run).value)
    ensures Run(cfg, steps).Some? && LeftInside(steps) && BarFull(cfg, Run(cfg, steps).value.core)
    ensures Over(cfg, Run(cfg, steps).value) && |Run(cfg, steps).value.core.responses| == 1
    ensures Run(cfg, steps).value.senderGone <==> cfg.maxParallel >= 2
  {
    var short := FillingRun(cfg, run);
    steps := Lifts(cfg, short);
    var s;
    steps, s := HandlerCatchesUp(cfg, steps, Exec(cfg, short).value);
    steps := LeaveAndPut(cfg, steps, s);
    LeavesIff(cfg, steps);
  }

  lemma {:induction false} LeaveAndPut(cfg: Config, steps: seq<Step>, s: State) returns (longer: seq<Step>)
    requires WellFormed(cfg) && cfg.maxParallel >= 1 && Run(cfg, steps) == Some(Program(s, false, false))
    requires BarFull(cfg, s) && s.landing.Some? && s.handler.Idle? && s.responses == []
    ensures Run(cfg, longer).Some? && LeftInside(longer)
    ensures BarFull(cfg, Run(cfg, longer).value.core) && Over(cfg, Run(cfg, longer).value)
  {
    ReachableLeaving(cfg, steps);
    FullBarWork(cfg, s);
    RunSnoc(cfg, steps, Program(s, false, false), HandlerLeaves(true));
    var left := steps + [HandlerLeaves(true)];
    RunSnoc(cfg, left, Program(s, true, false), Do(Put));
    longer := left + [Do(Put)];
    var p := Program(AfterPut(s), true, false);
    if cfg.maxParallel >= 2 {
      RunSnoc(cfg, longer, p, SenderLeaves(p.core.completed));
      longer := longer + [SenderLeaves(p.core.completed)];
    }
  }

  // One client, one round, one request at a time: the answer arrives, the handler leaves just
  // before it is queued, and the sender waits for ever for the count to go up.
  lemma {:induction false} OneAnswerLost(cfg: Config, output: Tokens) returns (steps: seq<Step>)
    requires WellFormed(cfg) && cfg.totals == [1] && cfg.maxParallel == 1
    ensures Run(cfg, steps).Some? && Over(cfg, Run(cfg, steps).value)
    ensures var p := Run(cfg, steps).value;
      p.handlerGone && !p.senderGone && BarFull(cfg, p.core) && p.core.responses == [Response(0, true, output)]
  {
    var run, s := SendFirst(cfg);
    SumOne(cfg.totals);
    steps := Lifts(cfg, run);
    RunSnoc(cfg, steps, Program(s, false, false), Do(Respond(0, true, output)));
    steps, s := steps + [Do(Respond(0, true, output))], AfterRespond(s, 0, true, output);
    RunSnoc(cfg, steps, Program(s, false, false), HandlerLeaves(true));
    steps := steps + [HandlerLeaves(true)];
    RunSnoc(cfg, steps, Program(s, true, false), Do(Put));
    steps, s := steps + [Do(Put)], AfterPut(s);
  }
}
