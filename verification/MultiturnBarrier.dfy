// The round barrier over every interleaving: no client runs ahead of it, every run is
// finite, and runs complete exactly for the round counts the barrier can serve.
module MultiturnBarrier {
  import opened Bags
  import opened Basics
  import opened Multiturn
  import opened MultiturnSafety

  function Tally(s: seq<nat>, v: int): (n: nat)
    ensures n <= |s|
  {
    if s == [] then 0 else Tally(s[..|s| - 1], v) + if s[|s| - 1] == v then 1 else 0
  }

  lemma {:induction false} TallyUpdate(s: seq<nat>, c: nat, x: nat, v: int)
    requires c < |s|
    ensures Tally(s[c := x], v) == Tally(s, v) - (if s[c] == v then 1 else 0) + if x == v then 1 else 0
  {
    var last := |s| - 1;
    if c == last {
      assert s[c := x][..last] == s[..last];
    } else {
      TallyUpdate(s[..last], c, x, v);
      assert s[c := x][..last] == s[..last][c := x];
    }
  }

  lemma {:induction false} TallyExtremes(s: seq<nat>, v: int)
    ensures Tally(s, v) == |s| <==> forall c :: 0 <= c < |s| ==> s[c] == v
    ensures Tally(s, v) == 0 <==> forall c :: 0 <= c < |s| ==> s[c] != v
  {
    if s != [] { TallyExtremes(s[..|s| - 1], v); }
  }

  // The round the barrier is letting through.
  function Base(s: State): int {
    s.barrierRound + if s.handler.Releasing? then 1 else 0
  }

  // A request of client c exists and its response is not yet counted.
  function Active(s: State, c: nat): nat {
    In(s.ready, c) + In(s.inFlight, c) + InResponses(s.responses, c)
    + if s.handler.Counted? then 0 else InHandler(s.handler, c)
  }

  // Responses counted into the round but not yet at the barrier.
  function Pending(s: State): nat {
    if s.handler.Counted? || s.handler.AtBarrier? then 1 else 0
  }

  ghost predicate KeepsPace(s: State, c: nat)
    requires c < |s.round|
  {
    && Base(s) <= s.round[c] <= Base(s) + 1
    && (Active(s, c) > 0 ==> s.round[c] == Base(s))
    && (In(s.held, c) > 0 || s.handler == Counted(c) ==> s.round[c] == Base(s) + 1)
    && (s.handler.Releasing? ==> s.round[c] == Base(s))
  }

  ghost predicate BarrierCounts(cfg: Config, s: State) {
    && 0 <= s.barrierRound && (s.barrierRound <= cfg.numRounds || s.barrierRound == 0)
    && (s.handler.Releasing? ==> s.barrierRound < cfg.numRounds)
    && (s.barrierRound < cfg.numRounds && !s.handler.Releasing? ==>
          s.barrierDone == Tally(s.round, Base(s) + 1) - Pending(s)
          && (cfg.totals != [] ==> s.barrierDone < |cfg.totals|))
  }

  ghost predicate BarrierInv(cfg: Config, s: State) {
    if cfg.barrier then
      BarrierCounts(cfg, s) && forall c :: 0 <= c < |s.round| ==> KeepsPace(s, c)
    else s.held == [] && !s.handler.Releasing?
  }

  lemma {:induction false} ActiveSend(s: State, i: nat, c: nat)
    requires i < |s.ready| && Client(s, s.ready[i])
    ensures Active(AfterSend(s, i), c) == Active(s, c)
  {
    InDrop(s.ready, i, c);
    InSnoc(s.inFlight, s.ready[i], c);
  }

  lemma {:induction false} ActiveQueued(s: State, i: nat, success: bool, output: Tokens, c: nat)
    requires i < |s.inFlight|
    ensures Active(Queued(s, i, success, output), c) == Active(s, c)
  {
    InDrop(s.inFlight, i, c);
    InResponsesSnoc(s.responses, Response(s.inFlight[i], success, output), c);
  }

  lemma {:induction false} ActiveRelease(s: State, c: nat)
    requires s.handler.Releasing?
    ensures Active(AfterRelease(s), c) == Active(s, c)
  {
    if s.handler.rest != [] {
      InHead(s.handler.rest, c);
      InSnoc(s.ready, s.handler.rest[0], c);
    }
  }

  lemma {:induction false} PaceSuccess(cfg: Config, s: State)
    requires InOnePlace(cfg, s) && cfg.barrier && BarrierInv(cfg, s) && CanCount(s)
    ensures BarrierInv(cfg, AfterSuccess(s))
  {
    var t, d := AfterSuccess(s), s.handler.response.client;
    TallyUpdate(s.round, d, s.round[d] + 1, Base(s) + 1);
    assert KeepsPace(s, d) && Active(s, d) > 0;
    forall c | 0 <= c < |t.round| ensures KeepsPace(t, c) {
      assert KeepsPace(s, c) && Places(s, c) <= 1;
    }
  }

  lemma {:induction false} PaceFailure(cfg: Config, s: State)
    requires InOnePlace(cfg, s) && cfg.barrier && BarrierInv(cfg, s) && CanCount(s)
    ensures BarrierInv(cfg, AfterFailure(s))
  {
    var t := AfterFailure(s);
    forall c | 0 <= c < |t.round| ensures KeepsPace(t, c) { assert KeepsPace(s, c); }
  }

  lemma {:induction false} PaceRequeue(cfg: Config, s: State)
    requires InOnePlace(cfg, s) && cfg.barrier && BarrierInv(cfg, s) && CanRequeue(cfg, s)
    ensures s.pool != [] ==> BarrierInv(cfg, AfterQuestion(cfg, s))
    ensures BarrierInv(cfg, AfterLastRound(s))
  {
    forall c | 0 <= c < |s.round|
      ensures s.pool != [] ==> KeepsPace(AfterQuestion(cfg, s), c)
      ensures KeepsPace(AfterLastRound(s), c)
    {
      assert KeepsPace(s, c);
      InSnoc(s.held, s.handler.client, c);
    }
  }

  lemma {:induction false} PaceBarrier(cfg: Config, s: State)
    requires InOnePlace(cfg, s) && cfg.barrier && BarrierInv(cfg, s) && s.handler.AtBarrier?
    ensures BarrierInv(cfg, AfterBarrier(cfg, s))
  {
    var t := AfterBarrier(cfg, s);
    TallyExtremes(s.round, Base(s) + 1);
    forall c | 0 <= c < |t.round| ensures KeepsPace(t, c) { assert KeepsPace(s, c); }
  }

  lemma {:induction false} PaceRelease(cfg: Config, s: State)
    requires InOnePlace(cfg, s) && cfg.barrier && BarrierInv(cfg, s) && s.handler.Releasing?
    ensures BarrierInv(cfg, AfterRelease(s))
  {
    var t := AfterRelease(s);
    forall c | 0 <= c < |t.round| ensures KeepsPace(t, c) && s.round[c] == Base(s) {
      assert KeepsPace(s, c);
      ActiveRelease(s, c);
    }
    TallyExtremes(s.round, Base(s) + 1);
  }

  lemma {:induction false} PaceSend(cfg: Config, s: State, i: nat)
    requires InOnePlace(cfg, s) && cfg.barrier && BarrierInv(cfg, s) && i < |s.ready| && Client(s, s.ready[i])
    ensures BarrierInv(cfg, AfterSend(s, i))
  {
    forall c | 0 <= c < |s.round| ensures KeepsPace(AfterSend(s, i), c) {
      assert KeepsPace(s, c);
      ActiveSend(s, i, c);
    }
  }

  lemma {:induction false} PaceRespond(cfg: Config, s: State, i: nat, success: bool, output: Tokens)
    requires InOnePlace(cfg, s) && cfg.barrier && BarrierInv(cfg, s)
    ensures BarrierInv(cfg, AfterRespond(s, i, success, output))
  {
    forall c | 0 <= c < |s.round| ensures KeepsPace(AfterRespond(s, i, success, output), c) { assert KeepsPace(s, c); }
  }

  lemma {:induction false} PaceQueued(cfg: Config, s: State, i: nat, success: bool, output: Tokens)
    requires InOnePlace(cfg, s) && cfg.barrier && BarrierInv(cfg, s) && i < |s.inFlight|
    ensures BarrierInv(cfg, Queued(s, i, success, output))
  {
    forall c | 0 <= c < |s.round| ensures KeepsPace(Queued(s, i, success, output), c) {
      assert KeepsPace(s, c);
      ActiveQueued(s, i, success, output, c);
    }
  }

  // Neither the landing response nor the count of crashes matters to the barrier.
  lemma {:induction false} PaceSame(cfg: Config, s: State, landing: Option<Landing>, crashes: nat)
    requires cfg.barrier && BarrierInv(cfg, s)
    ensures BarrierInv(cfg, s.(landing := landing, crashes := crashes))
  {
    var t := s.(landing := landing, crashes := crashes);
    forall c | 0 <= c < |s.round| ensures KeepsPace(t, c) { assert KeepsPace(s, c); }
  }

  lemma {:induction false} PacePut(cfg: Config, s: State)
    requires InOnePlace(cfg, s) && cfg.barrier && BarrierInv(cfg, s) && CanPut(s)
    ensures BarrierInv(cfg, AfterPut(s))
  {
    var l := s.landing.value;
    PaceQueued(cfg, s, l.index, l.success, l.output);
    PaceSame(cfg, Queued(s, l.index, l.success, l.output), None, s.crashes);
  }

  lemma {:induction false} PaceCrash(cfg: Config, s: State, i: nat)
    requires InOnePlace(cfg, s) && cfg.barrier && BarrierInv(cfg, s) && i < |s.inFlight|
    ensures BarrierInv(cfg, AfterCrash(s, i))
  {
    PaceQueued(cfg, s, i, false, []);
    PaceSame(cfg, Queued(s, i, false, []), s.landing, s.crashes + 1);
  }

  lemma {:induction false} PaceGet(cfg: Config, s: State)
    requires InOnePlace(cfg, s) && cfg.barrier && BarrierInv(cfg, s) && s.handler.Idle? && s.responses != []
    ensures BarrierInv(cfg, AfterGet(s))
  {
    forall c | 0 <= c < |s.round| ensures KeepsPace(AfterGet(s), c) { assert KeepsPace(s, c); }
  }

  lemma {:induction false} StepBarrierInv(cfg: Config, s: State, l: Label)
    requires InOnePlace(cfg, s) && BarrierInv(cfg, s) && Enabled(cfg, s, l)
    ensures BarrierInv(cfg, Next(cfg, s, l))
  {
    if cfg.barrier {
      match l
      case Send(i, _) => PaceSend(cfg, s, i);
      case Respond(i, success, output) => PaceRespond(cfg, s, i, success, output);
      case Put => PacePut(cfg, s);
      case Crash(i) => PaceCrash(cfg, s, i);
      case Get => PaceGet(cfg, s);
      case Count => PaceSuccess(cfg, s); PaceFailure(cfg, s);
      case Requeue => PaceRequeue(cfg, s);
      case Barrier => PaceBarrier(cfg, s);
      case Release => PaceRelease(cfg, s);
    }
  }

  lemma {:induction false} InitBarrierInv(cfg: Config)
    requires WellFormed(cfg)
    ensures BarrierInv(cfg, Init(cfg))
  {
    TallyExtremes(Init(cfg).round, 1);
  }

  lemma {:induction false} ReachableBarrierInv(cfg: Config, run: seq<Label>)
    requires WellFormed(cfg) && Exec(cfg, run).Some?
    ensures BarrierInv(cfg, Exec(cfg, run).value) && Inv(cfg, Exec(cfg, run).value)
  {
    ReachableInv(cfg, run);
    if run == [] {
      InitBarrierInv(cfg);
    } else {
      ReachableBarrierInv(cfg, run[..|run| - 1]);
      StepBarrierInv(cfg, Exec(cfg, run[..|run| - 1]).value, run[|run| - 1]);
    }
  }

  // --- Safety of the barrier ---

  // Under the barrier, whatever fails and whatever the round counts: clients are never more
  // than one round apart, and a client has a request for round r only once every client's
  // responses of the rounds before r are handled.
  lemma {:induction false} BarrierHolds(cfg: Config, run: seq<Label>, c: nat, d: nat)
    requires WellFormed(cfg) && cfg.barrier && Exec(cfg, run).Some? && c < |cfg.totals| && d < |cfg.totals|
    ensures var s := Exec(cfg, run).value;
      && |s.round| == |cfg.totals|
      && s.round[c] <= s.round[d] + 1
      && (Active(s, c) > 0 ==> s.round[c] <= s.round[d])
  {
    ReachableBarrierInv(cfg, run);
    var s := Exec(cfg, run).value;
    assert KeepsPace(s, c) && KeepsPace(s, d);
  }

  // --- Every run is finite ---

  function HandlerWork(h: Handler): nat {
    match h
    case Idle => 0
    case Got(_) => 3
    case Counted(_) => 13
    case AtBarrier => 3
    case Releasing(rest) => 2 + 8 * |rest|
  }

  // Work left: eleven units per round still to handle, plus the way each client has to go.
  function Work(cfg: Config, s: State): int {
    11 * (Sum(cfg.totals) - Sum(s.round)) + 9 * |s.held| + 7 * |s.ready| + 6 * |s.inFlight| - Landed(s)
    + 4 * |s.responses| + HandlerWork(s.handler)
  }

  lemma {:induction false} StepWork(cfg: Config, s: State, l: Label)
    requires Enabled(cfg, s, l)
    ensures Work(cfg, Next(cfg, s, l)) < Work(cfg, s)
  {
    if l.Count? {
      var c := s.handler.response.client;
      SumUpdate(s.round, c, s.round[c] + 1);
    }
  }

  lemma {:induction false} SumBelow(a: seq<nat>, b: seq<nat>)
    requires |a| == |b| && forall c :: 0 <= c < |a| ==> a[c] <= b[c]
    ensures Sum(a) <= Sum(b)
  {
    if a != [] { SumBelow(a[..|a| - 1], b[..|b| - 1]); }
  }

  lemma {:induction false} WorkLeft(cfg: Config, s: State)
    requires Inv(cfg, s)
    ensures Work(cfg, s) >= 0
  {
    forall c | 0 <= c < |s.round| ensures s.round[c] <= cfg.totals[c] { assert RecordFits(cfg, s, c); }
    SumBelow(s.round, cfg.totals);
  }

  lemma {:induction false} RunIsBounded(cfg: Config, run: seq<Label>)
    requires WellFormed(cfg) && Exec(cfg, run).Some?
    ensures |run| + Work(cfg, Exec(cfg, run).value) <= 11 * Sum(cfg.totals) + 7 * |cfg.totals|
    ensures |run| <= 11 * Sum(cfg.totals) + 7 * |cfg.totals|
  {
    ReachableInv(cfg, run);
    WorkLeft(cfg, Exec(cfg, run).value);
    if run == [] {
      SumZeros(|cfg.totals|);
    } else {
      RunIsBounded(cfg, run[..|run| - 1]);
      StepWork(cfg, Exec(cfg, run[..|run| - 1]).value, run[|run| - 1]);
    }
  }

  // --- Which runs complete ---

  ghost predicate Quiescent(cfg: Config, s: State) {
    forall l :: !Enabled(cfg, s, l)
  }

  ghost predicate Settled(s: State) {
    s.handler.Idle? && s.responses == [] && s.inFlight == [] && s.ready == []
  }

  // Until every client is retired or held, some step is enabled.
  lemma {:induction false} SomeStep(cfg: Config, s: State) returns (l: Label)
    requires Inv(cfg, s) && cfg.maxParallel >= 1 && !Settled(s)
    ensures Enabled(cfg, s, l) && !l.Crash? && (l.Respond? ==> l.success)
  {
    match s.handler
    case Got(r) =>
      assert Places(s, r.client) > 0;
      l := Count;
    case Counted(_) =>
      CountedCanRequeue(cfg, s);
      l := Requeue;
    case AtBarrier => l := Barrier;
    case Releasing(_) => l := Release;
    case Idle =>
      if s.responses != [] {
        l := Get;
      } else if s.landing.Some? {
        l := Put;
      } else if s.inFlight != [] {
        l := Respond(0, true, []);
      } else {
        assert In(s.ready, s.ready[0]) > 0 && Places(s, s.ready[0]) > 0;
        l := Send(0, s.completed);
      }
  }

  lemma {:induction false} QuiescentIsSettled(cfg: Config, s: State)
    requires Inv(cfg, s) && cfg.maxParallel >= 1 && Quiescent(cfg, s)
    ensures Settled(s)
  {
    if !Settled(s) { var l := SomeStep(cfg, s); }
  }

  ghost predicate FailureFree(run: seq<Label>) {
    forall i :: 0 <= i < |run| ==> !run[i].Crash? && (run[i].Respond? ==> run[i].success)
  }

  ghost predicate NoFailure(s: State) {
    && s.failures == 0 && s.crashes == 0 && (s.landing.Some? ==> s.landing.value.success) && (s.handler.Got? ==> s.handler.response.success)
    && forall i :: 0 <= i < |s.responses| ==> s.responses[i].success
  }

  lemma {:induction false} FailureFreeRun(cfg: Config, run: seq<Label>)
    requires Exec(cfg, run).Some? && FailureFree(run)
    ensures NoFailure(Exec(cfg, run).value)
  {
    if run != [] { FailureFreeRun(cfg, run[..|run| - 1]); }
  }

  // Round counts at most one apart, and none past the round after the last one counted.
  ghost predicate Servable(cfg: Config) {
    forall c, d :: 0 <= c < |cfg.totals| && 0 <= d < |cfg.totals| ==>
      cfg.totals[c] <= cfg.totals[d] + 1 && (cfg.totals[c] <= cfg.numRounds + 1 || cfg.totals[c] == 1)
  }

  lemma {:induction false} SettledPlaces(cfg: Config, s: State, c: nat)
    requires Inv(cfg, s) && Settled(s) && c < |cfg.totals|
    ensures In(s.held, c) + In(s.retired, c) == 1
    ensures In(s.retired, c) > 0 <==> StageOf(s, c) == Gone
  {
    assert Places(s, c) == 1;
  }

  // Retired clients have run all their rounds; held ones have rounds to go.
  lemma {:induction false} SettledRounds(cfg: Config, s: State, c: nat)
    requires Inv(cfg, s) && BarrierInv(cfg, s) && cfg.barrier && Settled(s) && s.failures == 0 && c < |cfg.totals|
    ensures s.round[c] == cfg.totals[c] || (In(s.held, c) > 0 && s.round[c] == s.barrierRound + 1 < cfg.totals[c])
    ensures s.barrierRound <= s.round[c] <= s.barrierRound + 1
    ensures In(s.retired, c) > 0 <==> s.round[c] == cfg.totals[c]
  {
    SettledPlaces(cfg, s, c);
    assert RecordFits(cfg, s, c) && KeepsPace(s, c);
  }

  lemma {:induction false} DoneIsServable(cfg: Config, s: State)
    requires Inv(cfg, s) && BarrierInv(cfg, s) && cfg.barrier && Settled(s) && s.failures == 0 && Done(cfg, s)
    ensures Servable(cfg)
  {
    forall c, d | 0 <= c < |cfg.totals| && 0 <= d < |cfg.totals|
      ensures cfg.totals[c] <= cfg.totals[d] + 1 && (cfg.totals[c] <= cfg.numRounds + 1 || cfg.totals[c] == 1)
    {
      SettledRounds(cfg, s, c);
      SettledRounds(cfg, s, d);
    }
  }

  lemma {:induction false} ServableIsDone(cfg: Config, s: State)
    requires Inv(cfg, s) && BarrierInv(cfg, s) && cfg.barrier && Settled(s) && s.failures == 0 && Servable(cfg)
    ensures Done(cfg, s)
  {
    forall c | 0 <= c < |cfg.totals| ensures In(s.retired, c) > 0 {
      SettledRounds(cfg, s, c);
      if In(s.retired, c) == 0 {
        forall d | 0 <= d < |cfg.totals| ensures s.round[d] == s.barrierRound + 1 { SettledRounds(cfg, s, d); }
        TallyExtremes(s.round, s.barrierRound + 1);
        assert false;
      }
    }
  }

  // With the barrier and no failures, a run that can go no further has finished every client
  // exactly when the round counts are servable. Otherwise requests stay held for ever.
  lemma {:induction false} CompletesIffServable(cfg: Config, run: seq<Label>)
    requires WellFormed(cfg) && cfg.barrier && cfg.maxParallel >= 1
    requires Exec(cfg, run).Some? && FailureFree(run) && Quiescent(cfg, Exec(cfg, run).value)
    ensures Done(cfg, Exec(cfg, run).value) <==> Servable(cfg)
    ensures Servable(cfg) ==> Exec(cfg, run).value.completed == Sum(cfg.totals)
  {
    var s := Exec(cfg, run).value;
    ReachableBarrierInv(cfg, run);
    QuiescentIsSettled(cfg, s);
    FailureFreeRun(cfg, run);
    if Servable(cfg) {
      ServableIsDone(cfg, s);
      CompletedRun(cfg, run);
    }
    if Done(cfg, s) { DoneIsServable(cfg, s); }
  }

  // Without the barrier every maximal run retires every client, failures or not.
  lemma {:induction false} CompletesWithoutBarrier(cfg: Config, run: seq<Label>)
    requires WellFormed(cfg) && !cfg.barrier && cfg.maxParallel >= 1
    requires Exec(cfg, run).Some? && Quiescent(cfg, Exec(cfg, run).value)
    ensures Done(cfg, Exec(cfg, run).value)
  {
    var s := Exec(cfg, run).value;
    ReachableBarrierInv(cfg, run);
    QuiescentIsSettled(cfg, s);
    forall c | 0 <= c < |cfg.totals| ensures In(s.retired, c) > 0 { SettledPlaces(cfg, s, c); }
  }

  lemma {:induction false} ExecSnoc(cfg: Config, run: seq<Label>, l: Label)
    requires Exec(cfg, run).Some? && Enabled(cfg, Exec(cfg, run).value, l)
    ensures Exec(cfg, run + [l]) == Some(Next(cfg, Exec(cfg, run).value, l))
  {
    assert (run + [l])[..|run|] == run;
  }

  // Maximal failure-free runs exist: every failure-free run can be driven to one.
  lemma {:induction false} DriveToQuiescence(cfg: Config, run: seq<Label>) returns (full: seq<Label>)
    requires WellFormed(cfg) && cfg.maxParallel >= 1 && Exec(cfg, run).Some? && FailureFree(run)
    ensures run <= full && Exec(cfg, full).Some? && FailureFree(full) && Quiescent(cfg, Exec(cfg, full).value)
    decreases 11 * Sum(cfg.totals) + 7 * |cfg.totals| - |run|
  {
    var s := Exec(cfg, run).value;
    ReachableInv(cfg, run);
    if Settled(s) {
      full := run;
    } else {
      var l := SomeStep(cfg, s);
      ExecSnoc(cfg, run, l);
      RunIsBounded(cfg, run + [l]);
      full := DriveToQuiescence(cfg, run + [l]);
    }
  }
}
