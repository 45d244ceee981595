// When the workload stops: both threads leave their loops only once the progress bar has
// reached the planned number of requests.
module MultiturnStop {
  import opened Bags
  import opened Basics
  import opened Multiturn
  import opened MultiturnSafety
  import opened MultiturnBarrier
  import opened MultiturnFailures

  // The test on which the sender and the response handler leave their loops.
  predicate BarFull(cfg: Config, s: State) {
    s.bar == Sum(cfg.totals)
  }

  // The client played all its rounds, or failed in the last one.
  ghost predicate PlayedOut(cfg: Config, s: State, c: nat)
    requires c < |s.round| == |cfg.totals|
  {
    s.round[c] == cfg.totals[c] || (Failed(cfg, s, c) && s.round[c] + 1 == cfg.totals[c])
  }

  lemma {:induction false} SumEqualIff(a: seq<nat>, b: seq<nat>)
    requires |a| == |b| && forall c :: 0 <= c < |a| ==> a[c] <= b[c]
    ensures Sum(a) <= Sum(b) && (Sum(a) == Sum(b) <==> a == b)
  {
    if a != [] {
      var last := |a| - 1;
      SumEqualIff(a[..last], b[..last]);
      assert a == a[..last] + [a[last]] && b == b[..last] + [b[last]];
    }
  }

  // No client sends more than its rounds, and one that waits has sent fewer.
  lemma {:induction false} SentWithin(cfg: Config, s: State, c: nat)
    requires Inv(cfg, s) && c < |cfg.totals|
    ensures |s.sentLog[c]| <= cfg.totals[c]
    ensures StageOf(s, c) == Waiting ==> |s.sentLog[c]| < cfg.totals[c]
    ensures StageOf(s, c) == Gone ==> (|s.sentLog[c]| == cfg.totals[c] <==> PlayedOut(cfg, s, c))
  {
    assert RecordFits(cfg, s, c);
  }

  // The bar is full exactly when every planned request is sent and answered, at most one of
  // the responses is still to be queued, and none crashed.
  lemma {:induction false} FullIffAllSent(cfg: Config, s: State)
    requires Inv(cfg, s)
    ensures s.sent == Sum(cfg.totals) <==> forall c :: 0 <= c < |cfg.totals| ==> |s.sentLog[c]| == cfg.totals[c]
    ensures s.sent <= Sum(cfg.totals)
    ensures BarFull(cfg, s) <==> s.sent == Sum(cfg.totals) && |s.inFlight| == Landed(s) && s.crashes == 0
  {
    var sent := Lengths(s.sentLog);
    forall c | 0 <= c < |sent| ensures sent[c] <= cfg.totals[c] { SentWithin(cfg, s, c); }
    SumEqualIff(sent, cfg.totals);
    assert sent == cfg.totals <==> forall c :: 0 <= c < |cfg.totals| ==> |s.sentLog[c]| == cfg.totals[c];
  }

  lemma {:induction false} FullBarPlaces(cfg: Config, s: State, c: nat)
    requires Inv(cfg, s) && BarFull(cfg, s)
    ensures In(s.ready, c) == In(s.held, c) == 0
    ensures s.handler.Releasing? ==> In(s.handler.rest, c) == 0
  {
    FullIffAllSent(cfg, s);
    if c < |cfg.totals| { SentWithin(cfg, s, c); }
    assert Places(s, c) == if c < |cfg.totals| then 1 else 0;
  }

  // On a full bar nothing is ready or held back, and the only request still in flight, if any,
  // is answered and about to be queued.
  lemma {:induction false} FullBarWork(cfg: Config, s: State)
    requires Inv(cfg, s) && BarFull(cfg, s)
    ensures s.ready == s.held == [] && (s.handler.Releasing? ==> s.handler.rest == [])
    ensures |s.inFlight| == Landed(s)
  {
    FullIffAllSent(cfg, s);
    if s.ready != [] { FullBarPlaces(cfg, s, s.ready[0]); }
    if s.held != [] { FullBarPlaces(cfg, s, s.held[0]); }
    if s.handler.Releasing? && s.handler.rest != [] { FullBarPlaces(cfg, s, s.handler.rest[0]); }
  }

  lemma {:induction false} FullBarAlmostDone(cfg: Config, run: seq<Label>)
    requires WellFormed(cfg) && Exec(cfg, run).Some? && BarFull(cfg, Exec(cfg, run).value)
    ensures var s := Exec(cfg, run).value;
      && s.ready == s.held == [] && (s.handler.Releasing? ==> s.handler.rest == [])
      && |s.inFlight| == if s.landing.Some? then 1 else 0
  {
    ReachableInv(cfg, run);
    FullBarWork(cfg, Exec(cfg, run).value);
  }

  lemma {:induction false} SettledStops(cfg: Config, s: State)
    requires Inv(cfg, s) && Settled(s)
    ensures s.completed == Sum(cfg.totals) <==> forall c :: 0 <= c < |cfg.totals| ==> PlayedOut(cfg, s, c)
    ensures BarFull(cfg, s) <==> s.crashes == 0 && s.completed == Sum(cfg.totals)
  {
    FullIffAllSent(cfg, s);
    forall c | 0 <= c < |cfg.totals| ensures |s.sentLog[c]| == cfg.totals[c] <==> PlayedOut(cfg, s, c) {
      SettledPlaces(cfg, s, c);
      SentWithin(cfg, s, c);
      assert RecordFits(cfg, s, c);
    }
  }

  // A run that can go no further stops exactly when every client played all its rounds or
  // failed in its last one, and no request crashed; otherwise both threads wait for ever.
  lemma {:induction false} StopsIff(cfg: Config, run: seq<Label>)
    requires WellFormed(cfg) && cfg.maxParallel >= 1
    requires Exec(cfg, run).Some? && Quiescent(cfg, Exec(cfg, run).value)
    ensures var s := Exec(cfg, run).value;
      && |s.round| == |cfg.totals|
      && (s.completed == Sum(cfg.totals) <==> forall c :: 0 <= c < |cfg.totals| ==> PlayedOut(cfg, s, c))
      && (BarFull(cfg, s) <==> s.crashes == 0 && s.completed == Sum(cfg.totals))
  {
    ReachableInv(cfg, run);
    QuiescentIsSettled(cfg, Exec(cfg, run).value);
    SettledStops(cfg, Exec(cfg, run).value);
  }

  // Without the barrier: exactly when every failure hit a client's last round.
  lemma {:induction false} StopsWithoutBarrier(cfg: Config, run: seq<Label>)
    requires WellFormed(cfg) && !cfg.barrier && cfg.maxParallel >= 1
    requires Exec(cfg, run).Some? && Quiescent(cfg, Exec(cfg, run).value)
    ensures var s := Exec(cfg, run).value;
      && |s.round| == |cfg.totals|
      && (BarFull(cfg, s) <==> s.crashes == 0 && forall c: nat :: Failed(cfg, s, c) ==> s.round[c] + 1 == cfg.totals[c])
  {
    var s := Exec(cfg, run).value;
    ReachableInv(cfg, run);
    StopsIff(cfg, run);
    CompletesWithoutBarrier(cfg, run);
    forall c: nat | c < |cfg.totals|
      ensures PlayedOut(cfg, s, c) <==> (Failed(cfg, s, c) ==> s.round[c] + 1 == cfg.totals[c])
    {
      assert RecordFits(cfg, s, c);
    }
  }

  // With the barrier and a failure: exactly when no client has a round after the failed one.
  lemma {:induction false} StopsAfterFailureIff(cfg: Config, run: seq<Label>, c: nat)
    requires WellFormed(cfg) && cfg.barrier && cfg.maxParallel >= 1
    requires Exec(cfg, run).Some? && Quiescent(cfg, Exec(cfg, run).value) && Failed(cfg, Exec(cfg, run).value, c)
    ensures var s := Exec(cfg, run).value;
      BarFull(cfg, s) <==> s.crashes == 0 && forall d :: 0 <= d < |cfg.totals| ==> cfg.totals[d] <= s.round[c] + 1
  {
    var s := Exec(cfg, run).value;
    ReachableInv(cfg, run);
    StopsIff(cfg, run);
    QuiescentIsSettled(cfg, s);
    AllOutAfterFailureIff(cfg, run, c);
    forall d | 0 <= d < |cfg.totals| ensures PlayedOut(cfg, s, d) <==> cfg.totals[d] <= s.round[c] + 1 {
      ClientAfterFailure(cfg, run, c, d);
    }
  }

  lemma {:induction false} ClientAfterFailure(cfg: Config, run: seq<Label>, c: nat, d: nat)
    requires WellFormed(cfg) && cfg.barrier && cfg.maxParallel >= 1 && d < |cfg.totals|
    requires Exec(cfg, run).Some? && Quiescent(cfg, Exec(cfg, run).value) && Failed(cfg, Exec(cfg, run).value, c)
    ensures var s := Exec(cfg, run).value;
      |s.round| == |cfg.totals| && (PlayedOut(cfg, s, d) <==> cfg.totals[d] <= s.round[c] + 1)
  {
    var s := Exec(cfg, run).value;
    FailureFreezesRound(cfg, run, c, d);
    ReachableBarrierInv(cfg, run);
    ReachableFrozen(cfg, run);
    QuiescentIsSettled(cfg, s);
    SettledPlaces(cfg, s, d);
    assert RecordFits(cfg, s, d) && KeepsPace(s, d) && KeepsPace(s, c);
  }

  // With equal round counts: exactly when the failure came in the last round.
  lemma {:induction false} EqualRoundsAfterFailure(cfg: Config, run: seq<Label>, c: nat, rounds: nat)
    requires WellFormed(cfg) && cfg.barrier && cfg.maxParallel >= 1
    requires forall d :: 0 <= d < |cfg.totals| ==> cfg.totals[d] == rounds
    requires Exec(cfg, run).Some? && Quiescent(cfg, Exec(cfg, run).value) && Failed(cfg, Exec(cfg, run).value, c)
    ensures var s := Exec(cfg, run).value;
      && (BarFull(cfg, s) <==> s.crashes == 0 && s.round[c] == rounds - 1)
      && (Done(cfg, s) <==> s.round[c] == rounds - 1 || forall d :: 0 <= d < |cfg.totals| ==> Failed(cfg, s, d))
  {
    StopsAfterFailureIff(cfg, run, c);
    AllOutAfterFailureIff(cfg, run, c);
  }

  // Failure-free with the barrier: exactly when the round counts are servable.
  lemma {:induction false} StopsIffServable(cfg: Config, run: seq<Label>)
    requires WellFormed(cfg) && cfg.barrier && cfg.maxParallel >= 1
    requires Exec(cfg, run).Some? && FailureFree(run) && Quiescent(cfg, Exec(cfg, run).value)
    ensures BarFull(cfg, Exec(cfg, run).value) <==> Servable(cfg)
  {
    var s := Exec(cfg, run).value;
    ReachableInv(cfg, run);
    CompletesIffServable(cfg, run);
    FailureFreeRun(cfg, run);
    StopsIff(cfg, run);
    if BarFull(cfg, s) {
      QuiescentIsSettled(cfg, s);
      forall c | 0 <= c < |cfg.totals| ensures In(s.retired, c) > 0 {
        assert PlayedOut(cfg, s, c) && RecordFits(cfg, s, c);
        SettledPlaces(cfg, s, c);
      }
    }
  }

  // One client, at least two rounds, and the first request fails: every client is out and
  // nothing can happen any more, but the bar stands at one and the program hangs.
  lemma {:induction false} FirstFailureHangs(cfg: Config) returns (run: seq<Label>)
    requires WellFormed(cfg) && |cfg.totals| == 1 && cfg.totals[0] >= 2 && cfg.maxParallel >= 1
    ensures Exec(cfg, run).Some? && Quiescent(cfg, Exec(cfg, run).value) && Done(cfg, Exec(cfg, run).value)
    ensures Exec(cfg, run).value.bar == Exec(cfg, run).value.completed == 1 && !BarFull(cfg, Exec(cfg, run).value)
  {
    var s;
    run, s := SendFirst(cfg);
    run := LoseFirst(cfg, run, s, false);
    OutButNotFull(cfg, Exec(cfg, run).value);
  }

  // One client whose only request, or first one, ends in an exception: the client is out, even
  // played out if it had one round, but the bar has not moved.
  lemma {:induction false} CrashHangs(cfg: Config) returns (run: seq<Label>)
    requires WellFormed(cfg) && |cfg.totals| == 1 && cfg.maxParallel >= 1
    ensures Exec(cfg, run).Some? && Quiescent(cfg, Exec(cfg, run).value) && Done(cfg, Exec(cfg, run).value)
    ensures Exec(cfg, run).value.bar == 0 && !BarFull(cfg, Exec(cfg, run).value)
  {
    var s;
    run, s := SendFirst(cfg);
    run := LoseFirst(cfg, run, s, true);
    OutButNotFull(cfg, Exec(cfg, run).value);
  }

  // Every configuration the barrier cannot serve has a run without any failure that hangs.
  lemma {:induction false} UnservableHangs(cfg: Config) returns (run: seq<Label>)
    requires WellFormed(cfg) && cfg.barrier && cfg.maxParallel >= 1 && !Servable(cfg)
    ensures Exec(cfg, run).Some? && FailureFree(run) && Quiescent(cfg, Exec(cfg, run).value)
    ensures !BarFull(cfg, Exec(cfg, run).value)
  {
    run := DriveToQuiescence(cfg, []);
    StopsIffServable(cfg, run);
  }

  lemma {:induction false} OutButNotFull(cfg: Config, s: State)
    requires |cfg.totals| == 1 && cfg.totals[0] > s.bar && Settled(s) && s.landing.None? && s.retired == [0]
    ensures Quiescent(cfg, s) && Done(cfg, s) && !BarFull(cfg, s)
  {
    SumOne(cfg.totals);
    assert In(s.retired, 0) > 0;
  }

  lemma {:induction false} SumOne(totals: seq<nat>)
    requires |totals| == 1
    ensures Sum(totals) == totals[0]
  {
    assert totals[..0] == [];
  }

  // The one client's first request is in flight.
  lemma {:induction false} SendFirst(cfg: Config) returns (run: seq<Label>, s: State)
    requires WellFormed(cfg) && |cfg.totals| == 1 && cfg.maxParallel >= 1
    ensures Exec(cfg, run) == Some(s) && FailureFree(run)
    ensures s.inFlight == [0] && s.ready == s.retired == [] && s.landing.None? && s.responses == [] && s.handler.Idle?
    ensures s.sent == 1 && s.bar == s.completed == 0 && Client(s, 0)
  {
    assert UpTo(1) == [0];
    ExecSnoc(cfg, [], Send(0, 0));
    run, s := [Send(0, 0)], AfterSend(Init(cfg), 0);
  }

  lemma {:induction false} LoseFirst(cfg: Config, run: seq<Label>, s: State, crash: bool) returns (longer: seq<Label>)
    requires Exec(cfg, run) == Some(s) && s.inFlight == [0] && s.ready == s.retired == [] && Client(s, 0)
    requires s.landing.None? && s.responses == [] && s.handler.Idle? && s.bar == s.completed == 0
    ensures Exec(cfg, longer).Some?
    ensures var t := Exec(cfg, longer).value;
      Settled(t) && t.landing.None? && t.retired == [0] && t.completed == 1 && t.bar == if crash then 0 else 1
  {
    var t;
    if crash {
      longer, t := Extend(cfg, run, s, Crash(0));
    } else {
      longer, t := Extend(cfg, run, s, Respond(0, false, []));
      longer, t := Extend(cfg, longer, t, Put);
    }
    longer, t := Extend(cfg, longer, t, Get);
    longer, t := Extend(cfg, longer, t, Count);
  }

  lemma {:induction false} Extend(cfg: Config, run: seq<Label>, s: State, l: Label) returns (longer: seq<Label>, t: State)
    requires Exec(cfg, run) == Some(s) && Enabled(cfg, s, l)
    ensures Exec(cfg, longer) == Some(t) && t == Next(cfg, s, l)
  {
    ExecSnoc(cfg, run, l);
    longer, t := run + [l], Next(cfg, s, l);
  }
}
