// What a failed request does to the round barrier: it freezes the round it failed in.
module MultiturnFailures {
  import opened Bags
  import opened Basics
  import opened Multiturn
  import opened MultiturnSafety
  import opened MultiturnBarrier

  // The client is out with rounds left to play: its last response was a failure.
  ghost predicate Failed(cfg: Config, s: State, c: nat) {
    c < |s.round| == |cfg.totals| && In(s.retired, c) > 0 && s.round[c] < cfg.totals[c]
  }

  // The barrier never gets past a round in which a client failed.
  ghost predicate Frozen(cfg: Config, s: State) {
    && (forall c: nat :: Failed(cfg, s, c) ==> s.round[c] == Base(s))
    && (s.failures > 0 <==> exists c: nat :: Failed(cfg, s, c))
  }

  // Among the records that fit, a failed client is one that is out too early.
  lemma {:induction false} FailedStage(cfg: Config, s: State, c: nat)
    requires Inv(cfg, s) && c < |cfg.totals|
    ensures Failed(cfg, s, c) <==> StageOf(s, c) == Gone && s.round[c] < cfg.totals[c]
    ensures StageOf(s, c) == Outstanding ==> s.round[c] < cfg.totals[c]
    ensures StageOf(s, c) == BeingHandled ==> s.round[c] <= cfg.totals[c]
  {
    assert RecordFits(cfg, s, c);
  }

  // Failed clients stay as they are, and their number only grows by the one whose failure is counted.
  lemma {:induction false} StepFailed(cfg: Config, s: State, l: Label, c: nat)
    requires Inv(cfg, s) && Enabled(cfg, s, l)
    ensures var t := Next(cfg, s, l);
      && (Failed(cfg, t, c) <==>
            Failed(cfg, s, c) || (l.Count? && !s.handler.response.success && c == s.handler.response.client))
      && (Failed(cfg, s, c) ==> t.round[c] == s.round[c])
  {
    StepInv(cfg, s, l);
    if c < |cfg.totals| {
      FailedStage(cfg, s, c);
      FailedStage(cfg, Next(cfg, s, l), c);
      StepStage(cfg, s, l, c);
      var m := Mover(cfg, s, l);
      if m.None? || m.value.0 != c { StepOthers(cfg, s, l, c); }
    }
  }

  // Opening the next round takes a response from every client in this one.
  lemma {:induction false} BaseStays(cfg: Config, s: State, l: Label, c: nat)
    requires Inv(cfg, s) && BarrierInv(cfg, s) && cfg.barrier && Enabled(cfg, s, l)
    requires Failed(cfg, s, c) && s.round[c] == Base(s)
    ensures Base(Next(cfg, s, l)) == Base(s)
  {
    if l.Barrier? { TallyExtremes(s.round, Base(s) + 1); }
  }

  lemma {:induction false} StepFrozen(cfg: Config, s: State, l: Label)
    requires Inv(cfg, s) && BarrierInv(cfg, s) && cfg.barrier && Frozen(cfg, s) && Enabled(cfg, s, l)
    ensures Frozen(cfg, Next(cfg, s, l))
  {
    var t := Next(cfg, s, l);
    forall c: nat | Failed(cfg, t, c) ensures t.round[c] == Base(t) && t.failures > 0 {
      StepFailed(cfg, s, l, c);
      if Failed(cfg, s, c) {
        BaseStays(cfg, s, l, c);
      } else {
        assert Active(s, c) > 0 && KeepsPace(s, c);
      }
    }
    if t.failures > 0 { SomeoneFailed(cfg, s, l); }
  }

  lemma {:induction false} SomeoneFailed(cfg: Config, s: State, l: Label)
    requires Inv(cfg, s) && Frozen(cfg, s) && Enabled(cfg, s, l) && Next(cfg, s, l).failures > 0
    ensures exists c: nat :: Failed(cfg, Next(cfg, s, l), c)
  {
    var c: nat;
    if s.failures > 0 { c :| Failed(cfg, s, c); } else { c := s.handler.response.client; }
    StepFailed(cfg, s, l, c);
    assert Failed(cfg, Next(cfg, s, l), c);
  }

  lemma {:induction false} ReachableFrozen(cfg: Config, run: seq<Label>)
    requires WellFormed(cfg) && cfg.barrier && Exec(cfg, run).Some?
    ensures Frozen(cfg, Exec(cfg, run).value)
  {
    if run != [] {
      ReachableFrozen(cfg, run[..|run| - 1]);
      ReachableBarrierInv(cfg, run[..|run| - 1]);
      StepFrozen(cfg, Exec(cfg, run[..|run| - 1]).value, run[|run| - 1]);
    }
  }

  // In every barrier run all failures fall into one round, and no client gets further than
  // through that round.
  lemma {:induction false} FailureFreezesRound(cfg: Config, run: seq<Label>, c: nat, d: nat)
    requires WellFormed(cfg) && cfg.barrier && Exec(cfg, run).Some? && d < |cfg.totals|
    requires Failed(cfg, Exec(cfg, run).value, c)
    ensures var s := Exec(cfg, run).value;
      && s.round[c] <= s.round[d] <= s.round[c] + 1
      && (Failed(cfg, s, d) ==> s.round[d] == s.round[c])
  {
    ReachableFrozen(cfg, run);
    ReachableBarrierInv(cfg, run);
    assert KeepsPace(Exec(cfg, run).value, d);
  }

  // In a barrier run with a failure that can go no further, every client is out exactly when
  // no client that did not fail has a round after the failed one.
  lemma {:induction false} AllOutAfterFailureIff(cfg: Config, run: seq<Label>, c: nat)
    requires WellFormed(cfg) && cfg.barrier && cfg.maxParallel >= 1
    requires Exec(cfg, run).Some? && Quiescent(cfg, Exec(cfg, run).value) && Failed(cfg, Exec(cfg, run).value, c)
    ensures var s := Exec(cfg, run).value;
      Done(cfg, s) <==> forall d :: 0 <= d < |cfg.totals| ==> Failed(cfg, s, d) || cfg.totals[d] <= s.round[c] + 1
  {
    var s := Exec(cfg, run).value;
    ReachableBarrierInv(cfg, run);
    ReachableFrozen(cfg, run);
    QuiescentIsSettled(cfg, s);
    forall d | 0 <= d < |cfg.totals|
      ensures In(s.retired, d) > 0 <==> Failed(cfg, s, d) || cfg.totals[d] <= s.round[c] + 1
    {
      SettledPlaces(cfg, s, d);
      assert RecordFits(cfg, s, d) && KeepsPace(s, d);
    }
  }

  // A run has a failed client if and only if some response it counted was a failure.
  lemma {:induction false} FailedIffFailure(cfg: Config, run: seq<Label>)
    requires WellFormed(cfg) && cfg.barrier && Exec(cfg, run).Some?
    ensures Exec(cfg, run).value.failures > 0 <==> exists c: nat :: Failed(cfg, Exec(cfg, run).value, c)
  {
    ReachableFrozen(cfg, run);
  }
}
