// What every interleaving of the multi-turn workload keeps: each client in one place,
// bounded parallelism, exact counters, a pool that lasts, and prompts that only grow.
module MultiturnSafety {
  import opened Bags
  import opened Basics
  import opened Multiturn

  // --- Every client is in exactly one place ---

  function InResponses(responses: seq<Response>, c: nat): nat {
    if responses == [] then 0
    else InResponses(responses[1..], c) + if responses[0].client == c then 1 else 0
  }

  function InHandler(h: Handler, c: nat): nat {
    match h
    case Got(r) => if r.client == c then 1 else 0
    case Counted(d) => if c == d then 1 else 0
    case Releasing(rest) => In(rest, c)
    case _ => 0
  }

  // How often client c occurs over all the places a client can be in.
  function Places(s: State, c: nat): nat {
    In(s.ready, c) + In(s.inFlight, c) + InResponses(s.responses, c) + InHandler(s.handler, c)
    + In(s.held, c) + In(s.retired, c)
  }

  ghost predicate InOnePlace(cfg: Config, s: State) {
    && |s.round| == |s.history| == |s.asked| == |s.sentLog| == |s.outLog| == |cfg.totals|
    && forall c: nat :: Places(s, c) == if c < |cfg.totals| then 1 else 0
  }

  lemma {:induction false} InResponsesSnoc(responses: seq<Response>, r: Response, c: nat)
    ensures InResponses(responses + [r], c) == InResponses(responses, c) + if r.client == c then 1 else 0
  {
    if responses == [] {
      assert (responses + [r])[1..] == [];
    } else {
      InResponsesSnoc(responses[1..], r, c);
      assert (responses + [r])[1..] == responses[1..] + [r];
    }
  }

  lemma {:induction false} PlacesSend(s: State, i: nat, c: nat)
    requires i < |s.ready| && Client(s, s.ready[i])
    ensures Places(AfterSend(s, i), c) == Places(s, c)
  {
    InDrop(s.ready, i, c);
    InSnoc(s.inFlight, s.ready[i], c);
  }

  lemma {:induction false} PlacesQueued(s: State, i: nat, success: bool, output: Tokens, c: nat)
    requires i < |s.inFlight|
    ensures Places(Queued(s, i, success, output), c) == Places(s, c)
  {
    InDrop(s.inFlight, i, c);
    InResponsesSnoc(s.responses, Response(s.inFlight[i], success, output), c);
  }

  lemma {:induction false} PlacesCounted(s: State, c: nat)
    requires CanCount(s)
    ensures Places(AfterFailure(s), c) == Places(s, c) && Places(AfterSuccess(s), c) == Places(s, c)
  {
    InSnoc(s.retired, s.handler.response.client, c);
  }

  lemma {:induction false} PlacesRequeued(cfg: Config, s: State, c: nat)
    requires s.handler.Counted? && Client(s, s.handler.client)
    ensures Places(AfterLastRound(s), c) == Places(s, c)
    ensures s.pool != [] ==> Places(AfterQuestion(cfg, s), c) == Places(s, c)
  {
    InSnoc(s.retired, s.handler.client, c);
    InSnoc(s.held, s.handler.client, c);
    InSnoc(s.ready, s.handler.client, c);
  }

  lemma {:induction false} PlacesReleased(s: State, c: nat)
    requires s.handler.Releasing?
    ensures Places(AfterRelease(s), c) == Places(s, c)
  {
    if s.handler.rest != [] {
      InHead(s.handler.rest, c);
      InSnoc(s.ready, s.handler.rest[0], c);
    }
  }

  lemma {:induction false} StepPlaces(cfg: Config, s: State, l: Label, c: nat)
    requires Enabled(cfg, s, l)
    ensures Places(Next(cfg, s, l), c) == Places(s, c)
  {
    match l
    case Send(i, _) => PlacesSend(s, i, c);
    case Respond(_, _, _) =>
    case Put => PlacesQueued(s, s.landing.value.index, s.landing.value.success, s.landing.value.output, c);
    case Crash(i) => PlacesQueued(s, i, false, [], c);
    case Get =>
    case Count => PlacesCounted(s, c);
    case Requeue => PlacesRequeued(cfg, s, c);
    case Barrier =>
    case Release => PlacesReleased(s, c);
  }

  lemma {:induction false} StepInOnePlace(cfg: Config, s: State, l: Label)
    requires InOnePlace(cfg, s) && Enabled(cfg, s, l)
    ensures InOnePlace(cfg, Next(cfg, s, l))
  {
    forall c: nat ensures Places(Next(cfg, s, l), c) == Places(s, c) { StepPlaces(cfg, s, l, c); }
  }

  // --- Counters ---

  function Lengths(log: seq<seq<Tokens>>): (n: seq<nat>)
    ensures |n| == |log| && forall c :: 0 <= c < |log| ==> n[c] == |log[c]|
  {
    seq(|log|, c requires 0 <= c < |log| => |log[c]|)
  }

  function Bad(r: Response): nat {
    if r.success then 0 else 1
  }

  // Failed responses still waiting in the queue.
  function BadResponses(responses: seq<Response>): nat {
    if responses == [] then 0 else BadResponses(responses[1..]) + Bad(responses[0])
  }

  lemma {:induction false} BadResponsesSnoc(responses: seq<Response>, r: Response)
    ensures BadResponses(responses + [r]) == BadResponses(responses) + Bad(r)
  {
    if responses == [] {
      assert (responses + [r])[1..] == [];
    } else {
      BadResponsesSnoc(responses[1..], r);
      assert (responses + [r])[1..] == responses[1..] + [r];
    }
  }

  // Whether a response is on its way to the queue.
  function Landed(s: State): nat {
    if s.landing.Some? then 1 else 0
  }

  // The bar counts every answer but the crashes, each of which is a failure on its way or
  // counted; every request sent is in its client's log.
  ghost predicate CountersMatch(cfg: Config, s: State) {
    CountsMatch(cfg, s) && |s.pool| + Sum(s.asked) == |cfg.pool| && (s.landing.Some? ==> CanPut(s))
  }

  ghost predicate CountsMatch(cfg: Config, s: State) {
    && s.sent == s.completed + |s.inFlight| + |s.responses| + (if s.handler.Got? then 1 else 0)
    && s.bar + s.crashes == s.completed + Landed(s) + |s.responses| + (if s.handler.Got? then 1 else 0)
    && s.crashes <= s.failures + BadResponses(s.responses) + (if s.handler.Got? then Bad(s.handler.response) else 0)
    && s.sent == Sum(Lengths(s.sentLog))
    && s.completed == Sum(s.round) + s.failures
    && (s.sent == s.completed || s.sent - s.completed <= cfg.maxParallel)
  }

  // Nothing that is counted changes.
  ghost predicate SameCounts(s: State, t: State) {
    && t.sent == s.sent && t.completed == s.completed && t.bar == s.bar && t.crashes == s.crashes
    && t.failures == s.failures && t.inFlight == s.inFlight && t.landing == s.landing && t.responses == s.responses
    && t.sentLog == s.sentLog && t.round == s.round && !s.handler.Got? && !t.handler.Got?
  }

  lemma {:induction false} SameCountsMatch(cfg: Config, s: State, t: State)
    requires CountsMatch(cfg, s) && SameCounts(s, t)
    ensures CountsMatch(cfg, t)
  {
  }

  lemma {:induction false} CountedMatch(cfg: Config, s: State)
    requires CountersMatch(cfg, s) && CanCount(s)
    ensures if s.handler.response.success then CountersMatch(cfg, AfterSuccess(s)) else CountersMatch(cfg, AfterFailure(s))
  {
    var c := s.handler.response.client;
    SumUpdate(s.round, c, s.round[c] + 1);
  }

  lemma {:induction false} AskedMatch(cfg: Config, s: State)
    requires CountersMatch(cfg, s) && s.handler.Counted? && Client(s, s.handler.client) && s.pool != []
    ensures CountersMatch(cfg, AfterQuestion(cfg, s))
  {
    var c := s.handler.client;
    SumUpdate(s.asked, c, s.asked[c] + 1);
    SameCountsMatch(cfg, s, AfterQuestion(cfg, s));
  }

  lemma {:induction false} QueuedMatch(cfg: Config, s: State, i: nat, success: bool, output: Tokens)
    requires CountersMatch(cfg, s) && i < |s.inFlight| && s.landing.None?
    ensures CountersMatch(cfg, AfterRespond(s, i, success, output)) && CountersMatch(cfg, AfterCrash(s, i))
  {
    BadResponsesSnoc(s.responses, Response(s.inFlight[i], false, []));
  }

  lemma {:induction false} PutMatch(cfg: Config, s: State)
    requires CountersMatch(cfg, s) && CanPut(s)
    ensures CountersMatch(cfg, AfterPut(s))
  {
    var l := s.landing.value;
    BadResponsesSnoc(s.responses, Response(s.inFlight[l.index], l.success, l.output));
  }

  lemma {:induction false} GotMatch(cfg: Config, s: State)
    requires CountersMatch(cfg, s) && s.handler.Idle? && s.responses != []
    ensures CountersMatch(cfg, AfterGet(s))
  {
  }

  // Steps of the handler that touch no counter.
  lemma {:induction false} PassedMatch(cfg: Config, s: State)
    requires CountersMatch(cfg, s)
    ensures s.handler.Counted? ==> CountersMatch(cfg, AfterLastRound(s))
    ensures s.handler.AtBarrier? ==> CountersMatch(cfg, AfterBarrier(cfg, s))
    ensures s.handler.Releasing? ==> CountersMatch(cfg, AfterRelease(s))
  {
    if s.handler.Counted? { SameCountsMatch(cfg, s, AfterLastRound(s)); }
    if s.handler.AtBarrier? { SameCountsMatch(cfg, s, AfterBarrier(cfg, s)); }
    if s.handler.Releasing? { SameCountsMatch(cfg, s, AfterRelease(s)); }
  }

  lemma {:induction false} SentMatch(cfg: Config, s: State, i: nat, seen: int)
    requires CountersMatch(cfg, s) && CanSend(cfg, s, i, seen)
    ensures CountersMatch(cfg, AfterSend(s, i))
  {
    var c, t := s.ready[i], AfterSend(s, i);
    SumUpdate(Lengths(s.sentLog), c, |s.sentLog[c]| + 1);
    assert Lengths(t.sentLog) == Lengths(s.sentLog)[c := |s.sentLog[c]| + 1];
  }

  lemma {:induction false} StepCountersMatch(cfg: Config, s: State, l: Label)
    requires CountersMatch(cfg, s) && Enabled(cfg, s, l)
    ensures CountersMatch(cfg, Next(cfg, s, l))
  {
    match l
    case Send(i, seen) => SentMatch(cfg, s, i, seen);
    case Respond(i, success, output) => QueuedMatch(cfg, s, i, success, output);
    case Put => PutMatch(cfg, s);
    case Crash(i) => QueuedMatch(cfg, s, i, false, []);
    case Count => CountedMatch(cfg, s);
    case Get => GotMatch(cfg, s);
    case Requeue => if s.pool != [] { AskedMatch(cfg, s); } PassedMatch(cfg, s);
    case _ => PassedMatch(cfg, s);
  }

  // --- One client's record ---

  datatype Stage = Waiting | Outstanding | BeingHandled | Gone

  function StageOf(s: State, c: nat): Stage {
    if In(s.retired, c) > 0 then Gone
    else if s.handler == Counted(c) then BeingHandled
    else if In(s.inFlight, c) + InResponses(s.responses, c) > 0 || (s.handler.Got? && s.handler.response.client == c)
    then Outstanding
    else Waiting
  }

  // Rounds handled and sub-questions taken, as the stage allows.
  ghost predicate RoundsFit(stage: Stage, total: nat, round: nat, asked: nat, failures: nat) {
    match stage
    case Gone =>
      round <= total && (failures == 0 ==> round == total) && asked == if round == total then total - 1 else round
    case BeingHandled => 1 <= round <= total && asked == round - 1
    case _ => round < total && asked == round
  }

  // Each prompt sent starts with the previous prompt and the output it received.
  ghost predicate Chained(sent: seq<Tokens>, outputs: seq<Tokens>) {
    && |outputs| <= |sent| <= |outputs| + 1
    && forall k :: 0 <= k < |sent| - 1 ==> sent[k] + outputs[k] <= sent[k + 1]
  }

  ghost predicate PromptsFit(stage: Stage, first: Tokens, total: nat, round: nat, history: Tokens,
                             sent: seq<Tokens>, outputs: seq<Tokens>) {
    && Chained(sent, outputs) && |outputs| == round
    && (sent != [] ==> sent[0] == first)
    && match stage
       case Gone => |sent| == if round < total then round + 1 else round
       case Outstanding => |sent| == round + 1 && sent[round] == history
       case BeingHandled => |sent| == round > 0 && history == sent[round - 1] + outputs[round - 1]
       case Waiting => |sent| == round && if round == 0 then history == first
                                          else sent[round - 1] + outputs[round - 1] <= history
  }

  ghost predicate RecordFits(cfg: Config, s: State, c: nat)
    requires |s.round| == |s.history| == |s.asked| == |s.sentLog| == |s.outLog| == |cfg.totals| == |cfg.prompts|
    requires c < |cfg.totals|
  {
    && RoundsFit(StageOf(s, c), cfg.totals[c], s.round[c], s.asked[c], s.failures)
    && PromptsFit(StageOf(s, c), cfg.prompts[c], cfg.totals[c], s.round[c], s.history[c], s.sentLog[c], s.outLog[c])
  }

  // The client a step moves to another stage, and the stages it moves between.
  function Mover(cfg: Config, s: State, l: Label): (m: Option<(nat, Stage, Stage)>)
    requires Enabled(cfg, s, l)
  {
    match l
    case Send(i, _) => Some((s.ready[i], Waiting, Outstanding))
    case Count =>
      Some((s.handler.response.client, Outstanding, if s.handler.response.success then BeingHandled else Gone))
    case Requeue =>
      Some((s.handler.client, BeingHandled,
            if s.round[s.handler.client] < cfg.totals[s.handler.client] then Waiting else Gone))
    case _ => None
  }

  lemma {:induction false} StageSend(cfg: Config, s: State, i: nat, c: nat)
    requires InOnePlace(cfg, s) && i < |s.ready| && Client(s, s.ready[i])
    ensures c == s.ready[i] ==> StageOf(s, c) == Waiting
    ensures StageOf(AfterSend(s, i), c) == if c == s.ready[i] then Outstanding else StageOf(s, c)
  {
    InDrop(s.ready, i, c);
    InSnoc(s.inFlight, s.ready[i], c);
    assert Places(s, c) <= 1;
  }

  lemma {:induction false} StageQueued(cfg: Config, s: State, i: nat, success: bool, output: Tokens, c: nat)
    requires InOnePlace(cfg, s) && i < |s.inFlight|
    ensures StageOf(Queued(s, i, success, output), c) == StageOf(s, c)
  {
    InDrop(s.inFlight, i, c);
    InResponsesSnoc(s.responses, Response(s.inFlight[i], success, output), c);
  }

  lemma {:induction false} StageCount(cfg: Config, s: State, c: nat)
    requires InOnePlace(cfg, s) && CanCount(s)
    ensures c == s.handler.response.client ==> StageOf(s, c) == Outstanding
    ensures StageOf(AfterSuccess(s), c) == if c == s.handler.response.client then BeingHandled else StageOf(s, c)
    ensures StageOf(AfterFailure(s), c) == if c == s.handler.response.client then Gone else StageOf(s, c)
  {
    InSnoc(s.retired, s.handler.response.client, c);
    assert Places(s, c) <= 1;
  }

  lemma {:induction false} StageRequeue(cfg: Config, s: State, c: nat)
    requires InOnePlace(cfg, s) && s.handler.Counted? && Client(s, s.handler.client)
    ensures c == s.handler.client ==> StageOf(s, c) == BeingHandled
    ensures s.pool != [] ==> StageOf(AfterQuestion(cfg, s), c) == if c == s.handler.client then Waiting else StageOf(s, c)
    ensures StageOf(AfterLastRound(s), c) == if c == s.handler.client then Gone else StageOf(s, c)
  {
    InSnoc(s.retired, s.handler.client, c);
    assert Places(s, c) <= 1;
  }

  // The handler's steps that only pass a client along.
  lemma {:induction false} StagePassed(cfg: Config, s: State, c: nat)
    ensures s.handler.Idle? && s.responses != [] ==> StageOf(AfterGet(s), c) == StageOf(s, c)
    ensures s.handler.AtBarrier? ==> StageOf(AfterBarrier(cfg, s), c) == StageOf(s, c)
    ensures s.handler.Releasing? ==> StageOf(AfterRelease(s), c) == StageOf(s, c)
  {
  }

  lemma {:induction false} StepStage(cfg: Config, s: State, l: Label, c: nat)
    requires InOnePlace(cfg, s) && Enabled(cfg, s, l)
    ensures var m := Mover(cfg, s, l);
      if m.Some? && m.value.0 == c then StageOf(s, c) == m.value.1 && StageOf(Next(cfg, s, l), c) == m.value.2
      else StageOf(Next(cfg, s, l), c) == StageOf(s, c)
  {
    match l
    case Send(i, _) => StageSend(cfg, s, i, c);
    case Respond(_, _, _) =>
    case Put => StageQueued(cfg, s, s.landing.value.index, s.landing.value.success, s.landing.value.output, c);
    case Crash(i) => StageQueued(cfg, s, i, false, [], c);
    case Count => StageCount(cfg, s, c);
    case Requeue => StageRequeue(cfg, s, c);
    case _ => StagePassed(cfg, s, c);
  }

  lemma {:induction false} StepFailures(cfg: Config, s: State, l: Label)
    requires Enabled(cfg, s, l)
    ensures s.failures <= Next(cfg, s, l).failures
  {
  }

  // A step leaves the records of all other clients alone.
  lemma {:induction false} StepOthers(cfg: Config, s: State, l: Label, c: nat)
    requires InOnePlace(cfg, s) && Enabled(cfg, s, l) && c < |cfg.totals|
    requires var m := Mover(cfg, s, l); m.None? || m.value.0 != c
    ensures var t := Next(cfg, s, l);
      && t.round[c] == s.round[c] && t.history[c] == s.history[c] && t.asked[c] == s.asked[c]
      && t.sentLog[c] == s.sentLog[c] && t.outLog[c] == s.outLog[c]
  {
  }

  lemma {:induction false} ChainedGrows(sent: seq<Tokens>, outputs: seq<Tokens>, prompt: Tokens)
    requires Chained(sent, outputs) && |sent| == |outputs|
    requires sent != [] ==> sent[|sent| - 1] + outputs[|sent| - 1] <= prompt
    ensures Chained(sent + [prompt], outputs)
  {
  }

  lemma {:induction false} RecordSend(cfg: Config, s: State, i: nat)
    requires InOnePlace(cfg, s) && |cfg.prompts| == |cfg.totals| && i < |s.ready| && Client(s, s.ready[i])
    requires RecordFits(cfg, s, s.ready[i])
    ensures RecordFits(cfg, AfterSend(s, i), s.ready[i])
  {
    var c := s.ready[i];
    StageSend(cfg, s, i, c);
    ChainedGrows(s.sentLog[c], s.outLog[c], s.history[c]);
  }

  lemma {:induction false} RecordCount(cfg: Config, s: State)
    requires InOnePlace(cfg, s) && |cfg.prompts| == |cfg.totals| && CanCount(s)
    requires RecordFits(cfg, s, s.handler.response.client)
    ensures RecordFits(cfg, AfterSuccess(s), s.handler.response.client)
    ensures RecordFits(cfg, AfterFailure(s), s.handler.response.client)
  {
    var c := s.handler.response.client;
    StageCount(cfg, s, c);
    var t := AfterSuccess(s);
    assert Chained(t.sentLog[c], t.outLog[c]);
  }

  lemma {:induction false} RecordRequeue(cfg: Config, s: State)
    requires InOnePlace(cfg, s) && |cfg.prompts| == |cfg.totals| && CanRequeue(cfg, s)
    requires RecordFits(cfg, s, s.handler.client)
    ensures s.round[s.handler.client] < cfg.totals[s.handler.client] ==> RecordFits(cfg, AfterQuestion(cfg, s), s.handler.client)
    ensures s.round[s.handler.client] == cfg.totals[s.handler.client] ==> RecordFits(cfg, AfterLastRound(s), s.handler.client)
  {
    StageRequeue(cfg, s, s.handler.client);
  }

  ghost predicate RecordsFit(cfg: Config, s: State)
    requires |s.round| == |s.history| == |s.asked| == |s.sentLog| == |s.outLog| == |cfg.totals| == |cfg.prompts|
  {
    forall c :: 0 <= c < |cfg.totals| ==> RecordFits(cfg, s, c)
  }

  lemma {:induction false} StepRecord(cfg: Config, s: State, l: Label, c: nat)
    requires InOnePlace(cfg, s) && |cfg.prompts| == |cfg.totals| && RecordsFit(cfg, s)
    requires Enabled(cfg, s, l) && c < |cfg.totals|
    ensures InOnePlace(cfg, Next(cfg, s, l)) && RecordFits(cfg, Next(cfg, s, l), c)
  {
    assert RecordFits(cfg, s, c);
    StepInOnePlace(cfg, s, l);
    StepStage(cfg, s, l, c);
    var m := Mover(cfg, s, l);
    if m.None? || m.value.0 != c {
      StepOthers(cfg, s, l, c);
      StepFailures(cfg, s, l);
    } else {
      match l
      case Send(i, _) => RecordSend(cfg, s, i);
      case Count => RecordCount(cfg, s);
      case Requeue => RecordRequeue(cfg, s);
    }
  }

  ghost predicate Inv(cfg: Config, s: State) {
    WellFormed(cfg) && InOnePlace(cfg, s) && CountersMatch(cfg, s) && RecordsFit(cfg, s)
  }

  lemma {:induction false} StepInv(cfg: Config, s: State, l: Label)
    requires Inv(cfg, s) && Enabled(cfg, s, l)
    ensures Inv(cfg, Next(cfg, s, l))
  {
    StepInOnePlace(cfg, s, l);
    StepCountersMatch(cfg, s, l);
    forall c: nat | c < |cfg.totals| ensures RecordFits(cfg, Next(cfg, s, l), c) { StepRecord(cfg, s, l, c); }
  }

  lemma {:induction false} InitInv(cfg: Config)
    requires WellFormed(cfg)
    ensures Inv(cfg, Init(cfg))
  {
    SumZeros(|cfg.totals|);
    assert Lengths(Init(cfg).sentLog) == Repeat<nat>(|cfg.totals|, 0);
    forall c: nat ensures Places(Init(cfg), c) == if c < |cfg.totals| then 1 else 0 { InUpTo(|cfg.totals|, c); }
  }

  // Every interleaving, with any failures, keeps the invariant.
  lemma {:induction false} ReachableInv(cfg: Config, run: seq<Label>)
    requires WellFormed(cfg) && Exec(cfg, run).Some?
    ensures Inv(cfg, Exec(cfg, run).value)
  {
    if run == [] {
      InitInv(cfg);
    } else {
      ReachableInv(cfg, run[..|run| - 1]);
      StepInv(cfg, Exec(cfg, run[..|run| - 1]).value, run[|run| - 1]);
    }
  }

  // --- What the invariant says ---

  // Requests sent and not yet counted are exactly those in flight, queued or at the handler,
  // and never exceed the limit.
  lemma {:induction false} ParallelismBounded(cfg: Config, run: seq<Label>)
    requires WellFormed(cfg) && Exec(cfg, run).Some? && cfg.maxParallel >= 0
    ensures var s := Exec(cfg, run).value;
      s.sent - s.completed == |s.inFlight| + |s.responses| + (if s.handler.Got? then 1 else 0) <= cfg.maxParallel
  {
    ReachableInv(cfg, run);
  }

  lemma {:induction false} SumBelowSpare(asked: seq<nat>, totals: seq<nat>, c: nat)
    requires |asked| == |totals| && c < |totals|
    requires forall i :: 0 <= i < |totals| ==> asked[i] < totals[i]
    ensures Sum(asked) + (totals[c] - 1 - asked[c]) <= Spare(totals)
  {
    var last := |totals| - 1;
    if c < last {
      SumBelowSpare(asked[..last], totals[..last], c);
    } else if last > 0 {
      SumBelowSpare(asked[..last], totals[..last], 0);
    }
  }

  // The handler never pops an empty sub-question list, with or without failures.
  lemma {:induction false} PoolLasts(cfg: Config, run: seq<Label>)
    requires WellFormed(cfg) && Exec(cfg, run).Some? && Exec(cfg, run).value.handler.Counted?
    ensures CanRequeue(cfg, Exec(cfg, run).value)
  {
    ReachableInv(cfg, run);
    CountedCanRequeue(cfg, Exec(cfg, run).value);
  }

  lemma {:induction false} CountedCanRequeue(cfg: Config, s: State)
    requires Inv(cfg, s) && s.handler.Counted?
    ensures CanRequeue(cfg, s)
  {
    var c := s.handler.client;
    assert Places(s, c) >= InHandler(s.handler, c) >= 1;
    forall i | 0 <= i < |cfg.totals| ensures s.asked[i] < cfg.totals[i] { assert RecordFits(cfg, s, i); }
    assert StageOf(s, c) == BeingHandled by { assert Places(s, c) <= 1; }
    assert RecordFits(cfg, s, c);
    SumBelowSpare(s.asked, cfg.totals, c);
  }

  // Every prompt a client sends extends its previous prompt and the output received for it.
  lemma {:induction false} PromptsExtend(cfg: Config, run: seq<Label>, c: nat, k: nat)
    requires WellFormed(cfg) && Exec(cfg, run).Some? && c < |cfg.totals|
    requires |Exec(cfg, run).value.sentLog| > c && k + 1 < |Exec(cfg, run).value.sentLog[c]|
    ensures var s := Exec(cfg, run).value;
      && s.sentLog[c][0] == cfg.prompts[c]
      && |s.outLog| > c && |s.outLog[c]| > k
      && s.sentLog[c][k] + s.outLog[c][k] <= s.sentLog[c][k + 1]
  {
    ReachableInv(cfg, run);
    assert RecordFits(cfg, Exec(cfg, run).value, c);
  }

  ghost predicate Done(cfg: Config, s: State) {
    forall c :: 0 <= c < |cfg.totals| ==> In(s.retired, c) > 0
  }

  // A failure-free run that retires every client has handled exactly the planned requests,
  // and the bar is full.
  lemma {:induction false} CompletedRun(cfg: Config, run: seq<Label>)
    requires WellFormed(cfg) && Exec(cfg, run).Some?
    requires Done(cfg, Exec(cfg, run).value) && Exec(cfg, run).value.failures == 0
    ensures Exec(cfg, run).value.round == cfg.totals
    ensures Exec(cfg, run).value.completed == Exec(cfg, run).value.sent == Exec(cfg, run).value.bar == Sum(cfg.totals)
  {
    ReachableInv(cfg, run);
    AllPlayed(cfg, Exec(cfg, run).value);
  }

  lemma {:induction false} AllPlayed(cfg: Config, s: State)
    requires Inv(cfg, s) && Done(cfg, s) && s.failures == 0
    ensures s.round == cfg.totals && s.completed == s.sent == s.bar == Sum(cfg.totals)
  {
    forall c | 0 <= c < |cfg.totals| ensures s.round[c] == cfg.totals[c] { assert RecordFits(cfg, s, c); }
    assert s.round == cfg.totals;
    NothingOutstanding(cfg, s);
  }

  lemma {:induction false} NothingOutstanding(cfg: Config, s: State)
    requires Inv(cfg, s) && Done(cfg, s)
    ensures s.inFlight == [] && s.responses == [] && !s.handler.Got?
  {
    assert s.inFlight != [] ==> In(s.inFlight, s.inFlight[0]) > 0;
    assert s.responses != [] ==> InResponses(s.responses, s.responses[0].client) > 0;
    assert s.handler.Got? ==> InHandler(s.handler, s.handler.response.client) > 0;
    forall c: nat ensures In(s.inFlight, c) == 0 && InResponses(s.responses, c) == 0 && InHandler(s.handler, c) == 0 {
      assert Places(s, c) <= 1;
      assert c < |cfg.totals| ==> In(s.retired, c) > 0;
    }
  }
}
