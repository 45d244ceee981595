// What a run sends, in terms of its labels: answers are handled in the order they arrive,
// requests go out in the order clients asked for them, and every prompt is the previous one,
// its answer and the sub-question taken next from the end of the pool.
module MultiturnPrompts {
  import opened Bags
  import opened Basics
  import opened Multiturn
  import opened MultiturnSafety
  import opened MultiturnBarrier

  // --- What a run's labels say ---

  ghost function Before(cfg: Config, run: seq<Label>): State
    requires run != [] && Exec(cfg, run).Some?
  {
    Exec(cfg, run[..|run| - 1]).value
  }

  // The answers, in the order the requests ended.
  ghost function Answers(cfg: Config, run: seq<Label>): seq<Response>
    requires Exec(cfg, run).Some?
  {
    if run == [] then []
    else Answers(cfg, run[..|run| - 1]) + AnswerAt(Before(cfg, run), run[|run| - 1])
  }

  function AnswerAt(s: State, l: Label): seq<Response> {
    match l
    case Respond(i, success, output) => if i < |s.inFlight| then [Response(s.inFlight[i], success, output)] else []
    case Crash(i) => if i < |s.inFlight| then [Response(s.inFlight[i], false, [])] else []
    case _ => []
  }

  // The responses the handler has counted, in order.
  ghost function Handled(cfg: Config, run: seq<Label>): seq<Response>
    requires Exec(cfg, run).Some?
  {
    if run == [] then []
    else Handled(cfg, run[..|run| - 1]) + HandledAt(Before(cfg, run), run[|run| - 1])
  }

  function HandledAt(s: State, l: Label): seq<Response> {
    if l.Count? && s.handler.Got? then [s.handler.response] else []
  }

  // The clients that asked for another round, in order.
  ghost function Asked(cfg: Config, run: seq<Label>): seq<nat>
    requires Exec(cfg, run).Some?
  {
    if run == [] then []
    else Asked(cfg, run[..|run| - 1]) + AskedAt(cfg, Before(cfg, run), run[|run| - 1])
  }

  function AskedAt(cfg: Config, s: State, l: Label): seq<nat> {
    if l.Requeue? && CanRequeue(cfg, s) && s.round[s.handler.client] < cfg.totals[s.handler.client]
    then [s.handler.client] else []
  }

  // The clients whose requests were sent, in order.
  ghost function SentOrder(cfg: Config, run: seq<Label>): seq<nat>
    requires Exec(cfg, run).Some?
  {
    if run == [] then []
    else SentOrder(cfg, run[..|run| - 1]) + SentAt(Before(cfg, run), run[|run| - 1])
  }

  function SentAt(s: State, l: Label): seq<nat> {
    if l.Send? && l.index < |s.ready| then [s.ready[l.index]] else []
  }

  // --- First answered, first handled ---

  function GotPart(h: Handler): seq<Response> {
    if h.Got? then [h.response] else []
  }

  function LandingPart(s: State): seq<Response> {
    if CanPut(s) then [Response(s.inFlight[s.landing.value.index], s.landing.value.success, s.landing.value.output)] else []
  }

  // Answers on their way to the handler.
  function OnTheWay(s: State): seq<Response> {
    GotPart(s.handler) + s.responses + LandingPart(s)
  }

  lemma {:induction false} RespondOnTheWay(s: State, i: nat, success: bool, output: Tokens)
    requires s.landing.None? && i < |s.inFlight|
    ensures OnTheWay(AfterRespond(s, i, success, output)) == OnTheWay(s) + [Response(s.inFlight[i], success, output)]
  {
  }

  lemma {:induction false} PutOnTheWay(s: State)
    requires CanPut(s)
    ensures OnTheWay(AfterPut(s)) == OnTheWay(s)
  {
  }

  lemma {:induction false} CrashOnTheWay(s: State, i: nat)
    requires s.landing.None? && i < |s.inFlight|
    ensures OnTheWay(AfterCrash(s, i)) == OnTheWay(s) + [Response(s.inFlight[i], false, [])]
  {
  }

  lemma {:induction false} GetOnTheWay(s: State)
    requires s.handler.Idle? && s.responses != []
    ensures OnTheWay(AfterGet(s)) == OnTheWay(s)
  {
    assert s.responses == [s.responses[0]] + s.responses[1..];
  }

  lemma {:induction false} CountOnTheWay(s: State)
    requires CanCount(s)
    ensures OnTheWay(s) == [s.handler.response] + OnTheWay(AfterSuccess(s))
    ensures OnTheWay(s) == [s.handler.response] + OnTheWay(AfterFailure(s))
  {
  }

  // Steps that touch no answer.
  lemma {:induction false} ElseOnTheWay(cfg: Config, s: State, l: Label)
    requires Inv(cfg, s) && Enabled(cfg, s, l) && (l.Send? || l.Requeue? || l.Barrier? || l.Release?)
    ensures OnTheWay(Next(cfg, s, l)) == OnTheWay(s) && AnswerAt(s, l) == [] && HandledAt(s, l) == []
  {
  }

  lemma {:induction false} StepOnTheWay(cfg: Config, s: State, l: Label)
    requires Inv(cfg, s) && Enabled(cfg, s, l)
    ensures OnTheWay(s) + AnswerAt(s, l) == HandledAt(s, l) + OnTheWay(Next(cfg, s, l))
  {
    var t := Next(cfg, s, l);
    assert [] + OnTheWay(t) == OnTheWay(t) && OnTheWay(s) + [] == OnTheWay(s);
    match l
    case Respond(i, success, output) => RespondOnTheWay(s, i, success, output);
    case Put => PutOnTheWay(s);
    case Crash(i) => CrashOnTheWay(s, i);
    case Get => GetOnTheWay(s);
    case Count => CountOnTheWay(s);
    case _ => ElseOnTheWay(cfg, s, l);
  }

  lemma {:induction false} HandledInOrder(cfg: Config, run: seq<Label>)
    requires WellFormed(cfg) && Exec(cfg, run).Some?
    ensures Answers(cfg, run) == Handled(cfg, run) + OnTheWay(Exec(cfg, run).value)
  {
    if run != [] {
      var init, l := run[..|run| - 1], run[|run| - 1];
      HandledInOrder(cfg, init);
      ReachableInv(cfg, init);
      StepOnTheWay(cfg, Exec(cfg, init).value, l);
      Regroup(Handled(cfg, init), OnTheWay(Exec(cfg, init).value), AnswerAt(Exec(cfg, init).value, l),
              HandledAt(Exec(cfg, init).value, l), OnTheWay(Exec(cfg, run).value));
    }
  }

  lemma {:induction false} Regroup<T>(done: seq<T>, way: seq<T>, more: seq<T>, head: seq<T>, rest: seq<T>)
    requires way + more == head + rest
    ensures (done + way) + more == (done + head) + rest
  {
    assert (done + way) + more == done + (way + more);
    assert (done + head) + rest == done + (head + rest);
  }

  // --- First asked, first sent ---

  function RestPart(h: Handler): seq<nat> {
    if h.Releasing? then h.rest else []
  }

  // Requests waiting to be sent, the next one first under the fifo policy.
  function InLine(s: State): seq<nat> {
    s.ready + RestPart(s.handler) + s.held
  }

  lemma {:induction false} SendInLine(cfg: Config, s: State, seen: int)
    requires CanSend(cfg, s, 0, seen)
    ensures InLine(s) == [s.ready[0]] + InLine(AfterSend(s, 0))
  {
    FirstOut(s.ready, RestPart(s.handler), s.held);
  }

  lemma {:induction false} FirstOut(ready: seq<nat>, rest: seq<nat>, held: seq<nat>)
    requires ready != []
    ensures ready + rest + held == [ready[0]] + (Drop(ready, 0) + rest + held)
  {
    var tail := Drop(ready, 0);
    assert ready == [ready[0]] + tail;
    assert [ready[0]] + (tail + rest + held) == ([ready[0]] + tail) + rest + held;
  }

  lemma {:induction false} AskInLine(cfg: Config, s: State)
    requires BarrierInv(cfg, s) && CanRequeue(cfg, s) && s.pool != []
    ensures InLine(AfterQuestion(cfg, s)) == InLine(s) + [s.handler.client]
  {
  }

  lemma {:induction false} BarrierInLine(cfg: Config, s: State)
    ensures s.handler.AtBarrier? ==> InLine(AfterBarrier(cfg, s)) == InLine(s)
    ensures s.handler.Releasing? ==> InLine(AfterRelease(s)) == InLine(s)
  {
    if s.handler.Releasing? && s.handler.rest != [] {
      assert s.handler.rest == [s.handler.rest[0]] + s.handler.rest[1..];
    }
  }

  lemma {:induction false} StepInLine(cfg: Config, s: State, l: Label)
    requires Inv(cfg, s) && BarrierInv(cfg, s) && Enabled(cfg, s, l) && cfg.fifo
    ensures InLine(s) + AskedAt(cfg, s, l) == SentAt(s, l) + InLine(Next(cfg, s, l))
  {
    var t := Next(cfg, s, l);
    assert [] + InLine(t) == InLine(t) && InLine(s) + [] == InLine(s);
    match l
    case Send(_, seen) => SendInLine(cfg, s, seen);
    case Requeue => if s.pool != [] { AskInLine(cfg, s); }
    case Barrier => BarrierInLine(cfg, s);
    case Release => BarrierInLine(cfg, s);
    case _ => assert InLine(t) == InLine(s);
  }

  // Under the fifo policy requests go out in the order they became due: every client's first,
  // then the others as they were asked for, with the barrier or without.
  lemma {:induction false} SentInOrder(cfg: Config, run: seq<Label>)
    requires WellFormed(cfg) && Exec(cfg, run).Some? && cfg.fifo
    ensures UpTo(|cfg.totals|) + Asked(cfg, run) == SentOrder(cfg, run) + InLine(Exec(cfg, run).value)
  {
    var first := UpTo(|cfg.totals|);
    if run == [] {
      assert first + [] == first && [] + InLine(Init(cfg)) == first;
    } else {
      var init, l := run[..|run| - 1], run[|run| - 1];
      var s := Exec(cfg, init).value;
      SentInOrder(cfg, init);
      ReachableBarrierInv(cfg, init);
      StepInLine(cfg, s, l);
      assert first + Asked(cfg, run) == (first + Asked(cfg, init)) + AskedAt(cfg, s, l);
      Regroup(SentOrder(cfg, init), InLine(s), AskedAt(cfg, s, l), SentAt(s, l), InLine(Exec(cfg, run).value));
    }
  }

  // --- Outputs ---

  // The outputs of a client's successful answers in a log.
  function OutputsOf(log: seq<Response>, c: nat): seq<Tokens> {
    if log == [] then []
    else OutputsOf(log[..|log| - 1], c)
         + if log[|log| - 1].client == c && log[|log| - 1].success then [log[|log| - 1].output] else []
  }

  lemma {:induction false} OutputsSnoc(log: seq<Response>, r: Response, c: nat)
    ensures OutputsOf(log + [r], c) == OutputsOf(log, c) + if r.client == c && r.success then [r.output] else []
  {
    assert (log + [r])[..|log|] == log;
  }

  lemma {:induction false} StepOutputs(cfg: Config, s: State, l: Label, log: seq<Response>, c: nat)
    requires Inv(cfg, s) && Enabled(cfg, s, l) && c < |cfg.totals| && s.outLog[c] == OutputsOf(log, c)
    ensures |Next(cfg, s, l).outLog| == |cfg.totals| && Next(cfg, s, l).outLog[c] == OutputsOf(log + HandledAt(s, l), c)
  {
    if l.Count? {
      OutputsSnoc(log, s.handler.response, c);
    } else {
      assert log + HandledAt(s, l) == log;
    }
  }

  // The outputs on record are those of the client's successful answers, in the order they came.
  lemma {:induction false} OutputsRecorded(cfg: Config, run: seq<Label>, c: nat)
    requires WellFormed(cfg) && Exec(cfg, run).Some? && c < |cfg.totals|
    ensures |Exec(cfg, run).value.outLog| == |cfg.totals|
    ensures Exec(cfg, run).value.outLog[c] == OutputsOf(Handled(cfg, run), c)
    ensures Handled(cfg, run) <= Answers(cfg, run)
  {
    HandledInOrder(cfg, run);
    if run != [] {
      var init, l := run[..|run| - 1], run[|run| - 1];
      OutputsRecorded(cfg, init, c);
      ReachableInv(cfg, init);
      StepOutputs(cfg, Exec(cfg, init).value, l, Handled(cfg, init), c);
    }
  }

  // --- Sub-questions ---

  // The sub-questions a client gets, when those who ask take them from the end of the pool.
  function QuestionsOf(pool: seq<Tokens>, asks: seq<nat>, c: nat): seq<Tokens>
    requires |asks| <= |pool|
  {
    if asks == [] then []
    else QuestionsOf(pool, asks[..|asks| - 1], c) + if asks[|asks| - 1] == c then [pool[|pool| - |asks|]] else []
  }

  lemma {:induction false} QuestionsSnoc(pool: seq<Tokens>, asks: seq<nat>, d: nat, c: nat)
    requires |asks| < |pool|
    ensures QuestionsOf(pool, asks + [d], c) == QuestionsOf(pool, asks, c) + if d == c then [pool[|pool| - 1 - |asks|]] else []
  {
    assert (asks + [d])[..|asks|] == asks;
  }

  ghost predicate PoolLeft(cfg: Config, s: State, asks: seq<nat>) {
    |asks| <= |cfg.pool| && s.pool == cfg.pool[..|cfg.pool| - |asks|]
  }

  lemma {:induction false} StepPoolLeft(cfg: Config, s: State, l: Label, asks: seq<nat>)
    requires Enabled(cfg, s, l) && PoolLeft(cfg, s, asks)
    ensures PoolLeft(cfg, Next(cfg, s, l), asks + AskedAt(cfg, s, l))
  {
    if AskedAt(cfg, s, l) == [] { assert asks + AskedAt(cfg, s, l) == asks; }
  }

  // --- Prompts ---

  // Each prompt is the previous one, its output and a question; so is the one being prepared.
  ghost predicate Exact(stage: Stage, round: nat, history: Tokens, sent: seq<Tokens>, outputs: seq<Tokens>,
                        questions: seq<Tokens>) {
    && |sent| <= |outputs| + 1 && |sent| <= |questions| + 1
    && (forall k :: 0 <= k < |sent| - 1 ==> sent[k + 1] == sent[k] + outputs[k] + questions[k])
    && (stage == Waiting && round > 0 ==>
          && round <= |sent| && round <= |outputs| && round <= |questions|
          && history == sent[round - 1] + outputs[round - 1] + questions[round - 1])
  }

  ghost predicate ExactFor(cfg: Config, s: State, asks: seq<nat>, c: nat)
    requires |s.round| == |s.history| == |s.asked| == |s.sentLog| == |s.outLog| == |cfg.totals|
    requires c < |cfg.totals| && |asks| <= |cfg.pool|
  {
    && |QuestionsOf(cfg.pool, asks, c)| == s.asked[c]
    && Exact(StageOf(s, c), s.round[c], s.history[c], s.sentLog[c], s.outLog[c], QuestionsOf(cfg.pool, asks, c))
  }

  lemma {:induction false} ExactSend(cfg: Config, s: State, asks: seq<nat>, i: nat)
    requires Inv(cfg, s) && i < |s.ready| && Client(s, s.ready[i]) && |asks| <= |cfg.pool|
    requires ExactFor(cfg, s, asks, s.ready[i])
    ensures ExactFor(cfg, AfterSend(s, i), asks, s.ready[i])
  {
    var c := s.ready[i];
    StageSend(cfg, s, i, c);
    assert RecordFits(cfg, s, c);
    var t := AfterSend(s, i);
    assert t.sentLog[c] == s.sentLog[c] + [s.history[c]];
  }

  lemma {:induction false} ExactCount(cfg: Config, s: State, asks: seq<nat>)
    requires Inv(cfg, s) && CanCount(s) && |asks| <= |cfg.pool| && ExactFor(cfg, s, asks, s.handler.response.client)
    ensures ExactFor(cfg, AfterSuccess(s), asks, s.handler.response.client)
    ensures ExactFor(cfg, AfterFailure(s), asks, s.handler.response.client)
  {
    var c := s.handler.response.client;
    StageCount(cfg, s, c);
    assert RecordFits(cfg, s, c);
    assert AfterSuccess(s).outLog[c] == s.outLog[c] + [s.handler.response.output];
  }

  lemma {:induction false} ExactQuestion(cfg: Config, s: State, asks: seq<nat>)
    requires Inv(cfg, s) && CanRequeue(cfg, s) && s.pool != [] && PoolLeft(cfg, s, asks)
    requires ExactFor(cfg, s, asks, s.handler.client)
    ensures |asks + [s.handler.client]| <= |cfg.pool|
    ensures ExactFor(cfg, AfterQuestion(cfg, s), asks + [s.handler.client], s.handler.client)
  {
    var c := s.handler.client;
    StageRequeue(cfg, s, c);
    assert RecordFits(cfg, s, c);
    QuestionsSnoc(cfg.pool, asks, c, c);
    assert s.pool[|s.pool| - 1] == cfg.pool[|cfg.pool| - 1 - |asks|];
  }

  lemma {:induction false} ExactLastRound(cfg: Config, s: State, asks: seq<nat>)
    requires Inv(cfg, s) && CanRequeue(cfg, s) && |asks| <= |cfg.pool| && ExactFor(cfg, s, asks, s.handler.client)
    ensures ExactFor(cfg, AfterLastRound(s), asks, s.handler.client)
  {
    StageRequeue(cfg, s, s.handler.client);
  }

  lemma {:induction false} ExactMover(cfg: Config, s: State, l: Label, asks: seq<nat>, c: nat)
    requires Inv(cfg, s) && Enabled(cfg, s, l) && PoolLeft(cfg, s, asks) && c < |cfg.totals| && ExactFor(cfg, s, asks, c)
    requires Mover(cfg, s, l).Some? && Mover(cfg, s, l).value.0 == c
    ensures InOnePlace(cfg, Next(cfg, s, l)) && |asks + AskedAt(cfg, s, l)| <= |cfg.pool|
    ensures ExactFor(cfg, Next(cfg, s, l), asks + AskedAt(cfg, s, l), c)
  {
    StepInOnePlace(cfg, s, l);
    if AskedAt(cfg, s, l) == [] { assert asks + AskedAt(cfg, s, l) == asks; }
    match l
    case Send(i, _) => ExactSend(cfg, s, asks, i);
    case Count => ExactCount(cfg, s, asks);
    case Requeue =>
      if s.round[c] < cfg.totals[c] { ExactQuestion(cfg, s, asks); } else { ExactLastRound(cfg, s, asks); }
  }

  lemma {:induction false} ExactOther(cfg: Config, s: State, l: Label, asks: seq<nat>, c: nat)
    requires Inv(cfg, s) && Enabled(cfg, s, l) && PoolLeft(cfg, s, asks) && c < |cfg.totals| && ExactFor(cfg, s, asks, c)
    requires Mover(cfg, s, l).None? || Mover(cfg, s, l).value.0 != c
    ensures InOnePlace(cfg, Next(cfg, s, l)) && |asks + AskedAt(cfg, s, l)| <= |cfg.pool|
    ensures ExactFor(cfg, Next(cfg, s, l), asks + AskedAt(cfg, s, l), c)
  {
    StepInOnePlace(cfg, s, l);
    StepStage(cfg, s, l, c);
    StepOthers(cfg, s, l, c);
    StepPoolLeft(cfg, s, l, asks);
    if AskedAt(cfg, s, l) == [] {
      assert asks + AskedAt(cfg, s, l) == asks;
    } else {
      QuestionsSnoc(cfg.pool, asks, s.handler.client, c);
    }
  }

  lemma {:induction false} ReachableExact(cfg: Config, run: seq<Label>, c: nat)
    requires WellFormed(cfg) && Exec(cfg, run).Some? && c < |cfg.totals|
    ensures Inv(cfg, Exec(cfg, run).value) && PoolLeft(cfg, Exec(cfg, run).value, Asked(cfg, run))
    ensures ExactFor(cfg, Exec(cfg, run).value, Asked(cfg, run), c)
  {
    ReachableInv(cfg, run);
    if run != [] {
      var init, l := run[..|run| - 1], run[|run| - 1];
      var s := Exec(cfg, init).value;
      ReachableExact(cfg, init, c);
      StepPoolLeft(cfg, s, l, Asked(cfg, init));
      var m := Mover(cfg, s, l);
      if m.Some? && m.value.0 == c {
        ExactMover(cfg, s, l, Asked(cfg, init), c);
      } else {
        ExactOther(cfg, s, l, Asked(cfg, init), c);
      }
    }
  }

  // Every prompt of every run: the first is the client's own, and each further one is the
  // previous prompt, the output that answered it, and the question the client took, the j-th
  // to ask taking the j-th from the end of the pool.
  lemma {:induction false} PromptsExact(cfg: Config, run: seq<Label>, c: nat)
    requires WellFormed(cfg) && Exec(cfg, run).Some? && c < |cfg.totals|
    ensures var s, asks := Exec(cfg, run).value, Asked(cfg, run);
      && |asks| <= |cfg.pool| && |s.sentLog| == |s.outLog| == |cfg.totals|
      && var sent, outputs, questions := s.sentLog[c], s.outLog[c], QuestionsOf(cfg.pool, asks, c);
      && outputs == OutputsOf(Handled(cfg, run), c)
      && |sent| <= |outputs| + 1 && |sent| <= |questions| + 1 && (sent != [] ==> sent[0] == cfg.prompts[c])
      && forall k :: 0 <= k < |sent| - 1 ==> sent[k + 1] == sent[k] + outputs[k] + questions[k]
  {
    ReachableExact(cfg, run, c);
    OutputsRecorded(cfg, run, c);
    assert RecordFits(cfg, Exec(cfg, run).value, c);
  }
}
