// The multi-turn workload as a state machine: a sender, in-flight request tasks, a response
// queue and a handler with an optional round barrier, interleaved in any order.
module Multiturn {
  import opened Bags
  import opened Basics

  type Tokens = seq<int>

  datatype Config = Config(
    totals: seq<nat>,          // rounds each client is to run
    prompts: seq<Tokens>,      // first-round prompts
    pool: seq<Tokens>,         // sub-questions, taken from the end
    numRounds: int,            // rounds the barrier counts
    maxParallel: int,
    barrier: bool,
    fifo: bool)                // ready-queue policy: fifo, or any position

  datatype Response = Response(client: nat, success: bool, output: Tokens)

  // An answered request whose response is not yet queued, by its place in flight.
  datatype Landing = Landing(index: nat, success: bool, output: Tokens)

  // Where the handler thread stands between two of its atomic actions.
  datatype Handler =
    | Idle
    | Got(response: Response)
    | Counted(client: nat)
    | AtBarrier
    | Releasing(rest: seq<nat>)

  // `bar` is the progress bar, which both threads compare with the planned total to stop. A
  // task moves it before it queues its response, and `landing` holds what is between the two;
  // one event loop runs all tasks and the sender, so only the handler acts in between.
  // `asked`, `sentLog`, `outLog`, `failures` and `crashes` record the past; no step reads them.
  datatype State = State(
    ready: seq<nat>, inFlight: seq<nat>, landing: Option<Landing>, responses: seq<Response>, handler: Handler,
    held: seq<nat>, retired: seq<nat>,
    round: seq<nat>, history: seq<Tokens>, pool: seq<Tokens>,
    sent: int, completed: int, bar: nat,
    barrierRound: int, barrierDone: int,
    asked: seq<nat>, sentLog: seq<seq<Tokens>>, outLog: seq<seq<Tokens>>, failures: nat, crashes: nat)

  // `seen` is the sender's possibly stale reading of the completed counter. A crash is an
  // exception out of the request function: the failure is queued, the bar stands still.
  datatype Label =
    | Send(index: nat, seen: int)
    | Respond(index: nat, success: bool, output: Tokens)
    | Put
    | Crash(index: nat)
    | Get
    | Count
    | Requeue
    | Barrier
    | Release

  // Labels of the response handler's thread; the others belong to the event loop that runs
  // the sender and the request tasks.
  predicate ByHandler(l: Label) {
    l.Get? || l.Count? || l.Requeue? || l.Barrier? || l.Release?
  }

  ghost predicate WellFormed(cfg: Config) {
    && |cfg.prompts| == |cfg.totals|
    && (forall c :: 0 <= c < |cfg.totals| ==> cfg.totals[c] >= 1)
    && |cfg.pool| >= Spare(cfg.totals)
  }

  // Sub-questions needed: one per round after the first.
  function Spare(totals: seq<nat>): nat {
    if totals == [] then 0
    else Spare(totals[..|totals| - 1]) + if totals[|totals| - 1] > 0 then totals[|totals| - 1] - 1 else 0
  }

  function Init(cfg: Config): State {
    var n := |cfg.totals|;
    State(UpTo(n), [], None, [], Idle, [], [], Repeat<nat>(n, 0), cfg.prompts, cfg.pool, 0, 0, 0, 0, 0,
          Repeat<nat>(n, 0), Repeat(n, []), Repeat(n, []), 0, 0)
  }

  predicate Client(s: State, c: nat) {
    c < |s.round| == |s.history| == |s.asked| == |s.sentLog| == |s.outLog|
  }

  predicate CanSend(cfg: Config, s: State, i: nat, seen: int) {
    && s.landing.None? && i < |s.ready| && (cfg.fifo ==> i == 0) && Client(s, s.ready[i])
    && seen <= s.completed && s.sent - seen < cfg.maxParallel
  }

  predicate CanPut(s: State) {
    s.landing.Some? && s.landing.value.index < |s.inFlight|
  }

  predicate CanCount(s: State) {
    s.handler.Got? && Client(s, s.handler.response.client)
  }

  // Taking a sub-question needs one in the pool.
  predicate CanRequeue(cfg: Config, s: State) {
    && s.handler.Counted? && Client(s, s.handler.client) && s.handler.client < |cfg.totals|
    && (s.round[s.handler.client] < cfg.totals[s.handler.client] ==> s.pool != [])
  }

  predicate Enabled(cfg: Config, s: State, l: Label) {
    match l
    case Send(i, seen) => CanSend(cfg, s, i, seen)
    case Respond(i, _, _) => s.landing.None? && i < |s.inFlight|
    case Put => CanPut(s)
    case Crash(i) => s.landing.None? && i < |s.inFlight|
    case Get => s.handler.Idle? && s.responses != []
    case Count => CanCount(s)
    case Requeue => CanRequeue(cfg, s)
    case Barrier => s.handler.AtBarrier?
    case Release => s.handler.Releasing?
  }

  function AfterSend(s: State, i: nat): State
    requires i < |s.ready| && Client(s, s.ready[i])
  {
    var c := s.ready[i];
    s.(ready := Drop(s.ready, i), inFlight := s.inFlight + [c], sent := s.sent + 1,
       sentLog := s.sentLog[c := s.sentLog[c] + [s.history[c]]])
  }

  function AfterRespond(s: State, i: nat, success: bool, output: Tokens): State {
    s.(landing := Some(Landing(i, success, output)), bar := s.bar + 1)
  }

  function Queued(s: State, i: nat, success: bool, output: Tokens): State
    requires i < |s.inFlight|
  {
    s.(inFlight := Drop(s.inFlight, i), responses := s.responses + [Response(s.inFlight[i], success, output)])
  }

  function AfterPut(s: State): State
    requires CanPut(s)
  {
    Queued(s, s.landing.value.index, s.landing.value.success, s.landing.value.output).(landing := None)
  }

  function AfterCrash(s: State, i: nat): State
    requires i < |s.inFlight|
  {
    Queued(s, i, false, []).(crashes := s.crashes + 1)
  }

  function AfterGet(s: State): State
    requires s.responses != []
  {
    s.(responses := s.responses[1..], handler := Got(s.responses[0]))
  }

  function AfterFailure(s: State): State
    requires s.handler.Got?
  {
    s.(completed := s.completed + 1, retired := s.retired + [s.handler.response.client], handler := Idle,
       failures := s.failures + 1)
  }

  function AfterSuccess(s: State): State
    requires CanCount(s)
  {
    var c, output := s.handler.response.client, s.handler.response.output;
    s.(history := s.history[c := s.history[c] + output], round := s.round[c := s.round[c] + 1],
       completed := s.completed + 1, handler := Counted(c), outLog := s.outLog[c := s.outLog[c] + [output]])
  }

  // The next request goes to the held list under the barrier, else straight to the ready queue.
  function AfterQuestion(cfg: Config, s: State): State
    requires s.handler.Counted? && Client(s, s.handler.client) && s.pool != []
  {
    var c, question := s.handler.client, s.pool[|s.pool| - 1];
    s.(history := s.history[c := s.history[c] + question], pool := s.pool[..|s.pool| - 1],
       asked := s.asked[c := s.asked[c] + 1], handler := AtBarrier,
       held := if cfg.barrier then s.held + [c] else s.held,
       ready := if cfg.barrier then s.ready else s.ready + [c])
  }

  function AfterLastRound(s: State): State
    requires s.handler.Counted?
  {
    s.(retired := s.retired + [s.handler.client], handler := AtBarrier)
  }

  function AfterBarrier(cfg: Config, s: State): State {
    if !cfg.barrier || s.barrierRound >= cfg.numRounds then s.(handler := Idle)
    else if s.barrierDone + 1 == |cfg.totals| then
      s.(barrierDone := s.barrierDone + 1, handler := Releasing(s.held), held := [])
    else s.(barrierDone := s.barrierDone + 1, handler := Idle)
  }

  function AfterRelease(s: State): State
    requires s.handler.Releasing?
  {
    if s.handler.rest == [] then s.(barrierRound := s.barrierRound + 1, barrierDone := 0, handler := Idle)
    else s.(ready := s.ready + [s.handler.rest[0]], handler := Releasing(s.handler.rest[1..]))
  }

  function Next(cfg: Config, s: State, l: Label): State
    requires Enabled(cfg, s, l)
  {
    match l
    case Send(i, _) => AfterSend(s, i)
    case Respond(i, success, output) => AfterRespond(s, i, success, output)
    case Put => AfterPut(s)
    case Crash(i) => AfterCrash(s, i)
    case Get => AfterGet(s)
    case Count => if s.handler.response.success then AfterSuccess(s) else AfterFailure(s)
    case Requeue =>
      if s.round[s.handler.client] < cfg.totals[s.handler.client] then AfterQuestion(cfg, s) else AfterLastRound(s)
    case Barrier => AfterBarrier(cfg, s)
    case Release => AfterRelease(s)
  }

  // The state after a run, if every label was enabled in turn.
  function Exec(cfg: Config, run: seq<Label>): Option<State> {
    if run == [] then Some(Init(cfg))
    else
      var before := Exec(cfg, run[..|run| - 1]);
      if before.Some? && Enabled(cfg, before.value, run[|run| - 1])
      then Some(Next(cfg, before.value, run[|run| - 1])) else None
  }
}
