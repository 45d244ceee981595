// The workload generator object: its queues, counters and client records changed in place,
// one method per atomic action of its threads, and the set-up arithmetic. The object keeps
// the run of the state machine it has made, so what holds of all runs holds of it.
module MultiturnWorkload {
  import opened Bags
  import opened Basics
  import opened Multiturn
  import opened MultiturnSafety
  import opened MultiturnBarrier
  import opened MultiturnPrompts
  import opened MultiturnStop

  // --- Set-up ---

  // Zero means "not given"; the ValueErrors of the constructor become Err.
  function ResolveRounds(minRounds: int, maxRounds: int, numRounds: int): (r: Result<(int, int)>)
    ensures r.Ok? ==> 1 <= r.value.0 <= r.value.1
    ensures minRounds == 0 && maxRounds == 0 && numRounds >= 1 ==> r == Ok((numRounds, numRounds))
    ensures r.Err? <==> if minRounds == 0 && maxRounds == 0 then numRounds < 1
                        else if minRounds == 0 || maxRounds == 0 then minRounds + maxRounds < 1
                        else minRounds < 1 || minRounds > maxRounds
  {
    var lo := if minRounds == 0 && maxRounds == 0 then numRounds else if minRounds == 0 then maxRounds else minRounds;
    var hi := if minRounds == 0 && maxRounds == 0 then numRounds else if maxRounds == 0 then minRounds else maxRounds;
    if lo < 1 || lo > hi then Err("ValueError") else Ok((lo, hi))
  }

  // Clients that take part in round r.
  function Participants(totals: seq<nat>, r: nat): nat {
    if totals == [] then 0
    else Participants(totals[..|totals| - 1], r) + if totals[|totals| - 1] > r then 1 else 0
  }

  function ParticipantsBefore(totals: seq<nat>, rounds: nat): nat {
    if rounds == 0 then 0 else ParticipantsBefore(totals, rounds - 1) + Participants(totals, rounds - 1)
  }

  function Capped(t: nat, rounds: nat): nat {
    if t < rounds then t else rounds
  }

  lemma {:induction false} OneMoreClient(totals: seq<nat>, t: nat, rounds: nat)
    ensures ParticipantsBefore(totals + [t], rounds) == ParticipantsBefore(totals, rounds) + Capped(t, rounds)
  {
    if rounds > 0 {
      OneMoreClient(totals, t, rounds - 1);
      assert (totals + [t])[..|totals|] == totals;
    }
  }

  // Counting requests round by round or client by client gives the same total.
  lemma {:induction false} ClientsPerRoundSum(totals: seq<nat>, rounds: nat)
    requires forall c :: 0 <= c < |totals| ==> totals[c] <= rounds
    ensures ParticipantsBefore(totals, rounds) == Sum(totals)
  {
    if totals == [] {
      NoClients(rounds);
    } else {
      var init, t := totals[..|totals| - 1], totals[|totals| - 1];
      ClientsPerRoundSum(init, rounds);
      OneMoreClient(init, t, rounds);
      assert init + [t] == totals;
    }
  }

  lemma {:induction false} NoClients(rounds: nat)
    ensures ParticipantsBefore([], rounds) == 0
  {
    if rounds > 0 { NoClients(rounds - 1); }
  }

  // With the default flags every client runs the rounds the barrier counts, and every run
  // without failures that can go no further has filled the bar, with the barrier or without.
  lemma {:induction false} DefaultRoundsStop(cfg: Config, run: seq<Label>)
    requires WellFormed(cfg) && cfg.maxParallel >= 1 && ResolveRounds(0, 0, cfg.numRounds).Ok?
    requires forall c :: 0 <= c < |cfg.totals| ==> cfg.totals[c] == ResolveRounds(0, 0, cfg.numRounds).value.0
    requires Exec(cfg, run).Some? && FailureFree(run) && Quiescent(cfg, Exec(cfg, run).value)
    ensures BarFull(cfg, Exec(cfg, run).value)
  {
    if cfg.barrier {
      assert Servable(cfg);
      StopsIffServable(cfg, run);
    } else {
      FailureFreeRun(cfg, run);
      CompletesWithoutBarrier(cfg, run);
      CompletedRun(cfg, run);
    }
  }

  // --- The ready queue ---

  datatype Policy = RandomOrder | Fifo | Unknown

  class ReadyQueue {
    var requests: seq<nat>
    const policy: Policy

    constructor (requests: seq<nat>, policy: Policy)
      ensures this.requests == requests && this.policy == policy
    {
      this.requests, this.policy := requests, policy;
    }

    method Append(item: nat)
      modifies this
      ensures requests == old(requests) + [item]
    {
      requests := requests + [item];
    }

    // `draw` stands for the random index.
    method Pop(draw: nat) returns (r: Result<Option<nat>>, ghost index: nat)
      modifies this
      ensures old(requests) == [] ==> r == Ok(None) && requests == []
      ensures old(requests) != [] && policy == Unknown ==> r.Err? && requests == old(requests)
      ensures old(requests) != [] && policy != Unknown ==>
        && index < |old(requests)| && (policy == Fifo ==> index == 0)
        && r == Ok(Some(old(requests)[index])) && requests == Drop(old(requests), index)
    {
      index := 0;
      if requests == [] { return Ok(None), 0; }
      match policy {
        case RandomOrder =>
          var i := draw % |requests|;
          r, index := Ok(Some(requests[i])), i;
          requests := requests[..i] + requests[i + 1..];
        case Fifo =>
          r := Ok(Some(requests[0]));
          requests := requests[1..];
        case Unknown => r := Err("ValueError");
      }
    }
  }

  // --- The generator ---

  lemma {:induction false} HandlerReady(cfg: Config, run: seq<Label>)
    requires WellFormed(cfg) && Exec(cfg, run).Some?
    ensures var s := Exec(cfg, run).value; (s.handler.Got? ==> CanCount(s)) && (s.handler.Counted? ==> CanRequeue(cfg, s))
  {
    ReachableInv(cfg, run);
    var s := Exec(cfg, run).value;
    if s.handler.Got? { assert Places(s, s.handler.response.client) > 0; }
    if s.handler.Counted? { CountedCanRequeue(cfg, s); }
  }

  lemma {:induction false} ReadyClients(cfg: Config, run: seq<Label>, i: nat)
    requires WellFormed(cfg) && Exec(cfg, run).Some? && i < |Exec(cfg, run).value.ready|
    ensures Client(Exec(cfg, run).value, Exec(cfg, run).value.ready[i])
  {
    ReachableInv(cfg, run);
    var s := Exec(cfg, run).value;
    assert In(s.ready, s.ready[i]) > 0 && Places(s, s.ready[i]) > 0;
  }

  class WorkloadGenerator {
    const cfg: Config
    const readyQueue: ReadyQueue
    var inFlight: seq<nat>
    var landing: Option<Landing>
    var responses: seq<Response>
    var handler: Handler
    var nextRoundReqs: seq<nat>
    var round: seq<nat>
    var history: seq<Tokens>
    var subQuestions: seq<Tokens>
    var sentRequests: int
    var completedRequests: int
    var progress: nat
    var currentBarrierRound: int
    var barrierRoundCompleted: int
    ghost var retired: seq<nat>
    ghost var asked: seq<nat>
    ghost var sentLog: seq<seq<Tokens>>
    ghost var outLog: seq<seq<Tokens>>
    ghost var failures: nat
    ghost var crashes: nat
    ghost var run: seq<Label>   // the steps taken so far

    ghost function View(): State
      reads this, readyQueue
    {
      State(readyQueue.requests, inFlight, landing, responses, handler, nextRoundReqs, retired, round, history, subQuestions,
            sentRequests, completedRequests, progress, currentBarrierRound, barrierRoundCompleted,
            asked, sentLog, outLog, failures, crashes)
    }

    // The object is where its run leads.
    ghost predicate Valid()
      reads this, readyQueue
    {
      && WellFormed(cfg) && Exec(cfg, run) == Some(View())
      && readyQueue.policy == if cfg.fifo then Fifo else RandomOrder
    }

    // --- What every valid object satisfies ---

    lemma {:induction false} ParallelismKept()
      requires Valid() && cfg.maxParallel >= 0
      ensures sentRequests - completedRequests == |inFlight| + |responses| + (if handler.Got? then 1 else 0) <= cfg.maxParallel
    {
      ParallelismBounded(cfg, run);
    }

    lemma {:induction false} RoundsKept(c: nat, d: nat)
      requires Valid() && cfg.barrier && c < |cfg.totals| && d < |cfg.totals|
      ensures |round| == |cfg.totals| && round[c] <= round[d] + 1 && (Active(View(), c) > 0 ==> round[c] <= round[d])
    {
      BarrierHolds(cfg, run, c, d);
    }

    lemma {:induction false} PromptsKept(c: nat)
      requires Valid() && c < |cfg.totals|
      ensures |sentLog| == |outLog| == |cfg.totals| && |Asked(cfg, run)| <= |cfg.pool|
      ensures outLog[c] == OutputsOf(Handled(cfg, run), c)
      ensures var questions := QuestionsOf(cfg.pool, Asked(cfg, run), c);
        && |sentLog[c]| <= |outLog[c]| + 1 && |sentLog[c]| <= |questions| + 1
        && forall k :: 0 <= k < |sentLog[c]| - 1 ==> sentLog[c][k + 1] == sentLog[c][k] + outLog[c][k] + questions[k]
    {
      PromptsExact(cfg, run, c);
    }

    lemma {:induction false} StepsBounded()
      requires Valid()
      ensures |run| <= 11 * Sum(cfg.totals) + 7 * |cfg.totals|
    {
      RunIsBounded(cfg, run);
    }

    lemma {:induction false} StopsExactly()
      requires Valid() && cfg.maxParallel >= 1 && Quiescent(cfg, View())
      ensures |round| == |cfg.totals|
      ensures BarFull(cfg, View()) <==> crashes == 0 && forall c :: 0 <= c < |cfg.totals| ==> PlayedOut(cfg, View(), c)
    {
      StopsIff(cfg, run);
    }

    constructor (cfg: Config)
      requires WellFormed(cfg)
      ensures Valid() && fresh(readyQueue) && this.cfg == cfg && View() == Init(cfg) && run == []
    {
      var n := |cfg.totals|;
      this.cfg := cfg;
      readyQueue := new ReadyQueue(UpTo(n), if cfg.fifo then Fifo else RandomOrder);
      inFlight, landing, responses, handler, nextRoundReqs := [], None, [], Idle, [];
      round, history, subQuestions := Repeat(n, 0), cfg.prompts, cfg.pool;
      sentRequests, completedRequests, progress, currentBarrierRound, barrierRoundCompleted := 0, 0, 0, 0, 0;
      retired, asked, sentLog, outLog, failures, crashes := [], Repeat(n, 0), Repeat(n, []), Repeat(n, []), 0, 0;
      run := [];
    }

    // The test on which both threads leave their loops; then at most one response, already
    // counted by the bar, is still to be queued.
    method MayLeave(total: nat) returns (leave: bool)
      requires Valid() && total == Sum(cfg.totals)
      ensures leave <==> BarFull(cfg, View())
      ensures leave ==> readyQueue.requests == nextRoundReqs == [] && |inFlight| == if landing.Some? then 1 else 0
    {
      leave := progress == total;
      if leave { FullBarAlmostDone(cfg, run); }
    }

    // The popped client's request becomes a task.
    method Launch(c: nat)
      requires Client(View(), c)
      modifies this`inFlight, this`sentRequests, this`sentLog
      ensures View() == old(View()).(inFlight := old(inFlight) + [c], sent := old(sentRequests) + 1,
                                     sentLog := old(sentLog)[c := old(sentLog)[c] + [old(history)[c]]])
    {
      inFlight := inFlight + [c];
      sentRequests := sentRequests + 1;
      sentLog := sentLog[c := sentLog[c] + [history[c]]];
    }

    // One turn of the sender loop; `seen` is its reading of the completed counter.
    method SenderTurn(draw: nat, seen: int)
      requires Valid() && seen <= completedRequests && landing.None?
      modifies this`inFlight, this`sentRequests, this`sentLog, this`run, readyQueue
      ensures Valid()
      ensures old(View()).ready == [] || old(sentRequests) - seen >= cfg.maxParallel ==>
        View() == old(View()) && run == old(run)
      ensures old(View()).ready != [] && old(sentRequests) - seen < cfg.maxParallel ==>
        exists i :: run == old(run) + [Send(i, seen)] && Enabled(cfg, old(View()), Send(i, seen))
    {
      if sentRequests - seen < cfg.maxParallel {
        ghost var before := View();
        var popped, index := readyQueue.Pop(draw);
        if popped.Ok? && popped.value.Some? {
          var c := popped.value.value;
          ReadyClients(cfg, run, index);
          ExecSnoc(cfg, run, Send(index, seen));
          Launch(c);
          assert View() == Next(cfg, before, Send(index, seen));
          run := run + [Send(index, seen)];
        }
      }
    }

    method MoveBar(i: nat, success: bool, output: Tokens)
      modifies this`landing, this`progress
      ensures View() == AfterRespond(old(View()), i, success, output)
    {
      progress := progress + 1;
      landing := Some(Landing(i, success, output));
    }

    // The request function has its answer: the bar moves, the response is still to be queued.
    method FinishRequest(i: nat, success: bool, output: Tokens)
      requires Valid() && landing.None? && i < |inFlight|
      modifies this`landing, this`progress, this`run
      ensures Valid() && run == old(run) + [Respond(i, success, output)] && landing.Some?
    {
      ExecSnoc(cfg, run, Respond(i, success, output));
      MoveBar(i, success, output);
      run := run + [Respond(i, success, output)];
    }

    method Enqueue(i: nat, success: bool, output: Tokens)
      requires i < |inFlight|
      modifies this`inFlight, this`responses
      ensures View() == Queued(old(View()), i, success, output)
    {
      responses := responses + [Response(inFlight[i], success, output)];
      inFlight := inFlight[..i] + inFlight[i + 1..];
    }

    method QueueLanding()
      requires CanPut(View())
      modifies this`inFlight, this`landing, this`responses
      ensures View() == AfterPut(old(View()))
    {
      var l := landing.value;
      Enqueue(l.index, l.success, l.output);
      landing := None;
    }

    // The awaited response goes to the queue.
    method HandleRequest()
      requires Valid() && landing.Some?
      modifies this`inFlight, this`landing, this`responses, this`run
      ensures Valid() && run == old(run) + [Put]
    {
      ReachableInv(cfg, run);
      ExecSnoc(cfg, run, Put);
      QueueLanding();
      run := run + [Put];
    }

    method QueueCrash(i: nat)
      requires i < |inFlight|
      modifies this`inFlight, this`responses, this`crashes
      ensures View() == AfterCrash(old(View()), i)
    {
      Enqueue(i, false, []);
      crashes := crashes + 1;
    }

    // The request function raised: a failure is queued, and the bar stands still.
    method HandleException(i: nat)
      requires Valid() && landing.None? && i < |inFlight|
      modifies this`inFlight, this`responses, this`crashes, this`run
      ensures Valid() && run == old(run) + [Crash(i)]
    {
      ExecSnoc(cfg, run, Crash(i));
      QueueCrash(i);
      run := run + [Crash(i)];
    }

    method GetResponse()
      requires Valid() && handler.Idle? && responses != []
      modifies this`responses, this`handler, this`run
      ensures Valid() && run == old(run) + [Get] && View() == AfterGet(old(View()))
    {
      ExecSnoc(cfg, run, Get);
      handler, responses := Got(responses[0]), responses[1..];
      run := run + [Get];
    }

    method CountFailure()
      requires CanCount(View())
      modifies this`retired, this`failures, this`completedRequests, this`handler
      ensures View() == AfterFailure(old(View()))
    {
      retired, failures := retired + [handler.response.client], failures + 1;
      completedRequests := completedRequests + 1;
      handler := Idle;
    }

    method CountSuccess()
      requires CanCount(View())
      modifies this`history, this`round, this`completedRequests, this`handler, this`outLog
      ensures View() == AfterSuccess(old(View()))
    {
      var c, output := handler.response.client, handler.response.output;
      history := history[c := history[c] + output];
      round := round[c := round[c] + 1];
      completedRequests := completedRequests + 1;
      handler := Counted(c);
      outLog := outLog[c := outLog[c] + [output]];
    }

    method CountResponse()
      requires Valid() && handler.Got?
      modifies this
      ensures Valid() && run == old(run) + [Count]
      ensures View() == if old(handler).response.success then AfterSuccess(old(View())) else AfterFailure(old(View()))
    {
      HandlerReady(cfg, run);
      ExecSnoc(cfg, run, Count);
      if handler.response.success { CountSuccess(); } else { CountFailure(); }
      run := run + [Count];
    }

    method AskNext()
      requires handler.Counted? && Client(View(), handler.client) && subQuestions != []
      modifies this`subQuestions, this`history, this`asked, this`nextRoundReqs, this`handler, readyQueue
      ensures View() == AfterQuestion(cfg, old(View()))
    {
      var c := handler.client;
      var question := subQuestions[|subQuestions| - 1];
      subQuestions := subQuestions[..|subQuestions| - 1];
      history := history[c := history[c] + question];
      asked := asked[c := asked[c] + 1];
      if cfg.barrier {
        nextRoundReqs := nextRoundReqs + [c];
      } else {
        readyQueue.Append(c);
      }
      handler := AtBarrier;
    }

    // Never pops an empty sub-question list.
    method RequeueClient()
      requires Valid() && handler.Counted?
      modifies this, readyQueue
      ensures Valid() && run == old(run) + [Requeue] && handler.AtBarrier?
      ensures responses == old(responses) && completedRequests == old(completedRequests)
    {
      var c := handler.client;
      HandlerReady(cfg, run);
      ExecSnoc(cfg, run, Requeue);
      if round[c] < cfg.totals[c] {
        AskNext();
      } else {
        retired, handler := retired + [c], AtBarrier;
      }
      run := run + [Requeue];
    }

    method MoveBarrier()
      requires handler.AtBarrier?
      modifies this`handler, this`nextRoundReqs, this`barrierRoundCompleted
      ensures View() == AfterBarrier(cfg, old(View()))
    {
      if cfg.barrier && currentBarrierRound < cfg.numRounds {
        barrierRoundCompleted := barrierRoundCompleted + 1;
        if barrierRoundCompleted == |cfg.totals| {
          handler, nextRoundReqs := Releasing(nextRoundReqs), [];
        } else {
          handler := Idle;
        }
      } else {
        handler := Idle;
      }
    }

    method BarrierCheck()
      requires Valid() && handler.AtBarrier?
      modifies this
      ensures Valid() && run == old(run) + [Barrier] && (handler.Idle? || handler.Releasing?)
      ensures responses == old(responses) && completedRequests == old(completedRequests)
    {
      ExecSnoc(cfg, run, Barrier);
      MoveBarrier();
      run := run + [Barrier];
    }

    method MoveHeld()
      requires handler.Releasing?
      modifies this`handler, this`currentBarrierRound, this`barrierRoundCompleted, readyQueue
      ensures View() == AfterRelease(old(View()))
    {
      if handler.rest == [] {
        currentBarrierRound := currentBarrierRound + 1;
        barrierRoundCompleted := 0;
        handler := Idle;
      } else {
        readyQueue.Append(handler.rest[0]);
        handler := Releasing(handler.rest[1..]);
      }
    }

    method ReleaseNext()
      requires Valid() && handler.Releasing?
      modifies this, readyQueue
      ensures Valid() && run == old(run) + [Release]
      ensures responses == old(responses) && completedRequests == old(completedRequests)
      ensures handler == if old(handler).rest == [] then Idle else Releasing(old(handler).rest[1..])
    {
      ExecSnoc(cfg, run, Release);
      MoveHeld();
      run := run + [Release];
    }

    // Barrier release: the held requests go to the ready queue one by one.
    method ReleaseAll()
      requires Valid() && (handler.Idle? || handler.Releasing?)
      modifies this, readyQueue
      ensures Valid() && handler.Idle? && old(run) <= run
      ensures forall i :: |old(run)| <= i < |run| ==> ByHandler(run[i])
      ensures responses == old(responses) && completedRequests == old(completedRequests)
    {
      while handler.Releasing?
        invariant Valid() && (handler.Idle? || handler.Releasing?) && old(run) <= run
        invariant forall i :: |old(run)| <= i < |run| ==> ByHandler(run[i])
        invariant responses == old(responses) && completedRequests == old(completedRequests)
        decreases if handler.Releasing? then |handler.rest| + 1 else 0
      {
        ReleaseNext();
      }
    }

    // A counted success: the client asks on or leaves, and the barrier moves.
    method FinishTurn()
      requires Valid() && handler.Counted?
      modifies this, readyQueue
      ensures Valid() && handler.Idle? && old(run) <= run
      ensures forall i :: |old(run)| <= i < |run| ==> ByHandler(run[i])
      ensures responses == old(responses) && completedRequests == old(completedRequests)
    {
      RequeueClient();
      BarrierCheck();
      ReleaseAll();
    }

    // One turn of the response handler's loop: it takes the first response and no other,
    // counts it once, and is ready for the next, having taken handler steps only.
    method HandlerTurn()
      requires Valid() && handler.Idle? && responses != []
      modifies this, readyQueue
      ensures Valid() && handler.Idle? && old(run) < run
      ensures forall i :: |old(run)| <= i < |run| ==> ByHandler(run[i])
      ensures responses == old(responses)[1..] && completedRequests == old(completedRequests) + 1
    {
      GetResponse();
      CountResponse();
      if handler.Counted? { FinishTurn(); }
    }
  }
}
