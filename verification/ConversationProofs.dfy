// Every run of the conversation protocol: one outstanding request per conversation, prompts
// sent once and in order with alternating histories, a queue that never blocks, and a
// producer that is starved exactly by conversations lost before their last turn.
module ConversationProofs {
  import opened Bags
  import opened Basics
  import opened Conversations

  ghost predicate WellFormed(cfg: Config) {
    && (forall c :: 0 <= c < |cfg.conversations| ==> cfg.conversations[c] != [])
    && (cfg.limit.Some? ==> cfg.limit.value >= 1)
  }

  // --- Places ---

  function Places(s: State, c: nat): nat {
    In(s.queue, c) + In(s.waiting, c) + In(s.running, c) + In(s.over, c)
  }

  ghost predicate InOnePlace(cfg: Config, s: State) {
    && |s.chats| == |s.turns| == |s.sent| == |cfg.conversations|
    && |s.queue| + |s.waiting| + |s.running| + |s.over| == |cfg.conversations|
    && forall c: nat :: Places(s, c) == if c < |cfg.conversations| then 1 else 0
  }

  lemma {:induction false} PlacesDraw(s: State, c: nat)
    requires s.queue != []
    ensures Places(AfterDraw(s), c) == Places(s, c)
  {
    InHead(s.queue, c);
    InSnoc(s.waiting, s.queue[0], c);
  }

  lemma {:induction false} PlacesStart(cfg: Config, s: State, i: nat, c: nat)
    requires CanStart(cfg, s, i)
    ensures Places(AfterStart(s, i), c) == Places(s, c)
  {
    InDrop(s.waiting, i, c);
    InSnoc(s.running, s.waiting[i], c);
  }

  lemma {:induction false} PlacesEnd(s: State, i: nat, text: string, outputLen: int, c: nat)
    requires Playing(s, i)
    ensures Places(AfterFinish(s, i, text, outputLen), c) == Places(s, c)
    ensures Places(AfterFail(s, i), c) == Places(s, c)
  {
    InDrop(s.running, i, c);
    InSnoc(s.queue, s.running[i], c);
    InSnoc(s.over, s.running[i], c);
  }

  lemma {:induction false} StepPlaces(cfg: Config, s: State, l: Label, c: nat)
    requires Enabled(cfg, s, l)
    ensures Places(Next(cfg, s, l), c) == Places(s, c)
  {
    match l
    case Draw => PlacesDraw(s, c);
    case Start(i) => PlacesStart(cfg, s, i, c);
    case Finish(i, text, outputLen) => PlacesEnd(s, i, text, outputLen, c);
    case Fail(i) => PlacesEnd(s, i, "", 0, c);
    case GiveUp =>
  }

  lemma {:induction false} StepInOnePlace(cfg: Config, s: State, l: Label)
    requires InOnePlace(cfg, s) && Enabled(cfg, s, l)
    ensures InOnePlace(cfg, Next(cfg, s, l))
  {
    forall c: nat ensures Places(Next(cfg, s, l), c) == Places(s, c) { StepPlaces(cfg, s, l, c); }
  }

  // --- Draws ---

  function SumLengths<T>(s: seq<seq<T>>): nat {
    if s == [] then 0 else SumLengths(s[..|s| - 1]) + |s[|s| - 1]|
  }

  lemma {:induction false} SumLengthsUpdate<T>(s: seq<seq<T>>, c: nat, v: seq<T>)
    requires c < |s|
    ensures SumLengths(s[c := v]) == SumLengths(s) - |s[c]| + |v|
  {
    var last := |s| - 1;
    if c == last {
      assert s[c := v][..last] == s[..last];
    } else {
      SumLengthsUpdate(s[..last], c, v);
      assert s[c := v][..last] == s[..last][c := v];
    }
  }

  ghost predicate DrawsMatch(cfg: Config, s: State) {
    && s.drawn == SumLengths(s.sent) + |s.waiting| <= Requests(cfg.conversations)
    && (s.stopped ==> s.drawn < Requests(cfg.conversations))
  }

  lemma {:induction false} StepDrawsMatch(cfg: Config, s: State, l: Label)
    requires DrawsMatch(cfg, s) && Enabled(cfg, s, l)
    ensures DrawsMatch(cfg, Next(cfg, s, l))
  {
    if l.Start? {
      var c := s.waiting[l.index];
      SumLengthsUpdate(s.sent, c, s.sent[c] + [Next(cfg, s, l).chats[c].messages]);
    }
  }

  // --- One conversation ---

  // The user speaks first and the two sides alternate; user messages are the prompts in order.
  ghost predicate Alternates(prompts: seq<Prompt>, messages: seq<Message>) {
    && |messages| <= 2 * |prompts|
    && forall i :: 0 <= i < |messages| ==>
         if i % 2 == 0 then messages[i] == User(prompts[i / 2].content) else messages[i].Assistant?
  }

  ghost predicate SentInOrder(prompts: seq<Prompt>, messages: seq<Message>, sent: seq<seq<Message>>) {
    forall k :: 0 <= k < |sent| ==> |sent[k]| == 2 * k + 1 && sent[k] <= messages
  }

  ghost predicate SameQuestions(a: seq<Prompt>, b: seq<Prompt>) {
    |a| == |b| && forall i :: 0 <= i < |a| ==> a[i].content == b[i].content && a[i].inputLen == b[i].inputLen
  }

  datatype Stage = Pending | Asking | Over

  function StageOf(s: State, c: nat): Stage {
    if In(s.over, c) > 0 then Over else if In(s.running, c) > 0 then Asking else Pending
  }

  ghost predicate ChatFits(prompts: seq<Prompt>, stage: Stage, chat: Chat, turns: nat, sent: seq<seq<Message>>, abandoned: nat) {
    && SameQuestions(chat.prompts, prompts) && Alternates(prompts, chat.messages)
    && SentInOrder(prompts, chat.messages, sent)
    && match stage
       case Pending => chat.finished == turns == |sent| < |prompts| && |chat.messages| == 2 * turns
       case Asking => chat.finished == turns < |prompts| && |sent| == turns + 1 && |chat.messages| == 2 * turns + 1
       case Over => turns <= |sent| <= |prompts| && (abandoned == 0 ==> |sent| == |prompts|)
  }

  ghost predicate ChatsFit(cfg: Config, s: State)
    requires |s.chats| == |s.turns| == |s.sent| == |cfg.conversations|
  {
    forall c :: 0 <= c < |cfg.conversations| ==>
      ChatFits(cfg.conversations[c], StageOf(s, c), s.chats[c], s.turns[c], s.sent[c], s.abandoned)
  }

  lemma {:induction false} ChatStart(prompts: seq<Prompt>, chat: Chat, turns: nat, sent: seq<seq<Message>>, abandoned: nat)
    requires ChatFits(prompts, Pending, chat, turns, sent, abandoned)
    ensures chat.finished < |chat.prompts|
    ensures var messages := chat.messages + [User(chat.prompts[chat.finished].content)];
      ChatFits(prompts, Asking, chat.(messages := messages), turns, sent + [messages], abandoned)
  {
  }

  lemma {:induction false} ChatFinish(prompts: seq<Prompt>, chat: Chat, turns: nat, sent: seq<seq<Message>>, abandoned: nat,
                                      text: string, outputLen: int)
    requires ChatFits(prompts, Asking, chat, turns, sent, abandoned)
    ensures chat.finished < |chat.prompts|
    ensures ChatFits(prompts, if turns + 1 < |prompts| then Pending else Over,
                     Answered(chat, text, outputLen), turns + 1, sent, abandoned)
  {
  }

  lemma {:induction false} ChatFail(prompts: seq<Prompt>, chat: Chat, turns: nat, sent: seq<seq<Message>>, abandoned: nat)
    requires ChatFits(prompts, Asking, chat, turns, sent, abandoned)
    ensures ChatFits(prompts, Over, chat, turns, sent, if chat.finished + 1 < |chat.prompts| then abandoned + 1 else abandoned)
  {
  }

  lemma {:induction false} ChatElsewhere(prompts: seq<Prompt>, stage: Stage, chat: Chat, turns: nat, sent: seq<seq<Message>>, abandoned: nat)
    requires ChatFits(prompts, stage, chat, turns, sent, abandoned)
    ensures ChatFits(prompts, stage, chat, turns, sent, abandoned + 1)
  {
  }

  // The stages of all conversations around a step.
  lemma {:induction false} StageDraw(cfg: Config, s: State, c: nat)
    requires InOnePlace(cfg, s) && s.queue != []
    ensures StageOf(AfterDraw(s), c) == StageOf(s, c)
  {
  }

  lemma {:induction false} StageStart(cfg: Config, s: State, i: nat, c: nat)
    requires InOnePlace(cfg, s) && CanStart(cfg, s, i)
    ensures c == s.waiting[i] ==> StageOf(s, c) == Pending
    ensures StageOf(AfterStart(s, i), c) == if c == s.waiting[i] then Asking else StageOf(s, c)
  {
    InDrop(s.waiting, i, c);
    InSnoc(s.running, s.waiting[i], c);
    assert Places(s, c) <= 1;
  }

  lemma {:induction false} StageEnd(cfg: Config, s: State, i: nat, text: string, outputLen: int, c: nat)
    requires InOnePlace(cfg, s) && Playing(s, i)
    ensures c == s.running[i] ==> StageOf(s, c) == Asking
    ensures StageOf(AfterFinish(s, i, text, outputLen), c) ==
      if c == s.running[i] then (if MoreTurns(s, c) then Pending else Over) else StageOf(s, c)
    ensures StageOf(AfterFail(s, i), c) == if c == s.running[i] then Over else StageOf(s, c)
  {
    InDrop(s.running, i, c);
    InSnoc(s.over, s.running[i], c);
    assert Places(s, c) <= 1;
  }

  ghost predicate Inv(cfg: Config, s: State) {
    WellFormed(cfg) && InOnePlace(cfg, s) && DrawsMatch(cfg, s) && ChatsFit(cfg, s) && AbandonedShows(cfg, s)
  }

  // An abandoned conversation is over and has prompts it never sent.
  ghost predicate Abandoned(cfg: Config, s: State, c: nat)
    requires |s.sent| == |cfg.conversations|
  {
    c < |cfg.conversations| && In(s.over, c) > 0 && |s.sent[c]| < |cfg.conversations[c]|
  }

  ghost predicate AbandonedShows(cfg: Config, s: State)
    requires |s.sent| == |cfg.conversations|
  {
    s.abandoned > 0 ==> exists c: nat :: Abandoned(cfg, s, c)
  }

  lemma {:induction false} StepAbandoned(cfg: Config, s: State, l: Label)
    requires Inv(cfg, s) && Enabled(cfg, s, l)
    ensures |Next(cfg, s, l).sent| == |cfg.conversations| && AbandonedShows(cfg, Next(cfg, s, l))
  {
    var t := Next(cfg, s, l);
    if l.Fail? && MoreTurns(s, s.running[l.index]) {
      var c := s.running[l.index];
      assert In(s.running, c) > 0 && Places(s, c) == 1;
      assert ChatFits(cfg.conversations[c], StageOf(s, c), s.chats[c], s.turns[c], s.sent[c], s.abandoned);
      InSnoc(s.over, c, c);
      assert Abandoned(cfg, t, c);
    } else if s.abandoned > 0 {
      var c: nat :| Abandoned(cfg, s, c);
      assert Places(s, c) == 1;
      if l.Start? { InDrop(s.waiting, l.index, c); }
      if l.Finish? || l.Fail? { InSnoc(s.over, s.running[l.index], c); }
      assert Abandoned(cfg, t, c);
    }
  }

  lemma {:induction false} FailChats(cfg: Config, s: State, i: nat, c: nat)
    requires Inv(cfg, s) && Playing(s, i) && c < |cfg.conversations|
    ensures var t := AfterFail(s, i);
      ChatFits(cfg.conversations[c], StageOf(t, c), t.chats[c], t.turns[c], t.sent[c], t.abandoned)
  {
    var prompts := cfg.conversations[c];
    assert ChatFits(prompts, StageOf(s, c), s.chats[c], s.turns[c], s.sent[c], s.abandoned);
    StageEnd(cfg, s, i, "", 0, c);
    if c == s.running[i] {
      ChatFail(prompts, s.chats[c], s.turns[c], s.sent[c], s.abandoned);
    } else if MoreTurns(s, s.running[i]) {
      ChatElsewhere(prompts, StageOf(s, c), s.chats[c], s.turns[c], s.sent[c], s.abandoned);
    }
  }

  lemma {:induction false} StepChats(cfg: Config, s: State, l: Label, c: nat)
    requires Inv(cfg, s) && Enabled(cfg, s, l) && c < |cfg.conversations|
    ensures InOnePlace(cfg, Next(cfg, s, l))
    ensures var t := Next(cfg, s, l);
      ChatFits(cfg.conversations[c], StageOf(t, c), t.chats[c], t.turns[c], t.sent[c], t.abandoned)
  {
    StepInOnePlace(cfg, s, l);
    var prompts := cfg.conversations[c];
    assert ChatFits(prompts, StageOf(s, c), s.chats[c], s.turns[c], s.sent[c], s.abandoned);
    match l
    case Draw => StageDraw(cfg, s, c);
    case Start(i) =>
      StageStart(cfg, s, i, c);
      if c == s.waiting[i] { ChatStart(prompts, s.chats[c], s.turns[c], s.sent[c], s.abandoned); }
    case Finish(i, text, outputLen) =>
      StageEnd(cfg, s, i, text, outputLen, c);
      if c == s.running[i] { ChatFinish(prompts, s.chats[c], s.turns[c], s.sent[c], s.abandoned, text, outputLen); }
    case Fail(i) => FailChats(cfg, s, i, c);
    case GiveUp =>
  }

  lemma {:induction false} StepInv(cfg: Config, s: State, l: Label)
    requires Inv(cfg, s) && Enabled(cfg, s, l)
    ensures Inv(cfg, Next(cfg, s, l))
  {
    StepInOnePlace(cfg, s, l);
    StepDrawsMatch(cfg, s, l);
    StepAbandoned(cfg, s, l);
    forall c: nat | c < |cfg.conversations|
      ensures var t := Next(cfg, s, l);
        ChatFits(cfg.conversations[c], StageOf(t, c), t.chats[c], t.turns[c], t.sent[c], t.abandoned)
    {
      StepChats(cfg, s, l, c);
    }
  }

  lemma {:induction false} SumLengthsEmpty<T>(n: nat)
    ensures SumLengths(Repeat<seq<T>>(n, [])) == 0
  {
    if n > 0 {
      SumLengthsEmpty<T>(n - 1);
      assert Repeat<seq<T>>(n, [])[..n - 1] == Repeat<seq<T>>(n - 1, []);
    }
  }

  lemma {:induction false} InitInv(cfg: Config)
    requires WellFormed(cfg)
    ensures Inv(cfg, Init(cfg))
  {
    SumLengthsEmpty<seq<Message>>(|cfg.conversations|);
    forall c: nat ensures Places(Init(cfg), c) == if c < |cfg.conversations| then 1 else 0 {
      InUpTo(|cfg.conversations|, c);
    }
  }

  lemma {:induction false} ReachableInv(cfg: Config, run: seq<Label>)
    requires WellFormed(cfg) && Exec(cfg, run).Some?
    ensures Inv(cfg, Exec(cfg, run).value)
  {
    if run == [] {
      InitInv(cfg);
    } else {
      ReachableInv(cfg, run[..|run| - 1]);
      StepInv(cfg, Exec(cfg, run[..|run| - 1]).value, run[|run| - 1]);
    }
  }

  // --- What the invariant says ---

  // A conversation never has two requests outstanding.
  lemma {:induction false} OneOutstanding(cfg: Config, run: seq<Label>, c: nat)
    requires WellFormed(cfg) && Exec(cfg, run).Some?
    ensures var s := Exec(cfg, run).value; In(s.queue, c) + In(s.waiting, c) + In(s.running, c) <= 1
  {
    ReachableInv(cfg, run);
    assert Places(Exec(cfg, run).value, c) <= 1;
  }

  // Request k of a conversation carries 2k+1 alternating messages ending with prompt k, and
  // each request extends the one before.
  lemma {:induction false} RequestsInOrder(cfg: Config, run: seq<Label>, c: nat, k: nat)
    requires WellFormed(cfg) && Exec(cfg, run).Some? && c < |cfg.conversations|
    requires c < |Exec(cfg, run).value.sent| && k < |Exec(cfg, run).value.sent[c]|
    ensures var sent := Exec(cfg, run).value.sent[c];
      && |sent| <= |cfg.conversations[c]|
      && |sent[k]| == 2 * k + 1 && Alternates(cfg.conversations[c], sent[k])
      && sent[k][2 * k] == User(cfg.conversations[c][k].content)
      && (k + 1 < |sent| ==> sent[k] <= sent[k + 1])
  {
    ReachableInv(cfg, run);
    var s := Exec(cfg, run).value;
    assert ChatFits(cfg.conversations[c], StageOf(s, c), s.chats[c], s.turns[c], s.sent[c], s.abandoned);
    assert (2 * k) % 2 == 0 && (2 * k) / 2 == k;
  }

  // Putting a conversation back never meets a full queue.
  lemma {:induction false} PutNeverBlocks(cfg: Config, run: seq<Label>, i: nat)
    requires WellFormed(cfg) && Exec(cfg, run).Some? && i < |Exec(cfg, run).value.running|
    ensures CanFinish(cfg, Exec(cfg, run).value, i)
    ensures |Exec(cfg, run).value.queue| < |cfg.conversations|
  {
    ReachableInv(cfg, run);
    RunningCanFinish(cfg, Exec(cfg, run).value, i);
  }

  lemma {:induction false} RunningCanFinish(cfg: Config, s: State, i: nat)
    requires Inv(cfg, s) && i < |s.running|
    ensures CanFinish(cfg, s, i) && |s.queue| < |cfg.conversations|
  {
    var c := s.running[i];
    assert In(s.running, c) > 0 && Places(s, c) == 1;
    assert ChatFits(cfg.conversations[c], StageOf(s, c), s.chats[c], s.turns[c], s.sent[c], s.abandoned);
  }

  // --- The producer ---

  function Work(cfg: Config, s: State): int {
    (if s.stopped then 0 else 3 * (Requests(cfg.conversations) - s.drawn)) + 2 * |s.waiting| + |s.running|
  }

  lemma {:induction false} StepWork(cfg: Config, s: State, l: Label)
    requires Enabled(cfg, s, l)
    ensures Work(cfg, Next(cfg, s, l)) < Work(cfg, s)
  {
  }

  lemma {:induction false} RunIsBounded(cfg: Config, run: seq<Label>)
    requires WellFormed(cfg) && Exec(cfg, run).Some?
    ensures |run| + Work(cfg, Exec(cfg, run).value) <= 3 * Requests(cfg.conversations)
    ensures |run| <= 3 * Requests(cfg.conversations)
  {
    if run != [] {
      RunIsBounded(cfg, run[..|run| - 1]);
      StepWork(cfg, Exec(cfg, run[..|run| - 1]).value, run[|run| - 1]);
    }
    ReachableInv(cfg, run);
  }

  // Nothing can happen any more, except that the producer stops waiting.
  ghost predicate Quiescent(cfg: Config, s: State) {
    forall l :: Enabled(cfg, s, l) ==> l == GiveUp
  }

  ghost predicate Settled(cfg: Config, s: State) {
    s.waiting == [] && s.running == [] && (s.queue == [] || !Drawing(cfg, s))
  }

  lemma {:induction false} SomeStep(cfg: Config, s: State) returns (l: Label)
    requires Inv(cfg, s) && !Settled(cfg, s)
    ensures Enabled(cfg, s, l) && !l.Fail? && !l.GiveUp?
  {
    if s.running != [] {
      RunningCanFinish(cfg, s, 0);
      l := Finish(0, "", 0);
    } else if s.waiting != [] {
      var c := s.waiting[0];
      assert In(s.waiting, c) > 0 && Places(s, c) == 1;
      assert ChatFits(cfg.conversations[c], StageOf(s, c), s.chats[c], s.turns[c], s.sent[c], s.abandoned);
      l := Start(0);
    } else {
      l := Draw;
    }
  }

  lemma {:induction false} SumLengthsBound(sent: seq<seq<seq<Message>>>, conversations: seq<seq<Prompt>>)
    requires |sent| == |conversations| && forall c :: 0 <= c < |sent| ==> |sent[c]| <= |conversations[c]|
    ensures SumLengths(sent) <= Requests(conversations)
    ensures SumLengths(sent) == Requests(conversations) <==> forall c :: 0 <= c < |sent| ==> |sent[c]| == |conversations[c]|
  {
    if sent != [] { SumLengthsBound(sent[..|sent| - 1], conversations[..|conversations| - 1]); }
  }

  lemma {:induction false} SentWithin(cfg: Config, s: State)
    requires Inv(cfg, s)
    ensures SumLengths(s.sent) <= Requests(cfg.conversations)
    ensures SumLengths(s.sent) == Requests(cfg.conversations) <==>
      forall c :: 0 <= c < |cfg.conversations| ==> |s.sent[c]| == |cfg.conversations[c]|
  {
    forall c | 0 <= c < |cfg.conversations| ensures |s.sent[c]| <= |cfg.conversations[c]| {
      assert ChatFits(cfg.conversations[c], StageOf(s, c), s.chats[c], s.turns[c], s.sent[c], s.abandoned);
    }
    SumLengthsBound(s.sent, cfg.conversations);
  }

  // When everyone is idle and the producer has not given up, it has made all its draws exactly
  // when no conversation failed with prompts left; otherwise nobody will fill its queue, and
  // giving up is the only step left.
  lemma {:induction false} DrawsAllIff(cfg: Config, run: seq<Label>)
    requires WellFormed(cfg) && Exec(cfg, run).Some?
    requires Quiescent(cfg, Exec(cfg, run).value) && !Exec(cfg, run).value.stopped
    ensures var s := Exec(cfg, run).value;
      s.drawn == Requests(cfg.conversations) <==> s.abandoned == 0
    ensures Exec(cfg, run).value.abandoned > 0 ==> Enabled(cfg, Exec(cfg, run).value, GiveUp)
  {
    ReachableInv(cfg, run);
    var s := Exec(cfg, run).value;
    if !Settled(cfg, s) { var l := SomeStep(cfg, s); }
    SentWithin(cfg, s);
    if s.abandoned > 0 {
      var c: nat :| Abandoned(cfg, s, c);
      assert |s.sent[c]| < |cfg.conversations[c]|;
    } else if s.queue == [] {
      forall c | 0 <= c < |cfg.conversations| ensures |s.sent[c]| == |cfg.conversations[c]| {
        assert Places(s, c) == 1;
        assert ChatFits(cfg.conversations[c], StageOf(s, c), s.chats[c], s.turns[c], s.sent[c], s.abandoned);
      }
    }
  }

  // A run that has ended sent one request per draw, and every prompt exactly when the producer
  // did not give up; it did if a conversation failed with prompts left.
  lemma {:induction false} EndsIff(cfg: Config, run: seq<Label>)
    requires WellFormed(cfg) && Exec(cfg, run).Some? && forall l :: !Enabled(cfg, Exec(cfg, run).value, l)
    ensures var s := Exec(cfg, run).value;
      && s.waiting == s.running == [] && s.drawn == SumLengths(s.sent) && |s.sent| == |cfg.conversations|
      && (s.drawn == Requests(cfg.conversations) <==> !s.stopped)
      && (!s.stopped <==> forall c :: 0 <= c < |cfg.conversations| ==> |s.sent[c]| == |cfg.conversations[c]|)
      && (s.abandoned > 0 ==> s.stopped)
  {
    ReachableInv(cfg, run);
    var s := Exec(cfg, run).value;
    if !Settled(cfg, s) { var l := SomeStep(cfg, s); }
    assert !Enabled(cfg, s, GiveUp) && !Enabled(cfg, s, Draw);
    SentWithin(cfg, s);
    if !s.stopped { DrawsAllIff(cfg, run); }
  }

  ghost predicate FailureFree(run: seq<Label>) {
    forall i :: 0 <= i < |run| ==> !run[i].Fail?
  }

  lemma {:induction false} NoFailures(cfg: Config, run: seq<Label>)
    requires Exec(cfg, run).Some? && FailureFree(run)
    ensures Exec(cfg, run).value.abandoned == 0
  {
    if run != [] { NoFailures(cfg, run[..|run| - 1]); }
  }

  ghost predicate Patient(run: seq<Label>) {
    forall i :: 0 <= i < |run| ==> run[i] != GiveUp
  }

  lemma {:induction false} StepStopped(cfg: Config, s: State, l: Label)
    requires Enabled(cfg, s, l)
    ensures Next(cfg, s, l).stopped <==> s.stopped || l == GiveUp
  {
  }

  lemma {:induction false} PatientSnoc(run: seq<Label>, l: Label)
    ensures Patient(run + [l]) <==> Patient(run) && l != GiveUp
  {
    if Patient(run + [l]) {
      forall i | 0 <= i < |run| ensures run[i] != GiveUp { assert (run + [l])[i] == run[i]; }
      assert (run + [l])[|run|] == l;
    }
  }

  lemma {:induction false} StillDrawing(cfg: Config, run: seq<Label>)
    requires Exec(cfg, run).Some?
    ensures Patient(run) <==> !Exec(cfg, run).value.stopped
  {
    if run != [] {
      var init, last := run[..|run| - 1], run[|run| - 1];
      StillDrawing(cfg, init);
      StepStopped(cfg, Exec(cfg, init).value, last);
      PatientSnoc(init, last);
      assert run == init + [last];
    }
  }

  // Without failures, and as long as no wait exceeds the timeout, the producer never starves:
  // a finished run drew every request, every conversation is over, and each prompt was sent
  // exactly once.
  lemma {:induction false} NeverStarves(cfg: Config, run: seq<Label>)
    requires WellFormed(cfg) && Exec(cfg, run).Some? && FailureFree(run) && Patient(run)
    requires Quiescent(cfg, Exec(cfg, run).value)
    ensures var s := Exec(cfg, run).value;
      && s.drawn == Requests(cfg.conversations) && s.queue == s.waiting == s.running == []
      && |s.sent| == |cfg.conversations|
      && forall c :: 0 <= c < |cfg.conversations| ==> |s.sent[c]| == |cfg.conversations[c]|
  {
    ReachableInv(cfg, run);
    NoFailures(cfg, run);
    StillDrawing(cfg, run);
    DrawsAllIff(cfg, run);
    var s := Exec(cfg, run).value;
    if !Settled(cfg, s) { var l := SomeStep(cfg, s); }
    SentWithin(cfg, s);
    if s.queue != [] { QueuedHasMore(cfg, s); }
  }

  lemma {:induction false} TwoRequests(p: Prompt, q: Prompt)
    ensures Requests([[p, q]]) == 2
  {
    assert [[p, q]][..0] == [];
    assert Requests([[p, q]]) == Requests([[p, q]][..0]) + |[p, q]|;
  }

  lemma {:induction false} Extend(cfg: Config, run: seq<Label>, s: State, l: Label) returns (longer: seq<Label>)
    requires Exec(cfg, run) == Some(s) && Enabled(cfg, s, l) && !l.Fail? && FailureFree(run)
    ensures Exec(cfg, longer) == Some(Next(cfg, s, l)) && FailureFree(longer)
  {
    longer := run + [l];
    assert longer[..|run|] == run;
  }

  // The producer can give up without any failure: on a conversation of two prompts whose first
  // answer takes too long, the second prompt is never sent.
  lemma {:induction false} GivesUpOnSlowAnswer(p: Prompt, q: Prompt, text: string, outputLen: int)
    returns (cfg: Config, run: seq<Label>)
    ensures cfg.conversations == [[p, q]] && WellFormed(cfg) && Exec(cfg, run).Some? && FailureFree(run)
    ensures var s := Exec(cfg, run).value;
      (forall l :: !Enabled(cfg, s, l)) && |s.sent| == 1 && |s.sent[0]| == 1
  {
    cfg := Config([[p, q]], None);
    TwoRequests(p, q);
    assert Init(cfg).queue == UpTo(0) + [0] == [0];
    run := Extend(cfg, [], Init(cfg), Draw);
    var s := AfterDraw(Init(cfg));
    run := Extend(cfg, run, s, Start(0));
    s := AfterStart(s, 0);
    run := Extend(cfg, run, s, GiveUp);
    s := s.(stopped := true);
    run := Extend(cfg, run, s, Finish(0, text, outputLen));
  }

  // A queued conversation still has prompts to send.
  lemma {:induction false} QueuedHasMore(cfg: Config, s: State)
    requires Inv(cfg, s) && s.queue != []
    ensures exists c :: 0 <= c < |cfg.conversations| && |s.sent[c]| < |cfg.conversations[c]|
  {
    var c := s.queue[0];
    assert In(s.queue, c) > 0 && Places(s, c) == 1;
    assert ChatFits(cfg.conversations[c], StageOf(s, c), s.chats[c], s.turns[c], s.sent[c], s.abandoned);
  }

  // --- Shared prefixes ---

  lemma {:induction false} RequestsConcat(a: seq<seq<Prompt>>, b: seq<seq<Prompt>>)
    ensures Requests(a + b) == Requests(a) + Requests(b)
  {
    if b == [] {
      assert a + b == a;
    } else {
      RequestsConcat(a, b[..|b| - 1]);
      assert (a + b)[..|a + b| - 1] == a + b[..|b| - 1];
    }
  }

  lemma {:induction false} RequestsSingletons(prompts: seq<Prompt>)
    ensures Requests(Singletons(prompts)) == |prompts|
  {
    if prompts != [] {
      RequestsSingletons(prompts[..|prompts| - 1]);
      assert Singletons(prompts)[..|prompts| - 1] == Singletons(prompts[..|prompts| - 1]);
    }
  }

  lemma {:induction false} SingletonsConcat(a: seq<Prompt>, b: seq<Prompt>)
    ensures Singletons(a + b) == Singletons(a) + Singletons(b)
  {
  }

  // Flattening makes each prompt a conversation, in order; it keeps the number of draws
  // counted before it and leaves no empty conversation.
  lemma {:induction false} SplitKeepsRequests(conversations: seq<seq<Prompt>>)
    ensures Split(conversations) == Singletons(AllPrompts(conversations))
    ensures Requests(Split(conversations)) == Requests(conversations)
    ensures forall c :: c in Split(conversations) ==> |c| == 1
  {
    if conversations != [] {
      var init, last := conversations[..|conversations| - 1], conversations[|conversations| - 1];
      SplitKeepsRequests(init);
      RequestsConcat(Split(init), Singletons(last));
      RequestsSingletons(last);
      SingletonsConcat(AllPrompts(init), last);
    }
  }
}
