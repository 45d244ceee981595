// What the requests of a conversation say, in terms of a run's labels: the texts and lengths
// of the answers received, in order, and the order in which conversations are drawn.
module ConversationTexts {
  import opened Bags
  import opened Basics
  import opened Conversations
  import opened ConversationProofs

  ghost function Before(cfg: Config, run: seq<Label>): State
    requires run != [] && Exec(cfg, run).Some?
  {
    Exec(cfg, run[..|run| - 1]).value
  }

  // --- Answers received ---

  datatype Answer = Answer(text: string, outputLen: int)

  // The answers a conversation got, in order.
  ghost function Answers(cfg: Config, run: seq<Label>, c: nat): seq<Answer>
    requires Exec(cfg, run).Some?
  {
    if run == [] then []
    else Answers(cfg, run[..|run| - 1], c) + AnswerAt(Before(cfg, run), run[|run| - 1], c)
  }

  function AnswerAt(s: State, l: Label, c: nat): seq<Answer> {
    match l
    case Finish(i, text, outputLen) => if i < |s.running| && s.running[i] == c then [Answer(text, outputLen)] else []
    case _ => []
  }

  // The history holds the answers at its odd places, and each answered prompt has the length
  // of its answer; the others have the length they were given.
  ghost predicate Told(prompts: seq<Prompt>, chat: Chat, answers: seq<Answer>) {
    && |chat.prompts| == |prompts| && |answers| <= |prompts| && |chat.messages| <= 2 * |answers| + 1
    && (forall i :: 0 <= i < |chat.messages| && i % 2 == 1 ==> chat.messages[i] == Assistant(answers[i / 2].text))
    && (forall j :: 0 <= j < |prompts| ==>
          chat.prompts[j].outputLen == if j < |answers| then answers[j].outputLen else prompts[j].outputLen)
  }

  ghost predicate ToldFor(cfg: Config, s: State, answers: seq<Answer>, c: nat)
    requires c < |s.chats| == |s.turns| == |cfg.conversations|
  {
    |answers| == s.turns[c] && Told(cfg.conversations[c], s.chats[c], answers)
  }

  lemma {:induction false} ToldStart(prompts: seq<Prompt>, chat: Chat, answers: seq<Answer>, content: string)
    requires Told(prompts, chat, answers) && |chat.messages| == 2 * |answers|
    ensures Told(prompts, chat.(messages := chat.messages + [User(content)]), answers)
  {
  }

  lemma {:induction false} ToldFinish(prompts: seq<Prompt>, chat: Chat, answers: seq<Answer>, text: string, outputLen: int)
    requires Told(prompts, chat, answers) && |chat.messages| == 2 * |answers| + 1
    requires chat.finished == |answers| < |prompts|
    ensures Told(prompts, Answered(chat, text, outputLen), answers + [Answer(text, outputLen)])
  {
    var more := answers + [Answer(text, outputLen)];
    var after := Answered(chat, text, outputLen);
    forall i | 0 <= i < |after.messages| && i % 2 == 1 ensures after.messages[i] == Assistant(more[i / 2].text) {
      if i < |chat.messages| { assert more[i / 2] == answers[i / 2]; } else { assert i / 2 == |answers|; }
    }
  }

  lemma {:induction false} StepTold(cfg: Config, s: State, l: Label, answers: seq<Answer>, c: nat)
    requires Inv(cfg, s) && Enabled(cfg, s, l) && c < |cfg.conversations| && ToldFor(cfg, s, answers, c)
    ensures |Next(cfg, s, l).chats| == |Next(cfg, s, l).turns| == |cfg.conversations|
    ensures ToldFor(cfg, Next(cfg, s, l), answers + AnswerAt(s, l, c), c)
  {
    var prompts := cfg.conversations[c];
    if AnswerAt(s, l, c) == [] { assert answers + AnswerAt(s, l, c) == answers; }
    match l
    case Start(i) =>
      if s.waiting[i] == c {
        StageStart(cfg, s, i, c);
        assert ChatFits(prompts, StageOf(s, c), s.chats[c], s.turns[c], s.sent[c], s.abandoned);
        ToldStart(prompts, s.chats[c], answers, s.chats[c].prompts[s.chats[c].finished].content);
      }
    case Finish(i, text, outputLen) =>
      if s.running[i] == c {
        StageEnd(cfg, s, i, text, outputLen, c);
        assert ChatFits(prompts, StageOf(s, c), s.chats[c], s.turns[c], s.sent[c], s.abandoned);
        ToldFinish(prompts, s.chats[c], answers, text, outputLen);
      }
    case _ =>
  }

  lemma {:induction false} ReachableTold(cfg: Config, run: seq<Label>, c: nat)
    requires WellFormed(cfg) && Exec(cfg, run).Some? && c < |cfg.conversations|
    ensures Inv(cfg, Exec(cfg, run).value) && ToldFor(cfg, Exec(cfg, run).value, Answers(cfg, run, c), c)
  {
    ReachableInv(cfg, run);
    if run != [] {
      ReachableTold(cfg, run[..|run| - 1], c);
      StepTold(cfg, Before(cfg, run), run[|run| - 1], Answers(cfg, run[..|run| - 1], c), c);
    }
  }

  // Request k carries, turn by turn, the prompts and the texts that answered them, and ends
  // with prompt k.
  lemma {:induction false} RequestsExact(cfg: Config, run: seq<Label>, c: nat, k: nat)
    requires WellFormed(cfg) && Exec(cfg, run).Some? && c < |cfg.conversations|
    requires c < |Exec(cfg, run).value.sent| && k < |Exec(cfg, run).value.sent[c]|
    ensures k <= |Answers(cfg, run, c)| && k < |cfg.conversations[c]|
    ensures var messages := Exec(cfg, run).value.sent[c][k];
      && |messages| == 2 * k + 1
      && forall i :: 0 <= i <= 2 * k ==>
           messages[i] == if i % 2 == 0 then User(cfg.conversations[c][i / 2].content) else Assistant(Answers(cfg, run, c)[i / 2].text)
  {
    ReachableTold(cfg, run, c);
    RequestsInOrder(cfg, run, c, k);
    var s := Exec(cfg, run).value;
    assert ChatFits(cfg.conversations[c], StageOf(s, c), s.chats[c], s.turns[c], s.sent[c], s.abandoned);
    var messages := s.sent[c][k];
    assert messages <= s.chats[c].messages;
    forall i | 0 <= i <= 2 * k
      ensures i / 2 < |cfg.conversations[c]| && (i % 2 == 1 ==> i / 2 < |Answers(cfg, run, c)|)
      ensures messages[i] == if i % 2 == 0 then User(cfg.conversations[c][i / 2].content) else Assistant(Answers(cfg, run, c)[i / 2].text)
    {
      assert messages[i] == s.chats[c].messages[i];
    }
  }

  // The lengths a conversation's record holds: those of the answers, then those given.
  lemma {:induction false} LengthsExact(cfg: Config, run: seq<Label>, c: nat, j: nat)
    requires WellFormed(cfg) && Exec(cfg, run).Some? && c < |cfg.conversations| && j < |cfg.conversations[c]|
    ensures |Exec(cfg, run).value.chats| == |cfg.conversations|
    ensures |Exec(cfg, run).value.chats[c].prompts| == |cfg.conversations[c]|
    ensures Exec(cfg, run).value.chats[c].prompts[j].outputLen ==
      if j < |Answers(cfg, run, c)| then Answers(cfg, run, c)[j].outputLen else cfg.conversations[c][j].outputLen
  {
    ReachableTold(cfg, run, c);
  }

  // --- The prompt length a request reports ---

  function SumOf(lengths: seq<int>): int {
    if lengths == [] then 0 else SumOf(lengths[..|lengths| - 1]) + lengths[|lengths| - 1]
  }

  function InputLens(prompts: seq<Prompt>): seq<int> {
    seq(|prompts|, i requires 0 <= i < |prompts| => prompts[i].inputLen)
  }

  function OutputLens(prompts: seq<Prompt>): seq<int> {
    seq(|prompts|, i requires 0 <= i < |prompts| => prompts[i].outputLen)
  }

  // All inputs and all outputs of the earlier turns.
  lemma {:induction false} TokensCounted(prompts: seq<Prompt>, k: nat)
    requires k <= |prompts|
    ensures TokensBefore(prompts, k) == SumOf(InputLens(prompts[..k])) + SumOf(OutputLens(prompts[..k]))
  {
    if k > 0 {
      TokensCounted(prompts, k - 1);
      assert InputLens(prompts[..k])[..k - 1] == InputLens(prompts[..k - 1]);
      assert OutputLens(prompts[..k])[..k - 1] == OutputLens(prompts[..k - 1]);
    }
  }

  // --- First in, first drawn ---

  ghost function Returned(cfg: Config, run: seq<Label>): seq<nat>
    requires Exec(cfg, run).Some?
  {
    if run == [] then [] else Returned(cfg, run[..|run| - 1]) + ReturnedAt(Before(cfg, run), run[|run| - 1])
  }

  // An answered conversation with prompts left.
  function ReturnedAt(s: State, l: Label): seq<nat> {
    if l.Finish? && Playing(s, l.index) && MoreTurns(s, s.running[l.index]) then [s.running[l.index]] else []
  }

  ghost function Drawn(cfg: Config, run: seq<Label>): seq<nat>
    requires Exec(cfg, run).Some?
  {
    if run == [] then [] else Drawn(cfg, run[..|run| - 1]) + DrawnAt(Before(cfg, run), run[|run| - 1])
  }

  function DrawnAt(s: State, l: Label): seq<nat> {
    if l.Draw? && s.queue != [] then [s.queue[0]] else []
  }

  lemma {:induction false} StepQueue(cfg: Config, s: State, l: Label)
    requires Enabled(cfg, s, l)
    ensures s.queue + ReturnedAt(s, l) == DrawnAt(s, l) + Next(cfg, s, l).queue
  {
    if l.Draw? {
      assert s.queue == [s.queue[0]] + s.queue[1..];
    } else {
      assert DrawnAt(s, l) + Next(cfg, s, l).queue == Next(cfg, s, l).queue;
      assert ReturnedAt(s, l) == [] ==> s.queue + ReturnedAt(s, l) == s.queue;
    }
  }

  // Conversations are drawn in the order they joined the queue: all of them once, then those
  // that return, as they return.
  lemma {:induction false} DrawnInOrder(cfg: Config, run: seq<Label>)
    requires Exec(cfg, run).Some?
    ensures UpTo(|cfg.conversations|) + Returned(cfg, run) == Drawn(cfg, run) + Exec(cfg, run).value.queue
  {
    var first := UpTo(|cfg.conversations|);
    if run == [] {
      assert first + [] == first && [] + Init(cfg).queue == first;
    } else {
      var init, l := run[..|run| - 1], run[|run| - 1];
      var s := Exec(cfg, init).value;
      DrawnInOrder(cfg, init);
      StepQueue(cfg, s, l);
      Chain(first, Returned(cfg, init), ReturnedAt(s, l), Drawn(cfg, init), s.queue, DrawnAt(s, l), Exec(cfg, run).value.queue);
    }
  }

  lemma {:induction false} Chain(first: seq<nat>, back: seq<nat>, more: seq<nat>, drawn: seq<nat>, queue: seq<nat>,
                                 head: seq<nat>, rest: seq<nat>)
    requires first + back == drawn + queue && queue + more == head + rest
    ensures first + (back + more) == (drawn + head) + rest
  {
    assert first + (back + more) == (first + back) + more;
    assert (drawn + queue) + more == drawn + (queue + more);
    assert (drawn + head) + rest == drawn + (head + rest);
  }

  // --- The semaphore ---

  // Never more requests at once than the semaphore admits.
  lemma {:induction false} RunningBounded(cfg: Config, run: seq<Label>)
    requires Exec(cfg, run).Some? && cfg.limit.Some?
    ensures |Exec(cfg, run).value.running| <= cfg.limit.value
  {
    if run != [] { RunningBounded(cfg, run[..|run| - 1]); }
  }
}
