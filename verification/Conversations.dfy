// The serving benchmark's conversation protocol as a state machine: a producer draws
// conversations from a bounded queue, each worker plays one turn, and an unfinished
// conversation goes back to the end of the queue.
module Conversations {
  import opened Bags
  import opened Basics

  datatype Message = User(content: string) | Assistant(content: string)

  datatype Prompt = Prompt(content: string, inputLen: int, outputLen: int)

  // One conversation's mutable request record.
  datatype Chat = Chat(prompts: seq<Prompt>, finished: nat, messages: seq<Message>)

  // `stopped` is set once the producer has waited too long and drawn its last. `turns`, `sent`
  // and `abandoned` record the past: turns answered, per request sent its messages, and how
  // many conversations failed with prompts left to ask.
  datatype State = State(
    queue: seq<nat>, waiting: seq<nat>, running: seq<nat>, over: seq<nat>,
    chats: seq<Chat>, drawn: nat,
    turns: seq<nat>, sent: seq<seq<seq<Message>>>, abandoned: nat, stopped: bool)

  // `limit` is the semaphore's size, if there is one.
  datatype Config = Config(conversations: seq<seq<Prompt>>, limit: Option<nat>)

  datatype Label =
    | Draw
    | Start(index: nat)
    | Finish(index: nat, text: string, outputLen: int)
    | Fail(index: nat)
    | GiveUp

  // The number of draws the producer is given.
  function Requests(conversations: seq<seq<Prompt>>): nat {
    if conversations == [] then 0
    else Requests(conversations[..|conversations| - 1]) + |conversations[|conversations| - 1]|
  }

  // With a shared prefix every request becomes a conversation of its own.
  function Singletons(prompts: seq<Prompt>): seq<seq<Prompt>> {
    seq(|prompts|, i requires 0 <= i < |prompts| => [prompts[i]])
  }

  function AllPrompts(conversations: seq<seq<Prompt>>): seq<Prompt> {
    if conversations == [] then []
    else AllPrompts(conversations[..|conversations| - 1]) + conversations[|conversations| - 1]
  }

  function Split(conversations: seq<seq<Prompt>>): seq<seq<Prompt>> {
    if conversations == [] then []
    else Split(conversations[..|conversations| - 1]) + Singletons(conversations[|conversations| - 1])
  }

  function Init(cfg: Config): State {
    var n := |cfg.conversations|;
    State(UpTo(n), [], [], [],
          seq(n, i requires 0 <= i < n => Chat(cfg.conversations[i], 0, [])), 0,
          Repeat<nat>(n, 0), Repeat(n, []), 0, false)
  }

  predicate Known(s: State, c: nat) {
    c < |s.chats| == |s.turns| == |s.sent|
  }

  predicate CanStart(cfg: Config, s: State, i: nat) {
    && i < |s.waiting| && Known(s, s.waiting[i])
    && s.chats[s.waiting[i]].finished < |s.chats[s.waiting[i]].prompts|
    && (cfg.limit.Some? ==> |s.running| < cfg.limit.value)
  }

  predicate Playing(s: State, i: nat) {
    i < |s.running| && Known(s, s.running[i]) && s.chats[s.running[i]].finished < |s.chats[s.running[i]].prompts|
  }

  predicate MoreTurns(s: State, c: nat)
    requires c < |s.chats|
  {
    s.chats[c].finished + 1 < |s.chats[c].prompts|
  }

  // A full queue would block the put.
  predicate CanFinish(cfg: Config, s: State, i: nat) {
    Playing(s, i) && (MoreTurns(s, s.running[i]) ==> |s.queue| < |cfg.conversations|)
  }

  predicate Drawing(cfg: Config, s: State) {
    s.drawn < Requests(cfg.conversations) && !s.stopped
  }

  // The producer may give up waiting at any time the queue is empty.
  predicate Enabled(cfg: Config, s: State, l: Label) {
    match l
    case Draw => Drawing(cfg, s) && s.queue != []
    case Start(i) => CanStart(cfg, s, i)
    case Finish(i, _, _) => CanFinish(cfg, s, i)
    case Fail(i) => Playing(s, i)
    case GiveUp => Drawing(cfg, s) && s.queue == []
  }

  function AfterDraw(s: State): State
    requires s.queue != []
  {
    s.(queue := s.queue[1..], waiting := s.waiting + [s.queue[0]], drawn := s.drawn + 1)
  }

  // The user message joins the history, and the whole history is sent.
  function AfterStart(s: State, i: nat): State
    requires i < |s.waiting| && Known(s, s.waiting[i])
    requires s.chats[s.waiting[i]].finished < |s.chats[s.waiting[i]].prompts|
  {
    var c := s.waiting[i];
    var chat := s.chats[c];
    var messages := chat.messages + [User(chat.prompts[chat.finished].content)];
    s.(waiting := Drop(s.waiting, i), running := s.running + [c],
       chats := s.chats[c := chat.(messages := messages)], sent := s.sent[c := s.sent[c] + [messages]])
  }

  // The answered chat: its prompt takes the actual output length.
  function Answered(chat: Chat, text: string, outputLen: int): Chat
    requires chat.finished < |chat.prompts|
  {
    var k := chat.finished;
    Chat(chat.prompts[k := chat.prompts[k].(outputLen := outputLen)],
         if k + 1 < |chat.prompts| then k + 1 else k,
         chat.messages + [Assistant(text)])
  }

  function AfterFinish(s: State, i: nat, text: string, outputLen: int): State
    requires Playing(s, i)
  {
    var c := s.running[i];
    var more := MoreTurns(s, c);
    s.(running := Drop(s.running, i), turns := s.turns[c := s.turns[c] + 1],
       chats := s.chats[c := Answered(s.chats[c], text, outputLen)],
       queue := if more then s.queue + [c] else s.queue,
       over := if more then s.over else s.over + [c])
  }

  function AfterFail(s: State, i: nat): State
    requires Playing(s, i)
  {
    var c := s.running[i];
    s.(running := Drop(s.running, i), over := s.over + [c],
       abandoned := if MoreTurns(s, c) then s.abandoned + 1 else s.abandoned)
  }

  function Next(cfg: Config, s: State, l: Label): State
    requires Enabled(cfg, s, l)
  {
    match l
    case Draw => AfterDraw(s)
    case Start(i) => AfterStart(s, i)
    case Finish(i, text, outputLen) => AfterFinish(s, i, text, outputLen)
    case Fail(i) => AfterFail(s, i)
    case GiveUp => s.(stopped := true)
  }

  function Exec(cfg: Config, run: seq<Label>): Option<State> {
    if run == [] then Some(Init(cfg))
    else
      var before := Exec(cfg, run[..|run| - 1]);
      if before.Some? && Enabled(cfg, before.value, run[|run| - 1])
      then Some(Next(cfg, before.value, run[|run| - 1])) else None
  }

  // Tokens the server sees: all earlier turns with their actual outputs, and the new input.
  function TokensBefore(prompts: seq<Prompt>, k: nat): int
    requires k <= |prompts|
  {
    if k == 0 then 0 else TokensBefore(prompts, k - 1) + prompts[k - 1].inputLen + prompts[k - 1].outputLen
  }

  // The request record as asynchronous workers change it in place.
  class RequestFuncInput {
    var prompts: seq<Prompt>
    var prevMessages: seq<Message>
    var finishedPrompts: nat

    constructor (prompts: seq<Prompt>)
      ensures View() == Chat(prompts, 0, [])
    {
      this.prompts, prevMessages, finishedPrompts := prompts, [], 0;
    }

    function View(): Chat
      reads this
    {
      Chat(prompts, finishedPrompts, prevMessages)
    }

    // Appends the next user message; an exhausted record raises IndexError before anything changes.
    method Ask() returns (r: Result<(seq<Message>, int)>)
      modifies this`prevMessages
      ensures r.Err? <==> finishedPrompts >= |prompts|
      ensures r.Err? ==> View() == old(View())
      ensures r.Ok? ==>
        && prevMessages == old(prevMessages) + [User(prompts[finishedPrompts].content)]
        && View() == old(View()).(messages := prevMessages)
        && r.value == (prevMessages, TokensBefore(prompts, finishedPrompts) + prompts[finishedPrompts].inputLen)
    {
      if finishedPrompts >= |prompts| { return Err("IndexError"); }
      var promptLen := 0;
      for k := 0 to finishedPrompts
        invariant promptLen == TokensBefore(prompts, k)
      {
        promptLen := promptLen + (prompts[k].inputLen + prompts[k].outputLen);
      }
      promptLen := promptLen + prompts[finishedPrompts].inputLen;
      prevMessages := prevMessages + [User(prompts[finishedPrompts].content)];
      return Ok((prevMessages, promptLen));
    }

    // A successful response; `again` says whether the record goes back to the queue.
    method Answer(text: string, outputLen: int) returns (again: bool)
      requires finishedPrompts < |prompts|
      modifies this
      ensures View() == Answered(old(View()), text, outputLen)
      ensures again == (old(finishedPrompts) + 1 < |prompts|)
      ensures prevMessages == old(prevMessages) + [Assistant(text)]
      ensures |prompts| == |old(prompts)| && finishedPrompts == old(finishedPrompts) + if again then 1 else 0
      ensures forall j :: 0 <= j < |prompts| ==>
        prompts[j] == if j == old(finishedPrompts) then old(prompts)[j].(outputLen := outputLen) else old(prompts)[j]
    {
      var k := finishedPrompts;
      prompts := prompts[k := prompts[k].(outputLen := outputLen)];
      prevMessages := prevMessages + [Assistant(text)];
      again := k + 1 < |prompts|;
      if again { finishedPrompts := k + 1; }
    }
  }
}
