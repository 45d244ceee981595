// The chat filter: prunes turns by length and repeats the surviving chats until enough
// requests are collected.
module ChatFilter {
  import opened Basics

  // A question and answer with their token counts.
  datatype Turn = Turn(prompt: string, promptLen: int, completionLen: int)

  datatype Request = Request(prompt: string, promptLen: int, outputLen: int)

  datatype Limits = Limits(
    minPrompt: Option<int>, minOutput: Option<int>, maxPrompt: Option<int>, maxOutput: Option<int>,
    fixedOutput: Option<int>)

  function OutputLen(limits: Limits, t: Turn): int {
    if limits.fixedOutput.None? then t.completionLen else limits.fixedOutput.value
  }

  predicate Pruned(limits: Limits, t: Turn) {
    || (limits.minPrompt.Some? && t.promptLen < limits.minPrompt.value)
    || (limits.minOutput.Some? && OutputLen(limits, t) < limits.minOutput.value)
    || (limits.maxPrompt.Some? && t.promptLen > limits.maxPrompt.value)
    || (limits.maxOutput.Some? && OutputLen(limits, t) > limits.maxOutput.value)
  }

  function Processed(limits: Limits, chat: seq<Turn>): seq<Request> {
    if chat == [] then []
    else
      var init, t := Processed(limits, chat[..|chat| - 1]), chat[|chat| - 1];
      if Pruned(limits, t) then init else init + [Request(t.prompt, t.promptLen, OutputLen(limits, t))]
  }

  // The chats that keep a turn, in order.
  function Survivors(limits: Limits, chats: seq<seq<Turn>>): seq<seq<Request>> {
    if chats == [] then []
    else
      var init, last := Survivors(limits, chats[..|chats| - 1]), Processed(limits, chats[|chats| - 1]);
      if last == [] then init else init + [last]
  }

  // --- What is kept, by position ---

  ghost predicate WithinLimits(limits: Limits, t: Turn) {
    var length := match limits.fixedOutput case None => t.completionLen case Some(n) => n;
    && (limits.minPrompt.Some? ==> limits.minPrompt.value <= t.promptLen)
    && (limits.maxPrompt.Some? ==> t.promptLen <= limits.maxPrompt.value)
    && (limits.minOutput.Some? ==> limits.minOutput.value <= length)
    && (limits.maxOutput.Some? ==> length <= limits.maxOutput.value)
  }

  // The request made of a turn: its prompt, its length, and the fixed or the actual output length.
  ghost predicate MadeFrom(limits: Limits, t: Turn, r: Request) {
    && r.prompt == t.prompt && r.promptLen == t.promptLen
    && (limits.fixedOutput.Some? ==> r.outputLen == limits.fixedOutput.value)
    && (limits.fixedOutput.None? ==> r.outputLen == t.completionLen)
  }

  // The requests are made of exactly the turns within the limits, in order.
  ghost predicate KeepsExactly(limits: Limits, chat: seq<Turn>, requests: seq<Request>) {
    exists at: seq<nat> :: KeptAt(limits, chat, requests, at)
  }

  ghost predicate KeptAt(limits: Limits, chat: seq<Turn>, requests: seq<Request>, at: seq<nat>) {
    && Increasing(at) && (forall j: nat :: j in at <==> j < |chat| && WithinLimits(limits, chat[j]))
    && |at| == |requests| && forall k :: 0 <= k < |at| ==> at[k] < |chat| && MadeFrom(limits, chat[at[k]], requests[k])
  }

  lemma {:induction false} KeptPositions(limits: Limits, chat: seq<Turn>) returns (at: seq<nat>)
    ensures KeptAt(limits, chat, Processed(limits, chat), at)
  {
    if chat == [] {
      at := [];
    } else {
      var last := |chat| - 1;
      at := KeptPositions(limits, chat[..last]);
      if !Pruned(limits, chat[last]) {
        OneMoreKept(at, last);
        at := at + [last];
      }
    }
  }

  lemma {:induction false} OneMoreKept(at: seq<nat>, last: nat)
    requires Increasing(at) && forall j :: j in at ==> j < last
    ensures Increasing(at + [last]) && forall j :: j in at + [last] <==> j in at || j == last
  {
    forall i, j | 0 <= i < j < |at + [last]| ensures (at + [last])[i] < (at + [last])[j] {
      if j == |at| { assert at[i] in at; }
    }
  }

  ghost predicate KeepsSome(limits: Limits, chat: seq<Turn>) {
    exists j :: 0 <= j < |chat| && WithinLimits(limits, chat[j])
  }

  lemma {:induction false} ProcessedMeaning(limits: Limits, chat: seq<Turn>)
    ensures KeepsExactly(limits, chat, Processed(limits, chat))
    ensures Processed(limits, chat) != [] <==> KeepsSome(limits, chat)
  {
    var at := KeptPositions(limits, chat);
    if at != [] { assert at[0] in at; }
  }

  // The chats with a turn within the limits, in order, each reduced to those turns.
  ghost predicate ChatsKeptAt(limits: Limits, chats: seq<seq<Turn>>, kept: seq<seq<Request>>, at: seq<nat>) {
    && Increasing(at) && (forall j: nat :: j in at <==> j < |chats| && KeepsSome(limits, chats[j]))
    && |at| == |kept| && forall k :: 0 <= k < |at| ==> at[k] < |chats| && KeepsExactly(limits, chats[at[k]], kept[k])
  }

  lemma {:induction false} SurvivorPositions(limits: Limits, chats: seq<seq<Turn>>) returns (at: seq<nat>)
    ensures ChatsKeptAt(limits, chats, Survivors(limits, chats), at)
  {
    if chats == [] {
      at := [];
    } else {
      var last := |chats| - 1;
      at := SurvivorPositions(limits, chats[..last]);
      ProcessedMeaning(limits, chats[last]);
      SurvivorsNext(limits, chats, last);
      assert chats[..last + 1] == chats;
      if Processed(limits, chats[last]) != [] { OneMoreKept(at, last); }
      at := OneMoreChat(limits, chats, Survivors(limits, chats[..last]), Processed(limits, chats[last]), at);
    }
  }

  lemma {:induction false} OneMoreChat(limits: Limits, chats: seq<seq<Turn>>, kept: seq<seq<Request>>, last: seq<Request>, at: seq<nat>)
    returns (more: seq<nat>)
    requires chats != [] && ChatsKeptAt(limits, chats[..|chats| - 1], kept, at)
    requires KeepsExactly(limits, chats[|chats| - 1], last) && (last != [] <==> KeepsSome(limits, chats[|chats| - 1]))
    ensures ChatsKeptAt(limits, chats, kept + (if last == [] then [] else [last]), more)
  {
    var n := |chats| - 1;
    forall k | 0 <= k < |at| ensures at[k] < n && chats[..n][at[k]] == chats[at[k]] { assert at[k] in at; }
    if last == [] {
      more := at;
      assert kept + [] == kept;
    } else {
      OneMoreKept(at, n);
      more := at + [n];
    }
    forall j: nat ensures j in more <==> j < |chats| && KeepsSome(limits, chats[j]) {
      if j < n { assert chats[..n][j] == chats[j]; }
    }
  }

  // The survivors over and over, cut to n chats.
  function Cycle(s: seq<seq<Request>>, n: nat): seq<seq<Request>>
    requires s != []
    decreases n
  {
    if n <= |s| then s[..n] else s + Cycle(s, n - |s|)
  }

  function Times(s: seq<seq<Request>>, q: nat): seq<seq<Request>> {
    if q == 0 then [] else s + Times(s, q - 1)
  }

  function InputTokens(rs: seq<Request>): int {
    if rs == [] then 0 else InputTokens(rs[..|rs| - 1]) + rs[|rs| - 1].promptLen
  }

  function OutputTokens(rs: seq<Request>): int {
    if rs == [] then 0 else OutputTokens(rs[..|rs| - 1]) + rs[|rs| - 1].outputLen
  }

  function AllInput(chats: seq<seq<Request>>): int {
    if chats == [] then 0 else AllInput(chats[..|chats| - 1]) + InputTokens(chats[|chats| - 1])
  }

  function AllOutput(chats: seq<seq<Request>>): int {
    if chats == [] then 0 else AllOutput(chats[..|chats| - 1]) + OutputTokens(chats[|chats| - 1])
  }

  // Whole passes and a part of the next.
  lemma {:induction false} CycleByPasses(s: seq<seq<Request>>, q: nat, t: nat)
    requires s != [] && t <= |s| && (q > 0 ==> t > 0)
    ensures Cycle(s, |Times(s, q)| + t) == Times(s, q) + s[..t]
  {
    if q > 0 {
      if q > 1 {
        CycleByPasses(s, q - 1, t);
      }
      assert Times(s, q) + s[..t] == s + (Times(s, q - 1) + s[..t]);
    }
  }

  lemma {:induction false} RemainderShift(k: nat, n: nat)
    requires 0 < n <= k
    ensures (k - n) % n == k % n
  {
    assert k == n * (k / n) + k % n;
    assert k - n == n * (k / n - 1) + k % n;
    RemainderUnique(k - n, n, k / n - 1, k % n);
  }

  lemma {:induction false} MultipleBeyond(n: nat, d: int)
    ensures d >= 1 ==> n * d >= n
    ensures d <= -1 ==> n * d <= -(n as int)
  {
  }

  lemma {:induction false} RemainderUnique(x: nat, n: nat, q: int, r: nat)
    requires 0 < n && x == n * q + r && r < n
    ensures x % n == r
  {
    var d := q - x / n;
    assert n * d == x % n - r;
    MultipleBeyond(n, d);
  }

  // Place k of the output holds survivor k modulo their number.
  lemma {:induction false} CycleAt(s: seq<seq<Request>>, n: nat, k: nat)
    requires s != [] && k < n
    ensures |Cycle(s, n)| == n && Cycle(s, n)[k] == s[k % |s|]
    decreases n
  {
    CycleLength(s, n);
    if k >= |s| {
      CycleAt(s, n - |s|, k - |s|);
      RemainderShift(k, |s|);
      assert Cycle(s, n) == s + Cycle(s, n - |s|);
    } else {
      RemainderUnique(k, |s|, 0, k);
    }
  }

  lemma {:induction false} CycleLength(s: seq<seq<Request>>, n: nat)
    requires s != []
    ensures |Cycle(s, n)| == n
    decreases n
  {
    if n > |s| { CycleLength(s, n - |s|); }
  }

  lemma {:induction false} OneMorePass(s: seq<seq<Request>>, q: nat)
    ensures Times(s, q) + s == Times(s, q + 1)
  {
    if q > 0 {
      OneMorePass(s, q - 1);
      assert Times(s, q) + s == s + (Times(s, q - 1) + s);
    }
  }

  method ProcessChat(limits: Limits, chat: seq<Turn>) returns (processed: seq<Request>, input: int, output: int)
    ensures processed == Processed(limits, chat)
    ensures input == InputTokens(processed) && output == OutputTokens(processed)
  {
    processed, input, output := [], 0, 0;
    for k := 0 to |chat|
      invariant processed == Processed(limits, chat[..k])
      invariant input == InputTokens(processed) && output == OutputTokens(processed)
    {
      var t := chat[k];
      assert chat[..k + 1][..k] == chat[..k];
      if Pruned(limits, t) { continue; }
      input := input + t.promptLen;
      output := output + OutputLen(limits, t);
      processed := processed + [Request(t.prompt, t.promptLen, OutputLen(limits, t))];
    }
    assert chat[..|chat|] == chat;
  }

  lemma {:induction false} SurvivorsPrefix(limits: Limits, chats: seq<seq<Turn>>, i: nat)
    requires i <= |chats|
    ensures Survivors(limits, chats[..i]) <= Survivors(limits, chats)
    decreases |chats| - i
  {
    if i == |chats| {
      assert chats[..i] == chats;
    } else {
      SurvivorsPrefix(limits, chats, i + 1);
      assert chats[..i + 1][..i] == chats[..i];
    }
  }

  // One pass over the dataset, stopping at n chats.
  method Pass(limits: Limits, chats: seq<seq<Turn>>, n: nat, filtered: seq<seq<Request>>, input: int, output: int)
    returns (filtered': seq<seq<Request>>, input': int, output': int, ghost t: nat)
    requires |filtered| < n && input == AllInput(filtered) && output == AllOutput(filtered)
    ensures t <= |Survivors(limits, chats)| && filtered' == filtered + Survivors(limits, chats)[..t]
    ensures |filtered'| == n || (|filtered'| < n && t == |Survivors(limits, chats)|)
    ensures |filtered'| == NextCount(n, |Survivors(limits, chats)|, |filtered|)
    ensures input' == AllInput(filtered') && output' == AllOutput(filtered')
  {
    filtered', input', output', t := filtered, input, output, 0;
    ghost var kept := [];
    for i := 0 to |chats|
      invariant |filtered'| <= n && t == |kept| && filtered' == filtered + kept
      invariant kept == Survivors(limits, chats[..i])
      invariant input' == AllInput(filtered') && output' == AllOutput(filtered')
    {
      if |filtered'| == n {
        SurvivorsPrefix(limits, chats, i);
        return;
      }
      var processed, addedIn, addedOut := ProcessChat(limits, chats[i]);
      SurvivorsNext(limits, chats, i);
      if |processed| != 0 {
        TotalsSnoc(filtered', processed);
        filtered', t := filtered' + [processed], t + 1;
        kept := kept + [processed];
      }
      input', output' := input' + addedIn, output' + addedOut;
    }
    assert chats[..|chats|] == chats && kept[..t] == kept;
  }

  lemma {:induction false} SurvivorsNext(limits: Limits, chats: seq<seq<Turn>>, i: nat)
    requires i < |chats|
    ensures Survivors(limits, chats[..i + 1]) ==
      Survivors(limits, chats[..i]) + if Processed(limits, chats[i]) == [] then [] else [Processed(limits, chats[i])]
  {
    assert chats[..i + 1][..i] == chats[..i];
  }

  // The token counts are sums over the requests.
  lemma {:induction false} TokenSums(requests: seq<Request>, r: Request)
    ensures InputTokens([]) == OutputTokens([]) == 0 && AllInput([]) == AllOutput([]) == 0
    ensures InputTokens(requests + [r]) == InputTokens(requests) + r.promptLen
    ensures OutputTokens(requests + [r]) == OutputTokens(requests) + r.outputLen
  {
    assert (requests + [r])[..|requests|] == requests;
  }

  lemma {:induction false} TotalsSnoc(filtered: seq<seq<Request>>, processed: seq<Request>)
    ensures AllInput(filtered + [processed]) == AllInput(filtered) + InputTokens(processed)
    ensures AllOutput(filtered + [processed]) == AllOutput(filtered) + OutputTokens(processed)
  {
    assert (filtered + [processed])[..|filtered|] == filtered;
  }

  // Exactly the first n survivors in cyclic order, with their token totals. Called where
  // the loop ends, which TerminatesIff characterises.
  method CommonFilterChat(numRequests: int, limits: Limits, chats: seq<seq<Turn>>)
    returns (filtered: seq<seq<Request>>, input: int, output: int)
    requires Terminates(numRequests, limits, chats)
    ensures numRequests <= 0 ==> filtered == []
    ensures numRequests > 0 ==>
      Survivors(limits, chats) != [] && |filtered| == numRequests && filtered == Cycle(Survivors(limits, chats), numRequests)
    ensures numRequests > 0 ==>
      forall k :: 0 <= k < numRequests ==> filtered[k] == Survivors(limits, chats)[k % |Survivors(limits, chats)|]
    ensures input == AllInput(filtered) && output == AllOutput(filtered)
  {
    filtered, input, output := [], 0, 0;
    ghost var s, q := Survivors(limits, chats), 0;
    TerminatesIff(numRequests, limits, chats);
    while |filtered| < numRequests
      invariant numRequests <= 0 ==> filtered == []
      invariant |filtered| < numRequests ==> filtered == Times(s, q)
      invariant numRequests > 0 && |filtered| >= numRequests ==> |filtered| == numRequests && filtered == Cycle(s, numRequests)
      invariant input == AllInput(filtered) && output == AllOutput(filtered)
    {
      ghost var t;
      filtered, input, output, t := Pass(limits, chats, numRequests, filtered, input, output);
      if |filtered| < numRequests {
        assert s[..t] == s;
        OneMorePass(s, q);
        q := q + 1;
      } else {
        CycleByPasses(s, q, t);
      }
    }
    if numRequests > 0 {
      forall k | 0 <= k < numRequests ensures filtered[k] == s[k % |s|] { CycleAt(s, numRequests, k); }
    }
  }

  // Place k holds the chat at place k modulo their number among the chats with a turn within
  // the limits, reduced to those turns.
  lemma {:induction false} FilteredMeaning(limits: Limits, chats: seq<seq<Turn>>, n: nat) returns (at: seq<nat>)
    requires Survivors(limits, chats) != []
    ensures at != [] && ChatsKeptAt(limits, chats, Survivors(limits, chats), at)
    ensures |Cycle(Survivors(limits, chats), n)| == n
    ensures forall k :: 0 <= k < n ==>
      at[k % |at|] < |chats| && KeepsExactly(limits, chats[at[k % |at|]], Cycle(Survivors(limits, chats), n)[k])
  {
    var s := Survivors(limits, chats);
    at := SurvivorPositions(limits, chats);
    CycleLength(s, n);
    forall k | 0 <= k < n ensures at[k % |at|] < |chats| && KeepsExactly(limits, chats[at[k % |at|]], Cycle(s, n)[k]) {
      CycleAt(s, n, k);
    }
  }

  // --- Termination ---

  // What one pass makes of a count of l chats.
  function NextCount(numRequests: int, survivors: nat, l: int): int {
    if l >= numRequests then l else if l + survivors > numRequests then numRequests else l + survivors
  }

  // Chats collected after k passes of the outer loop.
  function CollectedAfter(numRequests: int, survivors: nat, k: nat): int {
    if k == 0 then 0 else NextCount(numRequests, survivors, CollectedAfter(numRequests, survivors, k - 1))
  }

  ghost predicate Terminates(numRequests: int, limits: Limits, chats: seq<seq<Turn>>) {
    exists k: nat :: CollectedAfter(numRequests, |Survivors(limits, chats)|, k) >= numRequests
  }

  // The loop ends exactly when nothing is asked for or some chat keeps a turn.
  lemma {:induction false} TerminatesIff(numRequests: int, limits: Limits, chats: seq<seq<Turn>>)
    ensures Terminates(numRequests, limits, chats) <==> numRequests <= 0 || Survivors(limits, chats) != []
    ensures Survivors(limits, chats) != [] <==> exists j :: 0 <= j < |chats| && KeepsSome(limits, chats[j])
  {
    var at := SurvivorPositions(limits, chats);
    if at != [] { assert at[0] in at; }
    var m := |Survivors(limits, chats)|;
    if numRequests <= 0 {
      assert CollectedAfter(numRequests, m, 0) >= numRequests;
    } else if m > 0 {
      Grows(numRequests, m, numRequests);
      assert CollectedAfter(numRequests, m, numRequests) >= numRequests;
    } else {
      forall k: nat ensures CollectedAfter(numRequests, m, k) < numRequests { Stays(numRequests, k); }
    }
  }

  lemma {:induction false} Grows(numRequests: int, m: nat, k: nat)
    requires m > 0 && k <= numRequests
    ensures CollectedAfter(numRequests, m, k) >= k
  {
    if k > 0 { Grows(numRequests, m, k - 1); }
  }

  lemma {:induction false} Stays(numRequests: int, k: nat)
    requires numRequests > 0
    ensures CollectedAfter(numRequests, 0, k) == 0
  {
    if k > 0 { Stays(numRequests, k - 1); }
  }
}
