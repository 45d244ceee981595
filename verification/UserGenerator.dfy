// The user generator of the mixed benchmark: users are drawn, served and queued for their
// next round, with per-round statistics kept on the side.
module UserGenerator {
  import opened Bags

  datatype User = User(currentRound: nat, totalRounds: nat, start: real)

  // --- The queue of users waiting for their next round ---

  ghost predicate SortedByStart(starts: seq<real>) {
    forall i, j :: 0 <= i < j < |starts| ==> starts[i] <= starts[j]
  }

  // Where the newcomer goes: before the first later start, else before the last element.
  function Slot(starts: seq<real>, start: real): (idx: nat)
    ensures idx <= |starts| && (starts != [] ==> idx < |starts|)
    ensures forall k :: 0 <= k < idx ==> starts[k] <= start
    ensures starts != [] && starts[idx] <= start ==> idx == |starts| - 1
  {
    if |starts| <= 1 || start < starts[0] then 0 else 1 + Slot(starts[1..], start)
  }

  function Inserted<T>(queue: seq<T>, idx: nat, x: T): seq<T>
    requires idx <= |queue|
  {
    queue[..idx] + [x] + queue[idx..]
  }

  // The queue stays sorted exactly when it was empty or the newcomer is not the latest.
  lemma {:induction false} SortedIffNotLatest(starts: seq<real>, start: real)
    requires SortedByStart(starts)
    ensures SortedByStart(Inserted(starts, Slot(starts, start), start)) <==> starts == [] || start <= starts[|starts| - 1]
  {
    var idx := Slot(starts, start);
    var after := Inserted(starts, idx, start);
    if starts != [] {
      assert after[idx] == start && after[idx + 1] == starts[idx];
      if start <= starts[|starts| - 1] {
        assert start <= starts[idx];
        forall k | 0 <= k < |after| ensures after[k] == if k < idx then starts[k] else if k == idx then start else starts[k - 1] {
        }
      }
    }
  }

  // Queueing adds exactly the newcomer.
  lemma {:induction false} InsertedContents<T>(queue: seq<T>, idx: nat, x: T)
    requires idx <= |queue|
    ensures multiset(Inserted(queue, idx, x)) == multiset(queue) + multiset{x}
  {
    assert queue == queue[..idx] + queue[idx..];
  }

  // When each queued user is due; every queued user is known.
  function StartsOf(users: map<nat, User>, queue: seq<nat>): (starts: seq<real>)
    ensures |starts| == |queue| && forall i :: 0 <= i < |queue| && queue[i] in users ==> starts[i] == users[queue[i]].start
  {
    seq(|queue|, i requires 0 <= i < |queue| => if queue[i] in users then users[queue[i]].start else 0.0)
  }

  // The search of push: idx ends on the element that stopped it, or on the last one.
  method FindSlot(users: map<nat, User>, queue: seq<nat>, start: real) returns (idx: nat)
    requires queue != [] && forall u :: u in queue ==> u in users
    ensures idx == Slot(StartsOf(users, queue), start)
  {
    idx := 0;
    ghost var starts := StartsOf(users, queue);
    while idx < |queue| - 1
      invariant 0 <= idx < |queue| && forall k :: 0 <= k < idx ==> starts[k] <= start
    {
      assert queue[idx] in queue;
      if start < users[queue[idx]].start { break; }
      idx := idx + 1;
    }
    SlotUnique(starts, start, idx);
  }

  lemma {:induction false} SlotUnique(starts: seq<real>, start: real, idx: nat)
    requires idx < |starts| && (forall k :: 0 <= k < idx ==> starts[k] <= start)
    requires starts[idx] <= start ==> idx == |starts| - 1
    ensures Slot(starts, start) == idx
  {
  }

  // --- How many rounds a new user gets ---

  // The first cumulative ratio above the draw decides; none above gives the most rounds.
  function RoundsFor(cumulative: seq<int>, draw: int): (rounds: nat)
    ensures rounds <= |cumulative|
    ensures forall k :: 0 <= k < rounds - 1 ==> cumulative[k] <= draw
    ensures 0 < rounds && cumulative[rounds - 1] <= draw ==> rounds == |cumulative|
    ensures cumulative != [] ==> rounds > 0
  {
    if |cumulative| <= 1 || draw < cumulative[0] then (if cumulative == [] then 0 else 1)
    else 1 + RoundsFor(cumulative[1..], draw)
  }

  // --- Statistics ---

  // Users in `ids` whose current round is r.
  function AtRound(users: map<nat, User>, ids: set<nat>, r: nat): set<nat>
    requires ids <= users.Keys
  {
    set u | u in ids && users[u].currentRound == r
  }

  // The first round count whose cumulative ratio exceeds the draw, or the last one.
  method DrawRounds(cumulative: seq<int>, draw: int) returns (i: nat)
    requires cumulative != []
    ensures 1 <= i <= |cumulative| && i == RoundsFor(cumulative, draw)
  {
    i := |cumulative|;
    var idx := 0;
    while idx < |cumulative|
      invariant 0 <= idx <= |cumulative| == i && forall k :: 0 <= k < idx ==> cumulative[k] <= draw
    {
      if draw < cumulative[idx] {
        i := idx + 1;
        break;
      }
      idx := idx + 1;
    }
    RoundsUnique(cumulative, draw, i);
  }

  // Users that were given n rounds.
  function WithRounds(users: map<nat, User>, n: nat): set<nat> {
    set u | u in users && users[u].totalRounds == n
  }

  // Entry r counts the users ever generated with r + 1 rounds, and the entries sum to all users.
  ghost predicate Tallied(users: map<nat, User>, nextId: nat, stats: seq<nat>) {
    Sum(stats) == nextId && forall r :: 0 <= r < |stats| ==> stats[r] == |WithRounds(users, r + 1)|
  }

  lemma {:induction false} TallyMoved(users: map<nat, User>, nextId: nat, stats: seq<nat>, u: nat, user: User)
    requires Tallied(users, nextId, stats) && u in users && user.totalRounds == users[u].totalRounds
    ensures Tallied(users[u := user], nextId, stats)
  {
    forall r | 0 <= r < |stats| ensures stats[r] == |WithRounds(users[u := user], r + 1)| {
      assert WithRounds(users[u := user], r + 1) == WithRounds(users, r + 1);
    }
  }

  lemma {:induction false} WithRoundsAdded(users: map<nat, User>, u: nat, user: User, n: nat)
    requires u !in users
    ensures |WithRounds(users[u := user], n)| == |WithRounds(users, n)| + if n == user.totalRounds then 1 else 0
  {
    assert WithRounds(users[u := user], n) == WithRounds(users, n) + if n == user.totalRounds then {u} else {};
  }

  lemma {:induction false} TallyAdded(users: map<nat, User>, nextId: nat, stats: seq<nat>, user: User)
    requires Tallied(users, nextId, stats) && nextId !in users && 1 <= user.totalRounds <= |stats|
    ensures var r := user.totalRounds - 1; Tallied(users[nextId := user], nextId + 1, stats[r := stats[r] + 1])
  {
    SumUpdate(stats, user.totalRounds - 1, stats[user.totalRounds - 1] + 1);
    forall r | 0 <= r < |stats|
      ensures |WithRounds(users[nextId := user], r + 1)| == stats[r] + if r + 1 == user.totalRounds then 1 else 0
    {
      WithRoundsAdded(users, nextId, user, r + 1);
    }
  }

  // Per round, sent requests are those answered plus the users now in it.
  ghost predicate Accounted(users: map<nat, User>, active: set<nat>, input: seq<nat>, output: seq<nat>)
    requires active <= users.Keys
  {
    |input| == |output| && forall r :: 0 <= r < |input| ==> input[r] == output[r] + |AtRound(users, active, r)|
  }

  lemma {:induction false} MovingStats(users: map<nat, User>, active: set<nat>, u: nat, user: User,
                                       input: seq<nat>, output: seq<nat>)
    requires active <= users.Keys && u in active && Accounted(users, active, input, output)
    requires user.currentRound == users[u].currentRound + 1 < |input|
    ensures var q := users[u].currentRound;
      Accounted(users[u := user], active, input[q + 1 := input[q + 1] + 1], output[q := output[q] + 1])
  {
    MovingCounts(users, active, u, user, |input|);
  }

  lemma {:induction false} NewUserStats(users: map<nat, User>, active: set<nat>, u: nat, user: User,
                                        input: seq<nat>, output: seq<nat>)
    requires active <= users.Keys && u !in users && Accounted(users, active, input, output)
    requires user.currentRound == 0 < |input|
    ensures Accounted(users[u := user], active + {u}, input[0 := input[0] + 1], output)
  {
    NewUserCounts(users, active, u, user, |input|);
  }

  // Active users have rounds left to play.
  ghost predicate UsersFit(users: map<nat, User>, nextId: nat, numRounds: nat, active: set<nat>, serving: set<nat>) {
    && (forall u :: u in users ==> u < nextId && users[u].totalRounds <= numRounds)
    && active <= users.Keys && serving <= active
    && (forall u :: u in active ==> users[u].currentRound < users[u].totalRounds)
  }

  lemma {:induction false} UserMoved(users: map<nat, User>, nextId: nat, numRounds: nat, active: set<nat>,
                                     serving: set<nat>, u: nat, user: User)
    requires UsersFit(users, nextId, numRounds, active, serving) && u in serving
    requires user.currentRound < user.totalRounds <= numRounds
    ensures UsersFit(users[u := user], nextId, numRounds, active, serving - {u})
  {
  }

  lemma {:induction false} UserAdded(users: map<nat, User>, numRounds: nat, active: set<nat>,
                                     serving: set<nat>, queue: seq<nat>, u: nat, user: User)
    requires UsersFit(users, u, numRounds, active, serving) && QueueFits(queue, active, serving)
    requires user.currentRound < user.totalRounds <= numRounds
    ensures UsersFit(users[u := user], u + 1, numRounds, active + {u}, serving + {u})
    ensures QueueFits(queue, active + {u}, serving + {u}) && u !in users
  {
  }

  // The queue holds each waiting user once.
  ghost predicate QueueFits(queue: seq<nat>, active: set<nat>, serving: set<nat>) {
    && (forall u :: u in queue <==> u in active && u !in serving)
    && (forall i, j :: 0 <= i < j < |queue| ==> queue[i] != queue[j])
  }

  // What the generator keeps about its users, its queue and its statistics.
  ghost predicate Consistent(numRounds: nat, nextId: nat, users: map<nat, User>, queue: seq<nat>, userStats: seq<nat>,
                             inputStats: seq<nat>, outputStats: seq<nat>, active: set<nat>, serving: set<nat>) {
    && |userStats| == |inputStats| == |outputStats| == numRounds
    && UsersFit(users, nextId, numRounds, active, serving)
    && QueueFits(queue, active, serving)
    && Accounted(users, active, inputStats, outputStats)
    && Tallied(users, nextId, userStats)
  }

  lemma {:induction false} Booked(numRounds: nat, u: nat, users: map<nat, User>, queue: seq<nat>, userStats: seq<nat>,
                                  inputStats: seq<nat>, outputStats: seq<nat>, active: set<nat>, serving: set<nat>, i: nat)
    requires Consistent(numRounds, u, users, queue, userStats, inputStats, outputStats, active, serving)
    requires 1 <= i <= numRounds
    ensures Consistent(numRounds, u + 1, users[u := User(0, i, 0.0)], queue, userStats[i - 1 := userStats[i - 1] + 1],
                       inputStats[0 := inputStats[0] + 1], outputStats, active + {u}, serving + {u})
  {
    var user := User(0, i, 0.0);
    UserAdded(users, numRounds, active, serving, queue, u, user);
    NewUserStats(users, active, u, user, inputStats, outputStats);
    TallyAdded(users, u, userStats, user);
  }

  lemma {:induction false} Requeued(numRounds: nat, nextId: nat, users: map<nat, User>, queue: seq<nat>, userStats: seq<nat>,
                                    inputStats: seq<nat>, outputStats: seq<nat>, active: set<nat>, serving: set<nat>,
                                    u: nat, newStart: real, longer: seq<nat>)
    requires Consistent(numRounds, nextId, users, queue, userStats, inputStats, outputStats, active, serving)
    requires u in serving && users[u].currentRound + 1 < users[u].totalRounds && QueueFits(longer, active, serving - {u})
    ensures var r, n := users[u].currentRound, users[u].totalRounds;
      Consistent(numRounds, nextId, users[u := User(r + 1, n, newStart)], longer, userStats,
                 inputStats[r + 1 := inputStats[r + 1] + 1], outputStats[r := outputStats[r] + 1], active, serving - {u})
  {
    var user := User(users[u].currentRound + 1, users[u].totalRounds, newStart);
    UserMoved(users, nextId, numRounds, active, serving, u, user);
    MovingStats(users, active, u, user, inputStats, outputStats);
    TallyMoved(users, nextId, userStats, u, user);
  }

  // --- Token sums ---

  // Tokens of the entries of round r in a log of (round, tokens).
  function TokensIn(log: seq<(nat, int)>, r: nat): int {
    if log == [] then 0 else TokensIn(log[..|log| - 1], r) + if log[|log| - 1].0 == r then log[|log| - 1].1 else 0
  }

  function EntriesIn(log: seq<(nat, int)>, r: nat): nat {
    if log == [] then 0 else EntriesIn(log[..|log| - 1], r) + if log[|log| - 1].0 == r then 1 else 0
  }

  // Both columns of a statistic are what the log of all entries amounts to.
  ghost predicate Ledger(tokens: seq<int>, counts: seq<nat>, log: seq<(nat, int)>) {
    && |tokens| == |counts|
    && forall r :: 0 <= r < |counts| ==> tokens[r] == TokensIn(log, r) && counts[r] == EntriesIn(log, r)
  }

  lemma {:induction false} LogSnoc(log: seq<(nat, int)>, q: nat, n: int, r: nat)
    ensures TokensIn(log + [(q, n)], r) == TokensIn(log, r) + if q == r then n else 0
    ensures EntriesIn(log + [(q, n)], r) == EntriesIn(log, r) + if q == r then 1 else 0
  {
    assert (log + [(q, n)])[..|log|] == log;
  }

  lemma {:induction false} LedgerGrows(tokens: seq<int>, counts: seq<nat>, log: seq<(nat, int)>, q: nat, n: int)
    requires Ledger(tokens, counts, log) && q < |counts|
    ensures Ledger(tokens[q := tokens[q] + n], counts[q := counts[q] + 1], log + [(q, n)])
  {
    forall r | 0 <= r < |counts|
      ensures tokens[q := tokens[q] + n][r] == TokensIn(log + [(q, n)], r)
      ensures counts[q := counts[q] + 1][r] == EntriesIn(log + [(q, n)], r)
    {
      LogSnoc(log, q, n, r);
    }
  }

  lemma {:induction false} EmptyLedger(n: nat)
    ensures Ledger(Repeat<int>(n, 0), Repeat<nat>(n, 0), [])
  {
  }

  class Generator {
    const numRounds: nat
    const cumulative: seq<int>
    var nextId: nat
    var users: map<nat, User>
    var queue: seq<nat>
    var userStats: seq<nat>
    var inputStats: seq<nat>
    var outputStats: seq<nat>
    var inputTokens: seq<int>
    var outputTokens: seq<int>
    ghost var asked: seq<(nat, int)>      // every request so far: its round and prompt length
    ghost var answered: seq<(nat, int)>   // every answer so far: its round and length
    ghost var serving: set<nat>    // handed out by Pop and not pushed back yet
    ghost var active: set<nat>     // serving or queued

    ghost predicate Sound()
      reads this
    {
      && 1 <= |cumulative| <= numRounds
      && Consistent(numRounds, nextId, users, queue, userStats, inputStats, outputStats, active, serving)
    }

    ghost predicate Valid()
      reads this
    {
      Sound() && Ledger(inputTokens, inputStats, asked) && Ledger(outputTokens, outputStats, answered)
    }

    constructor (numRounds: nat, cumulative: seq<int>)
      requires 1 <= |cumulative| <= numRounds
      ensures Valid() && this.numRounds == numRounds && this.cumulative == cumulative && serving == {} && queue == []
      ensures asked == answered == []
    {
      this.numRounds, this.cumulative := numRounds, cumulative;
      nextId, users, queue := 0, map[], [];
      userStats, inputStats, outputStats := Repeat(numRounds, 0), Repeat(numRounds, 0), Repeat(numRounds, 0);
      serving, active := {}, {};
      inputTokens, outputTokens := Repeat(numRounds, 0), Repeat(numRounds, 0);
      asked, answered := [], [];
      SumZeros(numRounds);
      EmptyLedger(numRounds);
    }

    // Book a user with i rounds, in its first one.
    method Book(i: nat) returns (u: nat)
      requires Sound() && 1 <= i <= numRounds
      modifies this`nextId, this`users, this`userStats, this`inputStats, this`serving, this`active
      ensures Sound() && u == old(nextId) && nextId == u + 1 && 0 < |inputStats|
      ensures users == old(users)[u := User(0, i, 0.0)] && serving == old(serving) + {u} && active == old(active) + {u}
      ensures inputStats == old(inputStats)[0 := old(inputStats)[0] + 1]
      ensures userStats == old(userStats)[i - 1 := old(userStats)[i - 1] + 1]
    {
      Booked(numRounds, nextId, users, queue, userStats, inputStats, outputStats, active, serving, i);
      u := nextId;
      nextId := nextId + 1;
      inputStats := inputStats[0 := inputStats[0] + 1];
      users := users[u := User(0, i, 0.0)];
      userStats := userStats[i - 1 := userStats[i - 1] + 1];
      serving, active := serving + {u}, active + {u};
    }

    // One more request of round r; `counts` is the count column before it.
    method NoteInput(r: nat, n: int, ghost counts: seq<nat>)
      requires Ledger(inputTokens, counts, asked) && r < |counts| && inputStats == counts[r := counts[r] + 1]
      modifies this`inputTokens, this`asked
      ensures Ledger(inputTokens, inputStats, asked) && asked == old(asked) + [(r, n)]
    {
      LedgerGrows(inputTokens, counts, asked, r, n);
      inputTokens := inputTokens[r := inputTokens[r] + n];
      asked := asked + [(r, n)];
    }

    method NoteOutput(r: nat, n: int, ghost counts: seq<nat>)
      requires Ledger(outputTokens, counts, answered) && r < |counts| && outputStats == counts[r := counts[r] + 1]
      modifies this`outputTokens, this`answered
      ensures Ledger(outputTokens, outputStats, answered) && answered == old(answered) + [(r, n)]
    {
      LedgerGrows(outputTokens, counts, answered, r, n);
      outputTokens := outputTokens[r := outputTokens[r] + n];
      answered := answered + [(r, n)];
    }

    // An answer of round r and the request of the next round.
    method NoteBoth(r: nat, n: int, promptLen: int, ghost inputs: seq<nat>, ghost outputs: seq<nat>)
      requires Ledger(inputTokens, inputs, asked) && Ledger(outputTokens, outputs, answered) && r + 1 < |inputs| == |outputs|
      requires inputStats == inputs[r + 1 := inputs[r + 1] + 1] && outputStats == outputs[r := outputs[r] + 1]
      modifies this`inputTokens, this`asked, this`outputTokens, this`answered
      ensures Ledger(inputTokens, inputStats, asked) && asked == old(asked) + [(r + 1, promptLen)]
      ensures Ledger(outputTokens, outputStats, answered) && answered == old(answered) + [(r, n)]
    {
      NoteInput(r + 1, promptLen, inputs);
      NoteOutput(r, n, outputs);
    }

    // A new user, its number of rounds drawn, with the length of its first prompt.
    method Gen(draw: int, promptLen: int) returns (u: nat)
      requires Valid()
      modifies this`nextId, this`users, this`userStats, this`inputStats, this`serving, this`active, this`inputTokens, this`asked
      ensures Valid() && u == old(nextId) && nextId == u + 1
      ensures users == old(users)[u := User(0, RoundsFor(cumulative, draw), 0.0)]
      ensures serving == old(serving) + {u} && active == old(active) + {u}
      ensures inputStats == old(inputStats)[0 := old(inputStats)[0] + 1] && asked == old(asked) + [(0, promptLen)]
      ensures userStats == old(userStats)[RoundsFor(cumulative, draw) - 1 := old(userStats)[RoundsFor(cumulative, draw) - 1] + 1]
    {
      var i := DrawRounds(cumulative, draw);
      ghost var counts := inputStats;
      u := Book(i);
      NoteInput(0, promptLen, counts);
    }

    // The user's last round is over.
    method Retire(u: nat)
      requires Sound() && u in serving && users[u].currentRound + 1 >= users[u].totalRounds
      modifies this`users, this`outputStats, this`serving, this`active
      ensures Sound() && serving == old(serving) - {u} && active == old(active) - {u}
      ensures old(users[u]).currentRound < |outputStats|
      ensures var r := old(users[u]).currentRound;
        && outputStats == old(outputStats)[r := old(outputStats)[r] + 1]
        && users == old(users)[u := old(users[u]).(currentRound := r + 1)]
    {
      var user := users[u];
      var r := user.currentRound;
      LeavingCounts(users, active, u, user.(currentRound := r + 1), numRounds);
      TallyMoved(users, nextId, userStats, u, user.(currentRound := r + 1));
      outputStats := outputStats[r := outputStats[r] + 1];
      users := users[u := user.(currentRound := r + 1)];
      serving, active := serving - {u}, active - {u};
    }

    // The queue with the user in its place.
    method Enqueued(u: nat, newStart: real) returns (longer: seq<nat>)
      requires Sound() && u in serving
      ensures longer == Inserted(queue, Slot(StartsOf(users, queue), newStart), u)
      ensures QueueFits(longer, active, serving - {u})
    {
      var idx := 0;
      if |queue| > 0 { idx := FindSlot(users, queue, newStart); }
      InsertedMembers(queue, idx, u);
      longer := queue[..idx] + [u] + queue[idx..];
    }

    // The same for a user with rounds left: everything still fits once the user has advanced.
    method Placed(u: nat, user: User, newStart: real) returns (longer: seq<nat>)
      requires Sound() && u in serving && user == users[u] && user.currentRound + 1 < user.totalRounds
      ensures longer == Inserted(queue, Slot(StartsOf(users, queue), newStart), u)
      ensures user.currentRound + 1 < |inputStats| == |outputStats|
      ensures var r := user.currentRound;
        Consistent(numRounds, nextId, users[u := User(r + 1, user.totalRounds, newStart)], longer, userStats,
                   inputStats[r + 1 := inputStats[r + 1] + 1], outputStats[r := outputStats[r] + 1], active, serving - {u})
    {
      longer := Enqueued(u, newStart);
      Requeued(numRounds, nextId, users, queue, userStats, inputStats, outputStats, active, serving, u, newStart, longer);
    }

    // The user joins the queue for its next round.
    method Requeue(u: nat, newStart: real)
      requires Sound() && u in serving && users[u].currentRound + 1 < users[u].totalRounds
      modifies this`users, this`outputStats, this`inputStats, this`serving, this`queue
      ensures Sound() && serving == old(serving) - {u}
      ensures var r := old(users[u]).currentRound;
        && outputStats == old(outputStats)[r := old(outputStats)[r] + 1]
        && inputStats == old(inputStats)[r + 1 := old(inputStats)[r + 1] + 1]
        && users == old(users)[u := User(r + 1, old(users[u]).totalRounds, newStart)]
      ensures queue == Inserted(old(queue), Slot(StartsOf(old(users), old(queue)), newStart), u)
      ensures old(users[u]).currentRound + 1 < |inputStats| == |outputStats|
    {
      var user := users[u];
      var longer := Placed(u, user, newStart);
      Advance(u, user, newStart, longer);
    }

    method Advance(u: nat, user: User, newStart: real, longer: seq<nat>)
      requires user.currentRound < |outputStats| && user.currentRound + 1 < |inputStats|
      modifies this`users, this`outputStats, this`inputStats, this`serving, this`queue
      ensures serving == old(serving) - {u} && queue == longer
      ensures var r := user.currentRound;
        && outputStats == old(outputStats)[r := old(outputStats)[r] + 1]
        && inputStats == old(inputStats)[r + 1 := old(inputStats)[r + 1] + 1]
        && users == old(users)[u := User(r + 1, user.totalRounds, newStart)]
    {
      var r := user.currentRound;
      queue := longer;
      outputStats := outputStats[r := outputStats[r] + 1];
      inputStats := inputStats[r + 1 := inputStats[r + 1] + 1];
      users := users[u := User(r + 1, user.totalRounds, newStart)];
      serving := serving - {u};
    }

    // After the last round.
    method PushLast(u: nat, gaps: nat)
      requires Valid() && u in serving && users[u].currentRound + 1 >= users[u].totalRounds
      modifies this`users, this`outputStats, this`serving, this`active, this`outputTokens, this`answered
      ensures Valid() && serving == old(serving) - {u} && active == old(active) - {u}
      ensures var r := old(users[u]).currentRound;
        && outputStats == old(outputStats)[r := old(outputStats)[r] + 1] && answered == old(answered) + [(r, gaps + 1)]
        && users == old(users)[u := old(users[u]).(currentRound := r + 1)]
    {
      var r := users[u].currentRound;
      ghost var counts := outputStats;
      Retire(u);
      NoteOutput(r, gaps + 1, counts);
    }

    // With rounds to go.
    method PushNext(u: nat, newStart: real, gaps: nat, promptLen: int)
      requires Valid() && u in serving && users[u].currentRound + 1 < users[u].totalRounds
      modifies this`users, this`outputStats, this`inputStats, this`serving, this`queue
      modifies this`inputTokens, this`asked, this`outputTokens, this`answered
      ensures Valid() && serving == old(serving) - {u}
      ensures var r := old(users[u]).currentRound;
        && outputStats == old(outputStats)[r := old(outputStats)[r] + 1] && answered == old(answered) + [(r, gaps + 1)]
        && inputStats == old(inputStats)[r + 1 := old(inputStats)[r + 1] + 1] && asked == old(asked) + [(r + 1, promptLen)]
        && users == old(users)[u := User(r + 1, old(users[u]).totalRounds, newStart)]
      ensures queue == Inserted(old(queue), Slot(StartsOf(old(users), old(queue)), newStart), u)
    {
      var r := users[u].currentRound;
      ghost var inputs, outputs := inputStats, outputStats;
      Requeue(u, newStart);
      NoteBoth(r, gaps + 1, promptLen, inputs, outputs);
    }

    // The round ends; the answer has one token more than the gaps between tokens.
    method Push(u: nat, newStart: real, gaps: nat, promptLen: int)
      requires Valid() && u in serving
      modifies this
      ensures Valid() && serving == old(serving) - {u} && nextId == old(nextId) && userStats == old(userStats)
      ensures var r := old(users[u]).currentRound;
        && outputStats == old(outputStats)[r := old(outputStats)[r] + 1]
        && answered == old(answered) + [(r, gaps + 1)]
      ensures old(users[u]).currentRound + 1 >= old(users[u]).totalRounds ==>
        && active == old(active) - {u} && queue == old(queue) && inputStats == old(inputStats) && asked == old(asked)
        && users == old(users)[u := old(users[u]).(currentRound := old(users[u]).currentRound + 1)]
      ensures old(users[u]).currentRound + 1 < old(users[u]).totalRounds ==> var r := old(users[u]).currentRound + 1;
        && active == old(active) && inputStats == old(inputStats)[r := old(inputStats)[r] + 1]
        && asked == old(asked) + [(r, promptLen)]
        && users == old(users)[u := User(r, old(users[u]).totalRounds, newStart)]
        && queue == Inserted(old(queue), Slot(StartsOf(old(users), old(queue)), newStart), u)
    {
      if users[u].currentRound + 1 >= users[u].totalRounds {
        PushLast(u, gaps);
      } else {
        PushNext(u, newStart, gaps, promptLen);
      }
    }

    // The head of the queue if its time has come, else a new user.
    method Pop(now: real, draw: int, promptLen: int) returns (u: nat)
      requires Valid()
      modifies this
      ensures Valid() && u !in old(serving) && serving == old(serving) + {u} && outputStats == old(outputStats) && answered == old(answered)
      ensures old(queue != [] && queue[0] in users && now > users[queue[0]].start) ==>
        && u == old(queue[0]) && queue == old(queue)[1..] && active == old(active) && users == old(users)
        && nextId == old(nextId) && inputStats == old(inputStats) && userStats == old(userStats) && asked == old(asked)
      ensures old(queue == [] || queue[0] !in users || now <= users[queue[0]].start) ==> var n := RoundsFor(cumulative, draw);
        && u == old(nextId) && nextId == u + 1 && queue == old(queue) && active == old(active) + {u}
        && users == old(users)[u := User(0, n, 0.0)] && inputStats == old(inputStats)[0 := old(inputStats)[0] + 1]
        && userStats == old(userStats)[n - 1 := old(userStats)[n - 1] + 1] && asked == old(asked) + [(0, promptLen)]
    {
      if |queue| > 0 {
        assert queue[0] in queue;
        if now > users[queue[0]].start {
          u := queue[0];
          assert queue == [queue[0]] + queue[1..];
          queue := queue[1..];
          serving := serving + {u};
          return;
        }
      }
      u := Gen(draw, promptLen);
    }
  }

  lemma {:induction false} InsertedMembers(queue: seq<nat>, idx: nat, u: nat)
    requires idx <= |queue| && u !in queue && forall i, j :: 0 <= i < j < |queue| ==> queue[i] != queue[j]
    ensures forall x :: x in Inserted(queue, idx, u) <==> x == u || x in queue
    ensures var q := Inserted(queue, idx, u); forall i, j :: 0 <= i < j < |q| ==> q[i] != q[j]
  {
    assert queue == queue[..idx] + queue[idx..];
  }

  lemma {:induction false} LeavingCounts(users: map<nat, User>, active: set<nat>, u: nat, user: User, n: nat)
    requires active <= users.Keys && u in active
    ensures forall r :: 0 <= r < n ==>
      |AtRound(users[u := user], active - {u}, r)| == |AtRound(users, active, r)| - if r == users[u].currentRound then 1 else 0
  {
    forall r | 0 <= r < n
      ensures |AtRound(users[u := user], active - {u}, r)| == |AtRound(users, active, r)| - if r == users[u].currentRound then 1 else 0
    {
      assert AtRound(users[u := user], active - {u}, r) == AtRound(users, active, r) - {u};
    }
  }

  lemma {:induction false} MovingCounts(users: map<nat, User>, active: set<nat>, u: nat, user: User, n: nat)
    requires active <= users.Keys && u in active && user.currentRound != users[u].currentRound
    ensures forall r :: 0 <= r < n ==>
      |AtRound(users[u := user], active, r)| == |AtRound(users, active, r)|
        - (if r == users[u].currentRound then 1 else 0) + if r == user.currentRound then 1 else 0
  {
    forall r | 0 <= r < n
      ensures |AtRound(users[u := user], active, r)| == |AtRound(users, active, r)|
        - (if r == users[u].currentRound then 1 else 0) + if r == user.currentRound then 1 else 0
    {
      assert AtRound(users[u := user], active, r) ==
             AtRound(users, active, r) - {u} + if r == user.currentRound then {u} else {};
    }
  }

  lemma {:induction false} RoundsUnique(cumulative: seq<int>, draw: int, rounds: nat)
    requires 0 < rounds <= |cumulative| && (forall k :: 0 <= k < rounds - 1 ==> cumulative[k] <= draw)
    requires cumulative[rounds - 1] <= draw ==> rounds == |cumulative|
    ensures RoundsFor(cumulative, draw) == rounds
  {
  }

  lemma {:induction false} NewUserCounts(users: map<nat, User>, active: set<nat>, u: nat, user: User, n: nat)
    requires active <= users.Keys && u !in users
    ensures forall r :: 0 <= r < n ==>
      |AtRound(users[u := user], active + {u}, r)| == |AtRound(users, active, r)| + if r == user.currentRound then 1 else 0
  {
    forall r | 0 <= r < n
      ensures |AtRound(users[u := user], active + {u}, r)| == |AtRound(users, active, r)| + if r == user.currentRound then 1 else 0
    {
      assert AtRound(users[u := user], active + {u}, r) ==
             AtRound(users, active, r) + if r == user.currentRound then {u} else {};
    }
  }
}
