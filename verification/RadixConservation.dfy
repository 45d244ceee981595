// No KV slot leaks and none is handed out twice, over every run of the shared cache.
module RadixConservation {
  import opened Basics
  import opened Bags
  import opened RadixTree
  import opened RadixMeaning
  import opened RadixLocks
  import opened RadixHolders
  import opened RadixLeaves
  import opened RadixKept
  import opened RadixPool
  import opened RadixPoolSafety

  // Slots a request owns itself: those past its held prefix.
  function Own(r: Request): seq<Slot> {
    Slice(r.kv, |r.held|, |r.kv|)
  }

  // How often a request owns a slot.
  function OwnCount(x: Slot): Request -> nat {
    (r: Request) => multiset(Own(r))[x]
  }

  function Owned(reqs: seq<Request>, x: Slot): nat {
    Total(reqs, OwnCount(x))
  }

  // How often a slot is in the tree, free, or owned by a request.
  function Places(s: State, x: Slot): nat {
    Uses(s.tree, x) + multiset(s.free)[x] + Owned(s.reqs, x)
  }

  lemma {:induction false} OwnedUpdate(reqs: seq<Request>, i: nat, r: Request, x: Slot)
    requires i < |reqs|
    ensures Owned(reqs[i := r], x) == Owned(reqs, x) - multiset(Own(reqs[i]))[x] + multiset(Own(r))[x]
  {
    TotalUpdate(reqs, i, r, OwnCount(x));
  }

  lemma {:induction false} OwnedDrop(reqs: seq<Request>, i: nat, x: Slot)
    requires i < |reqs|
    ensures Owned(Drop(reqs, i), x) == Owned(reqs, x) - multiset(Own(reqs[i]))[x]
  {
    TotalDrop(reqs, i, OwnCount(x));
  }

  // The slots past the held prefix, cut at the matched length and at the end of the key.
  lemma {:induction false} ThreeParts(r: Request, n: nat, x: Slot)
    requires |r.held| <= n <= |r.key| <= |r.kv|
    ensures multiset(Own(r))[x] ==
      multiset(Slice(r.kv, |r.held|, n))[x] + multiset(r.kv[n..|r.key|])[x] + multiset(r.kv[|r.key|..])[x]
  {
    assert Own(r) == r.kv[|r.held|..n] + r.kv[n..|r.key|] + r.kv[|r.key|..];
  }

  // A held prefix is still cached, so no request ever frees below it.
  lemma {:induction false} HeldIsMatched(f: Forest, r: Request)
    requires WellFormed(f) && Holds(f, r)
    ensures |r.held| <= |MatchSlots(f, r.key)| <= |r.key|
  {
    MatchWithinKey(f, r.key);
    if r.held != [] {
      NodeSlots(f, r.held);
      assert r.key[..|r.held|] == r.held == r.held[..|r.held|];
      MatchIsLongest(f, r.held, |r.held|);
      MatchIsLongest(f, r.key, |r.held|);
    }
  }

  lemma {:induction false} AdmitPlaces(s: State, key: Key, x: Slot)
    requires Inv(s)
    ensures Places(AdmitStep(s, key), x) == Places(s, x)
  {
    var slots := MatchSlots(s.tree, key);
    MatchWithinKey(s.tree, key);
    AfterMatchWellFormed(s.tree, key);
    AfterMatchUses(s.tree, key, x);
    var path, t := key[..|slots|], AdmitStep(s, key);
    if slots != [] {
      MatchEndsAtNode(s.tree, key);
      LockKeeps(AfterMatch(s.tree, key), path, [], x);
    }
    assert t.reqs[..|s.reqs|] == s.reqs;
    assert Own(t.reqs[|s.reqs|]) == [];
  }

  lemma {:induction false} TakenCounts(r: Request, more: Key, free: seq<Slot>, n: nat, x: Slot)
    requires |r.held| <= |r.kv| && n <= |free|
    ensures multiset(Own(Request(r.key + more, r.kv + free[..n], r.held)))[x] + multiset(free[n..])[x] ==
      multiset(Own(r))[x] + multiset(free)[x]
  {
    assert Own(Request(r.key + more, r.kv + free[..n], r.held)) == Own(r) + free[..n];
    assert free == free[..n] + free[n..];
  }

  lemma {:induction false} ExtendPlaces(s: State, i: nat, more: Key, n: nat, x: Slot)
    requires Inv(s) && Enabled(s, Extend(i, more, n))
    ensures Places(ExtendStep(s, i, more, n), x) == Places(s, x)
  {
    var r := s.reqs[i];
    assert Holds(s.tree, r);
    OwnedUpdate(s.reqs, i, Request(r.key + more, r.kv + s.free[..n], r.held), x);
    TakenCounts(r, more, s.free, n, x);
  }

  // Exactly the slots between the matched length and the end of the key enter the tree.
  lemma {:induction false} RecachedUses(f: Forest, r: Request, x: Slot)
    requires WellFormed(f) && Holds(f, r)
    requires WellFormed(Recached(f, r.key, r.kv[..|r.key|])) && |MatchSlots(f, r.key)| <= |r.key|
    requires r.held == [] || IsNode(Recached(f, r.key, r.kv[..|r.key|]), r.held)
    requires r.key == [] || IsNode(Recached(f, r.key, r.kv[..|r.key|]), r.key)
    ensures Uses(Relocked(Recached(f, r.key, r.kv[..|r.key|]), r.held, r.key), x) ==
      Uses(f, x) + multiset(r.kv[|MatchSlots(f, r.key)|..|r.key|])[x]
  {
    var key, value, n := r.key, r.kv[..|r.key|], |MatchSlots(f, r.key)|;
    InsertWellFormed(f, key, value);
    InsertUses(f, key, value, x);
    assert value[n..] == r.kv[n..|key|];
    AfterMatchUses(Insert(f, key, value), key, x);
    UnlockKeeps(Recached(f, key, value), r.held, key, x);
    LockKeeps(Unlock(Recached(f, key, value), r.held), key, [], x);
  }

  lemma {:induction false} UnfinishedPlaces(s: State, i: nat, x: Slot)
    requires Inv(s) && i < |s.reqs| && Holds(s.tree, s.reqs[i])
    ensures Places(UnfinishedStep(s, i), x) == Places(s, x)
  {
    var r, t := s.reqs[i], UnfinishedStep(s, i);
    UnfinishedParts(s, i);
    HeldIsMatched(s.tree, r);
    ThreeParts(r, |MatchSlots(s.tree, r.key)|, x);
    RecachedNodes(s.tree, r.key, r.kv[..|r.key|], r.held);
    RecachedUses(s.tree, r, x);
    OwnedUpdate(s.reqs, i, t.reqs[i], x);
  }

  lemma {:induction false} UnfinishedParts(s: State, i: nat)
    requires WellFormed(s.tree) && i < |s.reqs| && Holds(s.tree, s.reqs[i])
    ensures |MatchSlots(s.tree, s.reqs[i].key)| <= |s.reqs[i].key|
    ensures var r, t := s.reqs[i], UnfinishedStep(s, i);
      && t.reqs == s.reqs[i := t.reqs[i]] && Own(t.reqs[i]) == r.kv[|r.key|..]
      && t.free == s.free + Slice(r.kv, |r.held|, |MatchSlots(s.tree, r.key)|)
  {
    var r := s.reqs[i];
    MatchWithinKey(s.tree, r.key);
    RecachedNodes(s.tree, r.key, r.kv[..|r.key|], r.held);
  }

  // What the tree and the freed slots take over from a finished request.
  lemma {:induction false} FinishedUses(f: Forest, r: Request, insert: bool, x: Slot)
    requires WellFormed(f) && Holds(f, r)
    ensures var t := FinishedStep(State(f, [], [r]), 0, insert);
      Uses(t.tree, x) + multiset(t.free)[x] == Uses(f, x) + multiset(Own(r))[x]
  {
    var key, value, n := r.key, r.kv[..|r.key|], |MatchSlots(f, r.key)|;
    HeldIsMatched(f, r);
    RecachedNodes(f, key, value, r.held);
    if insert {
      ThreeParts(r, n, x);
      InsertUses(f, key, value, x);
      assert value[n..] == r.kv[n..|key|];
      UnlockKeeps(Insert(f, key, value), r.held, [], x);
    } else {
      ThreeParts(r, |key|, x);
      UnlockKeeps(f, r.held, [], x);
      assert r.kv[|key|..|key|] == [];
    }
  }

  lemma {:induction false} FinishedPlaces(s: State, i: nat, insert: bool, x: Slot)
    requires Inv(s) && i < |s.reqs| && Holds(s.tree, s.reqs[i])
    ensures Places(FinishedStep(s, i, insert), x) == Places(s, x)
  {
    var r := s.reqs[i];
    FinishedUses(s.tree, r, insert, x);
    OwnedDrop(s.reqs, i, x);
    FinishedAlone(s, i, insert);
  }

  lemma {:induction false} FinishedAlone(s: State, i: nat, insert: bool)
    requires WellFormed(s.tree) && i < |s.reqs| && Holds(s.tree, s.reqs[i])
    ensures var alone := FinishedStep(State(s.tree, [], [s.reqs[i]]), 0, insert);
      FinishedStep(s, i, insert) == State(alone.tree, s.free + alone.free, Drop(s.reqs, i))
  {
    var r := s.reqs[i];
    MatchWithinKey(s.tree, r.key);
    var freed := Slice(r.kv, |r.held|, if insert then |MatchSlots(s.tree, r.key)| else |r.key|);
    assert s.free + freed + r.kv[|r.key|..] == s.free + ([] + freed + r.kv[|r.key|..]);
  }

  lemma {:induction false} EvictPlaces(s: State, leaf: Key, x: Slot)
    requires Inv(s) && FreeLeaf(s.tree, leaf)
    ensures Places(EvictStep(s, leaf), x) == Places(s, x)
  {
    FreeLeafIsNode(s.tree, leaf);
    DeleteUses(s.tree, leaf, x);
  }

  lemma {:induction false} NextPlaces(s: State, l: Label, x: Slot)
    requires Inv(s) && Enabled(s, l)
    ensures Places(Next(s, l), x) == Places(s, x)
  {
    match l
    case Admit(key) => AdmitPlaces(s, key, x);
    case Extend(i, more, n) => ExtendPlaces(s, i, more, n, x);
    case Unfinished(i) => assert Holds(s.tree, s.reqs[i]); UnfinishedPlaces(s, i, x);
    case Finished(i, insert) => assert Holds(s.tree, s.reqs[i]); FinishedPlaces(s, i, insert, x);
    case Evict(leaf) => EvictPlaces(s, leaf, x);
  }

  // --- Runs ---

  ghost function Exec(pool: seq<Slot>, run: seq<Label>): (o: Option<State>)
    ensures o.Some? ==> Inv(o.value)
  {
    if run == [] then Some(Start(pool))
    else
      var o, l := Exec(pool, run[..|run| - 1]), run[|run| - 1];
      if o.Some? && Enabled(o.value, l) then NextInv(o.value, l); Some(Next(o.value, l)) else None
  }

  ghost predicate Reached(pool: seq<Slot>, run: seq<Label>, s: State) {
    Exec(pool, run) == Some(s)
  }

  // Every slot of the pool stays in exactly as many places as it has entries in the pool.
  lemma {:induction false} SlotsConserved(pool: seq<Slot>, run: seq<Label>, s: State, x: Slot)
    requires Reached(pool, run, s)
    ensures Places(s, x) == multiset(pool)[x]
    decreases |run|
  {
    if run != [] {
      var was := Exec(pool, run[..|run| - 1]).value;
      SlotsConserved(pool, run[..|run| - 1], was, x);
      NextPlaces(was, run[|run| - 1], x);
    }
  }

  lemma {:induction false} OwnedBy(reqs: seq<Request>, i: nat, x: Slot)
    requires i < |reqs|
    ensures Owned(reqs, x) >= multiset(Own(reqs[i]))[x]
  {
    OwnedDrop(reqs, i, x);
  }

  // With a pool of distinct slots, a slot a request owns is in no other place: not free,
  // not cached, not owned by another request.
  lemma {:induction false} OwnedExclusively(pool: seq<Slot>, run: seq<Label>, s: State, i: nat, x: Slot)
    requires Reached(pool, run, s) && multiset(pool)[x] <= 1 && i < |s.reqs| && x in Own(s.reqs[i])
    ensures x !in s.free && Uses(s.tree, x) == 0
    ensures forall j :: 0 <= j < |s.reqs| && j != i ==> x !in Own(s.reqs[j])
  {
    SlotsConserved(pool, run, s, x);
    OwnedBy(s.reqs, i, x);
    forall j | 0 <= j < |s.reqs| && j != i ensures x !in Own(s.reqs[j]) {
      OwnedByTwo(s.reqs, i, j, x);
    }
  }

  lemma {:induction false} OwnedByTwo(reqs: seq<Request>, i: nat, j: nat, x: Slot)
    requires i < |reqs| && j < |reqs| && i != j
    ensures Owned(reqs, x) >= multiset(Own(reqs[i]))[x] + multiset(Own(reqs[j]))[x]
  {
    OwnedDrop(reqs, i, x);
    var k := DropKeeps(reqs, i, j);
    OwnedBy(Drop(reqs, i), k, x);
  }

  // --- The pool accounting of the memory check ---

  function SlotBag(f: Forest): multiset<Slot> {
    if f.Nil? then multiset{} else multiset(f.value) + SlotBag(f.kids) + SlotBag(f.rest)
  }

  function OwnedBag(reqs: seq<Request>): multiset<Slot> {
    if reqs == [] then multiset{} else OwnedBag(reqs[..|reqs| - 1]) + multiset(Own(reqs[|reqs| - 1]))
  }

  // Tokens of running requests that the tree does not protect.
  function Uncached(reqs: seq<Request>): nat {
    if reqs == [] then 0 else Uncached(reqs[..|reqs| - 1]) + |Own(reqs[|reqs| - 1])|
  }

  lemma {:induction false} SlotBagCounts(f: Forest, x: Slot)
    ensures SlotBag(f)[x] == Uses(f, x)
  {
    if f.Node? { SlotBagCounts(f.kids, x); SlotBagCounts(f.rest, x); }
  }

  lemma {:induction false} SlotBagSize(f: Forest)
    requires WellFormed(f)
    ensures |SlotBag(f)| == Evictable(f) + Protected(f)
  {
    if f.Node? { SlotBagSize(f.kids); SlotBagSize(f.rest); }
  }

  lemma {:induction false} OwnedBagCounts(reqs: seq<Request>, x: Slot)
    ensures OwnedBag(reqs)[x] == Owned(reqs, x) && |OwnedBag(reqs)| == Uncached(reqs)
  {
    if reqs != [] { OwnedBagCounts(reqs[..|reqs| - 1], x); }
  }

  // available + evictable + protected + uncached == total, in every reachable state.
  lemma {:induction false} PoolAccounting(pool: seq<Slot>, run: seq<Label>, s: State)
    requires Reached(pool, run, s)
    ensures |s.free| + Evictable(s.tree) + Protected(s.tree) + Uncached(s.reqs) == |pool|
  {
    var all := SlotBag(s.tree) + multiset(s.free) + OwnedBag(s.reqs);
    forall x: Slot ensures all[x] == multiset(pool)[x] {
      SlotsConserved(pool, run, s, x);
      SlotBagCounts(s.tree, x);
      OwnedBagCounts(s.reqs, x);
    }
    assert all == multiset(pool);
    assert Inv(s);
    SlotBagSize(s.tree);
    OwnedBagCounts(s.reqs, 0);
  }

  // When no request runs, nothing is protected and the whole pool is free or evictable.
  lemma {:induction false} IdleReleasesAll(pool: seq<Slot>, run: seq<Label>, s: State)
    requires Reached(pool, run, s) && s.reqs == []
    ensures Protected(s.tree) == 0 && |s.free| + Evictable(s.tree) == |pool|
  {
    PoolAccounting(pool, run, s);
    assert Inv(s) && Helds(s.reqs) == [];
    UnlockedBelow(s.tree);
  }

  // As long as anything is evictable, some leaf can be evicted, and evicting it frees
  // that many slots.
  lemma {:induction false} EvictionProgress(pool: seq<Slot>, run: seq<Label>, s: State) returns (leaf: Key)
    requires Reached(pool, run, s) && Evictable(s.tree) > 0
    ensures Inv(s) && Enabled(s, Evict(leaf))
    ensures Reached(pool, run + [Evict(leaf)], Next(s, Evict(leaf)))
    ensures |Next(s, Evict(leaf)).free| > |s.free|
    ensures |Next(s, Evict(leaf)).free| + Evictable(Next(s, Evict(leaf)).tree) == |s.free| + Evictable(s.tree)
  {
    leaf := SomeFreeLeaf(s.tree, Helds(s.reqs));
    var longer := run + [Evict(leaf)];
    assert longer[..|run|] == run;
    FreeLeafIsNode(s.tree, leaf);
    DeleteSizes(s.tree, leaf);
  }
}
