// Caching a request through the cache object takes the same step as the pool's state machine.
module RadixRequests {
  import opened Bags
  import opened RadixTree
  import opened RadixMeaning
  import opened RadixHolders
  import opened RadixKept
  import opened RadixPool
  import opened RadixCache
  import opened RadixConservation

  // Match the key and lock where the match ends.
  method AdmitRequest(cache: RadixCache, key: Key) returns (r: Request)
    requires cache.Valid()
    modifies cache
    ensures cache.Valid() && cache.held == old(cache.held) + [r.held]
    ensures AdmitStep(State(old(cache.root), [], []), key) == State(cache.root, [], [r])
  {
    ghost var before := cache.root;
    var slots, path := cache.MatchPrefix(key);
    var delta := cache.IncLockRef(path);
    r := Request(path, slots, path);
    assert State(before, [], []).reqs + [r] == [r];
  }

  // Insert the key and match it again: the match now covers the whole key.
  method Recache(cache: RadixCache, key: Key, value: seq<Slot>) returns (prefixLen: nat, slots: seq<Slot>, last: Key)
    requires cache.Valid() && |value| == |key|
    modifies cache
    ensures cache.Valid() && cache.held == old(cache.held)
    ensures cache.root == Recached(old(cache.root), key, value)
    ensures prefixLen == |MatchSlots(old(cache.root), key)| && prefixLen <= |key|
    ensures WellFormed(Insert(old(cache.root), key, value)) && slots == MatchSlots(Insert(old(cache.root), key, value), key)
    ensures |slots| == |key| && last == key && (key == [] || IsNode(cache.root, key))
  {
    InsertedMatches(cache.root, key, value);
    prefixLen := cache.InsertKey(key, value);
    slots, last := cache.MatchPrefix(key);
    assert key[..|key|] == key;
  }

  // Release one path and lock another.
  method Relock(cache: RadixCache, from: Key, to: Key, ghost i: nat)
    requires cache.Valid() && i < |cache.held| && cache.held[i] == from
    requires (from == [] || IsNode(cache.root, from)) && (to == [] || IsNode(cache.root, to))
    modifies cache
    ensures cache.Valid() && cache.held == Drop(old(cache.held), i) + [to]
    ensures cache.root == Relocked(old(cache.root), from, to)
  {
    UnlockKeeps(cache.root, from, to, 0);
    var released := cache.DecLockRef(from, i);
    var taken := cache.IncLockRef(to);
  }

  method CacheUnfinished(cache: RadixCache, r: Request, ghost i: nat) returns (after: Request, freed: seq<Slot>)
    requires cache.Valid() && Holds(cache.root, r) && i < |cache.held| && cache.held[i] == r.held
    modifies cache
    ensures cache.Valid() && cache.held == Drop(old(cache.held), i) + [r.key]
    ensures UnfinishedStep(State(old(cache.root), [], [r]), 0) == State(cache.root, freed, [after])
  {
    var value := r.kv[..|r.key|];
    HeldIsMatched(cache.root, r);
    RecachedNodes(cache.root, r.key, value, r.held);
    UnfinishedFrees(cache.root, r);
    var prefixLen, slots, last := Recache(cache, r.key, value);
    freed := r.kv[|r.held|..prefixLen];
    after := Request(r.key, slots + r.kv[|r.key|..], r.key);
    Relock(cache, r.held, last, i);
  }

  lemma {:induction false} UnfinishedFrees(f: Forest, r: Request)
    requires WellFormed(f) && Holds(f, r) && |r.held| <= |MatchSlots(f, r.key)| <= |r.key|
    requires WellFormed(Insert(f, r.key, r.kv[..|r.key|])) && WellFormed(Recached(f, r.key, r.kv[..|r.key|]))
    requires r.held == [] || IsNode(Recached(f, r.key, r.kv[..|r.key|]), r.held)
    requires r.key == [] || IsNode(Recached(f, r.key, r.kv[..|r.key|]), r.key)
    ensures UnfinishedStep(State(f, [], [r]), 0) ==
      State(Relocked(Recached(f, r.key, r.kv[..|r.key|]), r.held, r.key), r.kv[|r.held|..|MatchSlots(f, r.key)|],
            [Request(r.key, MatchSlots(Insert(f, r.key, r.kv[..|r.key|]), r.key) + r.kv[|r.key|..], r.key)])
  {
    var free := Slice(r.kv, |r.held|, |MatchSlots(f, r.key)|);
    assert [] + free == free;
  }

  method CacheFinished(cache: RadixCache, r: Request, insert: bool, ghost i: nat) returns (freed: seq<Slot>)
    requires cache.Valid() && Holds(cache.root, r) && i < |cache.held| && cache.held[i] == r.held
    modifies cache
    ensures cache.Valid() && cache.held == Drop(old(cache.held), i)
    ensures FinishedStep(State(old(cache.root), [], [r]), 0, insert) == State(cache.root, freed, [])
  {
    var value := r.kv[..|r.key|];
    HeldIsMatched(cache.root, r);
    RecachedNodes(cache.root, r.key, value, r.held);
    FinishedFrees(cache.root, r, insert);
    if insert {
      var prefixLen := cache.InsertKey(r.key, value);
      freed := r.kv[|r.held|..prefixLen];
    } else {
      freed := r.kv[|r.held|..|r.key|];
    }
    freed := freed + r.kv[|r.key|..];
    var released := cache.DecLockRef(r.held, i);
  }

  lemma {:induction false} FinishedFrees(f: Forest, r: Request, insert: bool)
    requires WellFormed(f) && Holds(f, r) && |r.held| <= |MatchSlots(f, r.key)| <= |r.key|
    requires WellFormed(Insert(f, r.key, r.kv[..|r.key|]))
    requires r.held == [] || IsNode(Insert(f, r.key, r.kv[..|r.key|]), r.held)
    ensures FinishedStep(State(f, [], [r]), 0, insert) ==
      State(Unlock(if insert then Insert(f, r.key, r.kv[..|r.key|]) else f, r.held),
            r.kv[|r.held|..if insert then |MatchSlots(f, r.key)| else |r.key|] + r.kv[|r.key|..], [])
  {
    var free := Slice(r.kv, |r.held|, if insert then |MatchSlots(f, r.key)| else |r.key|);
    assert [] + free == free && Drop([r], 0) == [];
  }
}
