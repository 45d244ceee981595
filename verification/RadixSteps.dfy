// What each step of the shared cache does, said through lookups: which prefixes are cached
// with which slots before and after, what the request gets, and what becomes free.
module RadixSteps {
  import opened Bags
  import opened Basics
  import opened RadixTree
  import opened RadixMeaning
  import opened RadixHolders
  import opened RadixLeaves
  import opened RadixKept
  import opened RadixPool
  import opened RadixPoolSafety
  import opened RadixConservation

  // --- Lookups and locks ---

  lemma {:induction false} GetByMatch(f: Forest, path: Key)
    requires WellFormed(f)
    ensures Get(f, path) ==
      if path != [] && |path| <= |MatchSlots(f, path)| then Some(MatchSlots(f, path)[|path| - 1]) else None
  {
    if path != [] {
      MatchIsLongest(f, path, |path|);
      assert path[..|path|] == path;
    }
  }

  lemma {:induction false} LockGet(f: Forest, held: Key, path: Key)
    requires WellFormed(f) && (held == [] || IsNode(f, held))
    ensures WellFormed(Lock(f, held)) && Get(Lock(f, held), path) == Get(f, path)
    ensures WellFormed(Unlock(f, held)) && Get(Unlock(f, held), path) == Get(f, path)
  {
    LockKeeps(f, held, path, 0);
    UnlockKeeps(f, held, path, 0);
    GetByMatch(f, path);
    GetByMatch(Lock(f, held), path);
    GetByMatch(Unlock(f, held), path);
  }

  lemma {:induction false} RelockGet(f: Forest, held: Key, key: Key, path: Key)
    requires WellFormed(f) && (held == [] || IsNode(f, held)) && (key == [] || IsNode(f, key))
    ensures WellFormed(Relocked(f, held, key)) && Get(Relocked(f, held, key), path) == Get(f, path)
  {
    UnlockKeeps(f, held, key, 0);
    LockGet(f, held, path);
    LockGet(Unlock(f, held), key, path);
  }

  // The number of leading units of the key that are cached.
  ghost predicate CachedUpTo(f: Forest, key: Key, n: nat)
    requires WellFormed(f)
  {
    n <= |key| && forall k :: 1 <= k <= |key| ==> (Get(f, key[..k]).Some? <==> k <= n)
  }

  // The slots cached along a path, unit by unit.
  ghost predicate CachedAs(f: Forest, key: Key, slots: seq<Slot>)
    requires WellFormed(f)
  {
    |slots| <= |key| && forall k :: 1 <= k <= |slots| ==> Get(f, key[..k]) == Some(slots[k - 1])
  }

  lemma {:induction false} MatchMeaning(f: Forest, key: Key)
    requires WellFormed(f)
    ensures CachedUpTo(f, key, |MatchSlots(f, key)|) && CachedAs(f, key, MatchSlots(f, key))
  {
    MatchWithinKey(f, key);
    forall k | 1 <= k <= |key|
      ensures Get(f, key[..k]) == if k <= |MatchSlots(f, key)| then Some(MatchSlots(f, key)[k - 1]) else None
    {
      MatchIsLongest(f, key, k);
    }
  }

  ghost predicate SameLookups(f: Forest, g: Forest)
    requires WellFormed(f) && WellFormed(g)
  {
    forall path :: Get(g, path) == Get(f, path)
  }

  // Every prefix of the key is cached in addition, with its own slot where it was not cached.
  ghost predicate Added(f: Forest, g: Forest, key: Key, value: seq<Slot>)
    requires WellFormed(f) && WellFormed(g) && |value| == |key|
  {
    forall path :: Get(g, path) ==
      if Get(f, path).Some? then Get(f, path)
      else if path != [] && path <= key then Some(value[|path| - 1])
      else None
  }

  // --- Admission ---

  // The request starts with exactly the longest cached prefix of its key, its slots as cached,
  // and holds that prefix; nothing else changes.
  lemma {:induction false} AdmitMeaning(s: State, key: Key)
    requires Inv(s)
    ensures Inv(AdmitStep(s, key))
    ensures var t := AdmitStep(s, key);
      && |t.reqs| == |s.reqs| + 1 && t.reqs[..|s.reqs|] == s.reqs && t.free == s.free && SameLookups(s.tree, t.tree)
      && var r := t.reqs[|s.reqs|];
      && r.held == r.key <= key && |r.kv| == |r.held|
      && CachedUpTo(s.tree, key, |r.held|) && CachedAs(s.tree, key, r.kv)
  {
    AdmitInv(s, key);
    MatchMeaning(s.tree, key);
    forall path ensures Get(AdmitStep(s, key).tree, path) == Get(s.tree, path) { AdmitGet(s, key, path); }
  }

  lemma {:induction false} AdmitGet(s: State, key: Key, path: Key)
    requires Inv(s)
    ensures WellFormed(AdmitStep(s, key).tree) && Get(AdmitStep(s, key).tree, path) == Get(s.tree, path)
  {
    MatchWithinKey(s.tree, key);
    AfterMatchGet(s.tree, key, path);
    if MatchSlots(s.tree, key) != [] {
      MatchEndsAtNode(s.tree, key);
      LockGet(AfterMatch(s.tree, key), key[..|MatchSlots(s.tree, key)|], path);
    }
  }

  // --- Allocation ---

  // The key grows by exactly the new units, the slots by the first free ones.
  lemma {:induction false} ExtendMeaning(s: State, i: nat, more: Key, n: nat)
    requires Inv(s) && Enabled(s, Extend(i, more, n))
    ensures var t, r := ExtendStep(s, i, more, n), s.reqs[i];
      && t.tree == s.tree && |t.reqs| == |s.reqs| && (forall j :: 0 <= j < |s.reqs| && j != i ==> t.reqs[j] == s.reqs[j])
      && t.reqs[i].key == r.key + more && t.reqs[i].held == r.held
      && |t.reqs[i].kv| == |r.kv| + n && t.reqs[i].kv[..|r.kv|] == r.kv
      && t.reqs[i].kv[|r.kv|..] + t.free == s.free
  {
    assert s.free[..n] + s.free[n..] == s.free;
  }

  // --- Caching ---

  lemma {:induction false} InsertMeaning(f: Forest, key: Key, value: seq<Slot>)
    requires WellFormed(f) && |value| == |key|
    ensures WellFormed(Insert(f, key, value)) && Added(f, Insert(f, key, value), key, value)
  {
    InsertWellFormed(f, key, value);
    forall path ensures Get(Insert(f, key, value), path) == Merged(Get(f, path), key, value, path) {
      InsertGet(f, key, value, path);
    }
  }

  lemma {:induction false} RecachedGet(f: Forest, key: Key, value: seq<Slot>, held: Key, path: Key)
    requires WellFormed(f) && |value| == |key| && (held == [] || IsNode(f, held))
    ensures WellFormed(Insert(f, key, value)) && WellFormed(Recached(f, key, value))
    ensures (held == [] || IsNode(Recached(f, key, value), held)) && (key == [] || IsNode(Recached(f, key, value), key))
    ensures WellFormed(Relocked(Recached(f, key, value), held, key))
    ensures Get(Relocked(Recached(f, key, value), held, key), path) == Get(Insert(f, key, value), path)
  {
    RecachedNodes(f, key, value, held);
    AfterMatchGet(Insert(f, key, value), key, path);
    RelockGet(Recached(f, key, value), held, key, path);
  }

  // The slots a request gives back: those of its own for which the cache already had one.
  ghost predicate GivesBack(tree: Forest, r: Request, freed: seq<Slot>)
    requires WellFormed(tree) && |r.key| <= |r.kv|
  {
    exists n :: |r.held| <= n && CachedUpTo(tree, r.key, n) && freed == r.kv[|r.held|..n]
  }

  lemma {:induction false} DuplicatesGoBack(tree: Forest, r: Request)
    requires WellFormed(tree) && Holds(tree, r)
    ensures |MatchSlots(tree, r.key)| <= |r.key|
    ensures GivesBack(tree, r, Slice(r.kv, |r.held|, |MatchSlots(tree, r.key)|))
  {
    HeldIsMatched(tree, r);
    MatchMeaning(tree, r.key);
  }

  lemma {:induction false} UnfinishedTree(s: State, i: nat)
    requires Inv(s) && i < |s.reqs|
    ensures var t, r := UnfinishedStep(s, i), s.reqs[i];
      && WellFormed(t.tree) && |r.key| <= |r.kv| && Added(s.tree, t.tree, r.key, r.kv[..|r.key|])
      && t.reqs[i].kv == MatchSlots(t.tree, r.key) + r.kv[|r.key|..] && |MatchSlots(t.tree, r.key)| == |r.key|
  {
    assert Holds(s.tree, s.reqs[i]);
    var t, r := UnfinishedStep(s, i), s.reqs[i];
    var value := r.kv[..|r.key|];
    var g := Insert(s.tree, r.key, value);
    InsertMeaning(s.tree, r.key, value);
    forall path ensures WellFormed(t.tree) && Get(t.tree, path) == Get(g, path) {
      RecachedGet(s.tree, r.key, value, r.held, path);
    }
    SameGetSameMatch(t.tree, g, r.key);
    InsertedMatches(s.tree, r.key, value);
  }

  // cache_unfinished_req: the key's prefixes are cached in addition; the request keeps its key,
  // holds all of it, and its slots are those now cached, the rest of them as they were; what it
  // had twice becomes free.
  lemma {:induction false} UnfinishedMeaning(s: State, i: nat)
    requires Inv(s) && i < |s.reqs|
    ensures Inv(UnfinishedStep(s, i)) && Holds(s.tree, s.reqs[i])
    ensures var t, r := UnfinishedStep(s, i), s.reqs[i];
      && Added(s.tree, t.tree, r.key, r.kv[..|r.key|])
      && |t.reqs| == |s.reqs| && (forall j :: 0 <= j < |s.reqs| && j != i ==> t.reqs[j] == s.reqs[j])
      && t.reqs[i].key == t.reqs[i].held == r.key && |t.reqs[i].kv| == |r.kv|
      && t.reqs[i].kv[|r.key|..] == r.kv[|r.key|..] && CachedAs(t.tree, r.key, t.reqs[i].kv[..|r.key|])
      && s.free <= t.free && GivesBack(s.tree, r, t.free[|s.free|..])
  {
    assert Holds(s.tree, s.reqs[i]);
    var t, r := UnfinishedStep(s, i), s.reqs[i];
    UnfinishedInv(s, i);
    UnfinishedTree(s, i);
    MatchMeaning(t.tree, r.key);
    assert t.reqs[i].kv[..|r.key|] == MatchSlots(t.tree, r.key);
    DuplicatesGoBack(s.tree, r);
    assert t.free[|s.free|..] == Slice(r.kv, |r.held|, |MatchSlots(s.tree, r.key)|);
  }

  // cache_finished_req with insertion: the request is gone, its prefixes are cached in addition,
  // and what it had twice and its slots past the key become free.
  lemma {:induction false} FinishedMeaning(s: State, i: nat)
    requires Inv(s) && i < |s.reqs|
    ensures Inv(FinishedStep(s, i, true)) && Holds(s.tree, s.reqs[i])
    ensures var t, r := FinishedStep(s, i, true), s.reqs[i];
      && t.reqs == Drop(s.reqs, i) && Added(s.tree, t.tree, r.key, r.kv[..|r.key|])
      && exists twice :: GivesBack(s.tree, r, twice) && t.free == s.free + twice + r.kv[|r.key|..]
  {
    assert Holds(s.tree, s.reqs[i]);
    FinishedInv(s, i, true);
    FinishedTree(s, i);
    DuplicatesGoBack(s.tree, s.reqs[i]);
  }

  // Without insertion nothing is cached, and all slots of the request's own become free.
  lemma {:induction false} DiscardedMeaning(s: State, i: nat)
    requires Inv(s) && i < |s.reqs|
    ensures Inv(FinishedStep(s, i, false)) && Holds(s.tree, s.reqs[i])
    ensures var t, r := FinishedStep(s, i, false), s.reqs[i];
      t.reqs == Drop(s.reqs, i) && SameLookups(s.tree, t.tree) && t.free == s.free + r.kv[|r.held|..]
  {
    assert Holds(s.tree, s.reqs[i]);
    var t, r := FinishedStep(s, i, false), s.reqs[i];
    FinishedInv(s, i, false);
    forall path ensures Get(t.tree, path) == Get(s.tree, path) { LockGet(s.tree, r.held, path); }
    assert r.kv[|r.held|..] == Slice(r.kv, |r.held|, |r.key|) + r.kv[|r.key|..];
  }

  lemma {:induction false} FinishedTree(s: State, i: nat)
    requires Inv(s) && i < |s.reqs|
    ensures Holds(s.tree, s.reqs[i])
    ensures var t, r := FinishedStep(s, i, true), s.reqs[i];
      WellFormed(t.tree) && Added(s.tree, t.tree, r.key, r.kv[..|r.key|])
  {
    assert Holds(s.tree, s.reqs[i]);
    var t, r := FinishedStep(s, i, true), s.reqs[i];
    var value := r.kv[..|r.key|];
    InsertMeaning(s.tree, r.key, value);
    RecachedNodes(s.tree, r.key, value, r.held);
    UnlockKeeps(Insert(s.tree, r.key, value), r.held, [], 0);
    forall path ensures Get(t.tree, path) == Get(Insert(s.tree, r.key, value), path) {
      LockGet(Insert(s.tree, r.key, value), r.held, path);
    }
  }

  // --- Eviction ---

  // The slots of a node are those cached for the last units of its path.
  lemma {:induction false} NodeLookups(f: Forest, path: Key, m: nat)
    requires WellFormed(f) && IsNode(f, path) && |path| - |NodeAt(f, path).key| < m <= |path|
    ensures |NodeAt(f, path).key| <= |path|
    ensures var value := NodeAt(f, path).value; Get(f, path[..m]) == Some(value[|value| - |path| + m - 1])
    decreases f
  {
    LeafFits(f, path);
    var short := path[..m];
    assert short[0] == path[0];
    if f.key[0] != path[0] {
      NodeLookups(f.rest, path, m);
    } else if |f.key| == |path| {
      CommonIs(f.key, short, m);
    } else {
      var tail := path[|f.key|..];
      NodeLookups(f.kids, tail, m - |f.key|);
      assert short[|f.key|..] == tail[..m - |f.key|];
      assert short[..|f.key|] == path[..|f.key|] == f.key;
      CommonIs(f.key, short, |f.key|);
    }
  }

  // Exactly the last n prefixes of a path are forgotten.
  ghost predicate Forgotten(f: Forest, g: Forest, leaf: Key, n: nat)
    requires WellFormed(f) && WellFormed(g)
  {
    forall path :: Get(g, path) == if path <= leaf && |path| > |leaf| - n then None else Get(f, path)
  }

  // The slots cached for the last prefixes of a path, in order.
  ghost predicate LastSlots(f: Forest, leaf: Key, slots: seq<Slot>)
    requires WellFormed(f)
  {
    && 1 <= |slots| <= |leaf|
    && forall m :: |leaf| - |slots| < m <= |leaf| ==> Get(f, leaf[..m]) == Some(slots[|slots| - |leaf| + m - 1])
  }

  lemma {:induction false} DeleteLookups(f: Forest, leaf: Key)
    requires WellFormed(f) && IsNode(f, leaf) && NodeAt(f, leaf).kids.Nil?
    ensures WellFormed(DeleteLeaf(f, leaf)) && Forgotten(f, DeleteLeaf(f, leaf), leaf, |NodeAt(f, leaf).key|)
  {
    DeleteWellFormed(f, leaf);
    forall path
      ensures Get(DeleteLeaf(f, leaf), path) ==
        if path <= leaf && |path| > |leaf| - |NodeAt(f, leaf).key| then None else Get(f, path)
    {
      DeleteGet(f, leaf, path);
    }
  }

  lemma {:induction false} LeafLookups(f: Forest, leaf: Key)
    requires WellFormed(f) && IsNode(f, leaf)
    ensures LastSlots(f, leaf, NodeAt(f, leaf).value)
  {
    LeafFits(f, leaf);
    var value := NodeAt(f, leaf).value;
    forall m | |leaf| - |value| < m <= |leaf| ensures Get(f, leaf[..m]) == Some(value[|value| - |leaf| + m - 1]) {
      NodeLookups(f, leaf, m);
    }
  }

  // Exactly the last prefixes of an unlocked leaf are forgotten, and their slots become free.
  lemma {:induction false} EvictMeaning(s: State, leaf: Key)
    requires Inv(s) && FreeLeaf(s.tree, leaf)
    ensures Inv(EvictStep(s, leaf))
    ensures var t := EvictStep(s, leaf);
      && t.reqs == s.reqs && s.free <= t.free
      && Forgotten(s.tree, t.tree, leaf, |t.free| - |s.free|) && LastSlots(s.tree, leaf, t.free[|s.free|..])
  {
    FreeLeafIsNode(s.tree, leaf);
    EvictInv(s, leaf);
    DeleteLookups(s.tree, leaf);
    LeafLookups(s.tree, leaf);
    assert EvictStep(s, leaf).free[|s.free|..] == NodeAt(s.tree, leaf).value;
  }
}
