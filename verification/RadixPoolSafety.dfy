// Every reachable state of the shared cache: held prefixes stay cached with the holder's
// own slots, and every KV slot is in exactly one place.
module RadixPoolSafety {
  import opened Bags
  import opened RadixTree
  import opened RadixMeaning
  import opened RadixLocks
  import opened RadixHolders
  import opened RadixLeaves
  import opened RadixKept
  import opened RadixPool

  // --- A holder's prefix survives each operation ---

  lemma {:induction false} HoldsAfterMatch(f: Forest, key: Key, r: Request)
    requires WellFormed(f) && Holds(f, r)
    ensures WellFormed(AfterMatch(f, key)) && Holds(AfterMatch(f, key), r)
  {
    SlotsAfterMatch(f, key, r.held);
    if r.held != [] { NodeAfterMatch(f, key, r.held); }
  }

  lemma {:induction false} HoldsAfterInsert(f: Forest, key: Key, value: seq<Slot>, r: Request)
    requires WellFormed(f) && |value| == |key| && Holds(f, r)
    ensures WellFormed(Insert(f, key, value)) && Holds(Insert(f, key, value), r)
  {
    SlotsAfterInsert(f, key, value, r.held);
    if r.held != [] { NodeAfterInsert(f, key, value, r.held); }
  }

  lemma {:induction false} HoldsAfterLock(f: Forest, path: Key, r: Request)
    requires WellFormed(f) && (path == [] || IsNode(f, path)) && Holds(f, r)
    ensures WellFormed(Lock(f, path)) && Holds(Lock(f, path), r)
  {
    LockKeeps(f, path, r.held, 0);
  }

  lemma {:induction false} HoldsAfterUnlock(f: Forest, path: Key, r: Request)
    requires WellFormed(f) && (path == [] || IsNode(f, path)) && Holds(f, r)
    ensures WellFormed(Unlock(f, path)) && Holds(Unlock(f, path), r)
  {
    UnlockKeeps(f, path, r.held, 0);
  }

  lemma {:induction false} HoldsAfterDelete(f: Forest, leaf: Key, r: Request)
    requires WellFormed(f) && FreeLeaf(f, leaf) && Holds(f, r) && !(leaf <= r.held)
    ensures IsNode(f, leaf) && WellFormed(DeleteLeaf(f, leaf)) && Holds(DeleteLeaf(f, leaf), r)
  {
    FreeLeafIsNode(f, leaf);
    DeleteWellFormed(f, leaf);
    if r.held != [] {
      SlotsAfterDelete(f, leaf, r.held);
      NodeAfterDelete(f, leaf, r.held);
    }
  }

  lemma {:induction false} HoldsRecached(f: Forest, key: Key, value: seq<Slot>, held: Key, r: Request)
    requires WellFormed(f) && |value| == |key| && (held == [] || IsNode(f, held)) && Holds(f, r)
    requires WellFormed(Recached(f, key, value))
    requires (held == [] || IsNode(Recached(f, key, value), held)) && (key == [] || IsNode(Recached(f, key, value), key))
    ensures WellFormed(Relocked(Recached(f, key, value), held, key))
    ensures Holds(Relocked(Recached(f, key, value), held, key), r)
  {
    var g := Recached(f, key, value);
    HoldsAfterInsert(f, key, value, r);
    HoldsAfterMatch(Insert(f, key, value), key, r);
    HoldsAfterUnlock(g, held, r);
    UnlockKeeps(g, held, key, 0);
    HoldsAfterLock(Unlock(g, held), key, r);
  }

  // --- The lock counts ---

  lemma {:induction false} InvHeld(s: State)
    requires Inv(s)
    ensures AllHeld(s.tree, Helds(s.reqs)) && HeldEnd(s.tree, Helds(s.reqs))
  {
    forall i | 0 <= i < |s.reqs| ensures Helds(s.reqs)[i] == [] || IsNode(s.tree, Helds(s.reqs)[i]) {
      assert Holds(s.tree, s.reqs[i]);
    }
    AllHeldEnd(s.tree, Helds(s.reqs));
  }

  lemma {:induction false} InsertKeepsLocks(s: State, key: Key, value: seq<Slot>)
    requires Inv(s) && |value| == |key|
    ensures WellFormed(Insert(s.tree, key, value)) && LocksMatch(Insert(s.tree, key, value), Helds(s.reqs))
    ensures HeldEnd(Insert(s.tree, key, value), Helds(s.reqs))
  {
    InvHeld(s);
    InsertWellFormed(s.tree, key, value);
    AllHeldHeads(s.tree, key, Helds(s.reqs));
    InsertLocks(s.tree, key, value, Helds(s.reqs));
    forall i | 0 <= i < |s.reqs| ensures Helds(s.reqs)[i] == [] || IsNode(Insert(s.tree, key, value), Helds(s.reqs)[i]) {
      HoldsAfterInsert(s.tree, key, value, s.reqs[i]);
    }
    AllHeldEnd(Insert(s.tree, key, value), Helds(s.reqs));
  }

  lemma {:induction false} HeldsParts(reqs: seq<Request>, i: nat)
    requires i < |reqs|
    ensures Helds(reqs) == Helds(reqs[..i]) + [reqs[i].held] + Helds(reqs[i + 1..])
    ensures Helds(Drop(reqs, i)) == Helds(reqs[..i]) + Helds(reqs[i + 1..])
  {
  }

  lemma {:induction false} RequestLetsGo(f: Forest, reqs: seq<Request>, i: nat)
    requires WellFormed(f) && i < |reqs| && LocksMatch(f, Helds(reqs)) && (reqs[i].held == [] || IsNode(f, reqs[i].held))
    ensures LocksMatch(Unlock(f, reqs[i].held), Helds(Drop(reqs, i)))
  {
    UnlockHolder(f, Helds(reqs), i);
    assert Helds(Drop(reqs, i)) == Drop(Helds(reqs), i);
  }

  // One holder moves to another path.
  lemma {:induction false} RelockHolder(f: Forest, reqs: seq<Request>, i: nat, r: Request)
    requires WellFormed(f) && i < |reqs| && LocksMatch(f, Helds(reqs))
    requires (reqs[i].held == [] || IsNode(f, reqs[i].held)) && (r.held == [] || IsNode(f, r.held))
    ensures LocksMatch(Relocked(f, reqs[i].held, r.held), Helds(reqs[i := r]))
  {
    RequestLetsGo(f, reqs, i);
    HeldsParts(reqs, i);
    HeldsParts(reqs[i := r], i);
    assert reqs[i := r][..i] == reqs[..i] && reqs[i := r][i + 1..] == reqs[i + 1..];
    var a, b := Helds(reqs[..i]), Helds(reqs[i + 1..]);
    UnlockKeeps(f, reqs[i].held, r.held, 0);
    LockMatches(Unlock(f, reqs[i].held), a + b, r.held);
    LocksReorder(Relocked(f, reqs[i].held, r.held), a, r.held, b);
  }

  // --- The invariant ---

  lemma {:induction false} MatchOfMatched(f: Forest, key: Key)
    requires WellFormed(f)
    ensures |MatchSlots(f, key)| <= |key| && MatchSlots(f, key[..|MatchSlots(f, key)|]) == MatchSlots(f, key)
  {
    MatchWithinKey(f, key);
    var slots := MatchSlots(f, key);
    var short := key[..|slots|];
    var again := MatchSlots(f, short);
    MatchWithinKey(f, short);
    if slots != [] {
      assert short[..|slots|] == short;
      MatchIsLongest(f, key, |slots|);
      MatchIsLongest(f, short, |slots|);
      forall j | 0 <= j < |slots| ensures again[j] == slots[j] {
        assert short[..j + 1] == key[..j + 1];
        MatchIsLongest(f, key, j + 1);
        MatchIsLongest(f, short, j + 1);
      }
    }
  }

  lemma {:induction false} AdmitInv(s: State, key: Key)
    requires Inv(s)
    ensures Inv(AdmitStep(s, key))
  {
    InvHeld(s);
    AfterMatchWellFormed(s.tree, key);
    AfterMatchLocks(s.tree, key, Helds(s.reqs));
    MatchOfMatched(s.tree, key);
    var slots := MatchSlots(s.tree, key);
    var path, g, t := key[..|slots|], AfterMatch(s.tree, key), AdmitStep(s, key);
    SlotsAfterMatch(s.tree, key, path);
    if slots != [] { MatchEndsAtNode(s.tree, key); }
    LockMatches(g, Helds(s.reqs), path);
    assert t.tree == Lock(g, path);
    var r := Request(path, slots, path);
    assert t.reqs == s.reqs + [r];
    LockWellFormed(g, path);
    LockKeeps(g, path, path, 0);
    assert Helds(t.reqs) == Helds(s.reqs) + [path];
    forall i | 0 <= i < |t.reqs| ensures Holds(t.tree, t.reqs[i]) {
      if i < |s.reqs| {
        HoldsAfterMatch(s.tree, key, s.reqs[i]);
        HoldsAfterLock(g, path, s.reqs[i]);
      }
    }
  }

  lemma {:induction false} ExtendInv(s: State, i: nat, more: Key, n: nat)
    requires Inv(s) && Enabled(s, Extend(i, more, n))
    ensures Inv(ExtendStep(s, i, more, n))
  {
    var t := ExtendStep(s, i, more, n);
    assert Helds(t.reqs) == Helds(s.reqs);
    assert Holds(s.tree, s.reqs[i]);
    assert t.reqs[i].kv[..|t.reqs[i].held|] == s.reqs[i].kv[..|s.reqs[i].held|];
    forall j | 0 <= j < |t.reqs| ensures Holds(t.tree, t.reqs[j]) {
      assert Holds(s.tree, s.reqs[j]);
    }
  }

  lemma {:induction false} UnfinishedInv(s: State, i: nat)
    requires Inv(s) && i < |s.reqs|
    ensures Holds(s.tree, s.reqs[i]) && Inv(UnfinishedStep(s, i))
  {
    var r := s.reqs[i];
    assert Holds(s.tree, r);
    var key, value := r.key, r.kv[..|r.key|];
    var t := UnfinishedStep(s, i);
    RecachedNodes(s.tree, key, value, r.held);
    InsertKeepsLocks(s, key, value);
    var g := Insert(s.tree, key, value);
    var g2 := Recached(s.tree, key, value);
    AfterMatchLocks(g, key, Helds(s.reqs));
    RelockHolder(g2, s.reqs, i, t.reqs[i]);
    HoldsOwn(s, i);
    forall j | 0 <= j < |t.reqs| ensures WellFormed(t.tree) && Holds(t.tree, t.reqs[j]) {
      if j != i {
        assert t.reqs[j] == s.reqs[j];
        HoldsRecached(s.tree, key, value, r.held, s.reqs[j]);
      }
    }
  }

  // The request itself holds its whole key afterwards.
  lemma {:induction false} HoldsOwn(s: State, i: nat)
    requires WellFormed(s.tree) && i < |s.reqs| && Holds(s.tree, s.reqs[i])
    ensures var t := UnfinishedStep(s, i);
      WellFormed(t.tree) && t.reqs[i].held == s.reqs[i].key && Holds(t.tree, t.reqs[i])
  {
    var r := s.reqs[i];
    var key, value := r.key, r.kv[..|r.key|];
    RecachedNodes(s.tree, key, value, r.held);
    var g := Insert(s.tree, key, value);
    var g2 := Recached(s.tree, key, value);
    SlotsAfterMatch(g, key, key);
    UnlockKeeps(g2, r.held, key, 0);
    LockKeeps(Unlock(g2, r.held), key, key, 0);
    var matched := MatchSlots(g, key);
    assert (matched + r.kv[|key|..])[..|key|] == matched;
  }

  lemma {:induction false} FinishedInv(s: State, i: nat, insert: bool)
    requires Inv(s) && i < |s.reqs|
    ensures Holds(s.tree, s.reqs[i]) && Inv(FinishedStep(s, i, insert))
  {
    var r := s.reqs[i];
    assert Holds(s.tree, r);
    var key, value := r.key, r.kv[..|r.key|];
    var t := FinishedStep(s, i, insert);
    RecachedNodes(s.tree, key, value, r.held);
    InsertKeepsLocks(s, key, value);
    var g := if insert then Insert(s.tree, key, value) else s.tree;
    RequestLetsGo(g, s.reqs, i);
    UnlockWellFormed(g, r.held);
    forall j | 0 <= j < |t.reqs| ensures Holds(t.tree, t.reqs[j]) {
      var was := if j < i then j else j + 1;
      assert t.reqs[j] == s.reqs[was] && Holds(s.tree, s.reqs[was]);
      HoldsAfterInsert(s.tree, key, value, s.reqs[was]);
      HoldsAfterUnlock(g, r.held, s.reqs[was]);
    }
  }

  lemma {:induction false} EvictInv(s: State, leaf: Key)
    requires Inv(s) && FreeLeaf(s.tree, leaf)
    ensures Inv(EvictStep(s, leaf))
  {
    var t := EvictStep(s, leaf);
    FreeLeafUnheld(s.tree, leaf, Helds(s.reqs));
    FreeLeafIsNode(s.tree, leaf);
    DeleteWellFormed(s.tree, leaf);
    DeleteLocks(s.tree, leaf, Helds(s.reqs));
    forall j | 0 <= j < |t.reqs| ensures Holds(t.tree, t.reqs[j]) {
      assert Holds(s.tree, s.reqs[j]) && !(leaf <= Helds(s.reqs)[j]);
      HoldsAfterDelete(s.tree, leaf, s.reqs[j]);
    }
  }

  lemma {:induction false} NextInv(s: State, l: Label)
    requires Inv(s) && Enabled(s, l)
    ensures Inv(Next(s, l))
  {
    match l
    case Admit(key) => AdmitInv(s, key);
    case Extend(i, more, n) => ExtendInv(s, i, more, n);
    case Unfinished(i) => UnfinishedInv(s, i);
    case Finished(i, insert) => FinishedInv(s, i, insert);
    case Evict(leaf) => EvictInv(s, leaf);
  }
}
