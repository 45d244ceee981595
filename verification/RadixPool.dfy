// Requests sharing the radix cache and the KV pool, step by step: admission, allocation,
// caching of unfinished and finished requests, eviction.
module RadixPool {
  import opened Bags
  import opened RadixTree
  import opened RadixMeaning
  import opened RadixLocks
  import opened RadixHolders
  import opened RadixLeaves
  import opened RadixKept

  // A running request: the key of its tokens, its KV slots (at least one per unit of the
  // key), and the path of its last node. The slots of that path belong to the tree.
  datatype Request = Request(key: Key, kv: seq<Slot>, held: Key)

  datatype State = State(tree: Forest, free: seq<Slot>, reqs: seq<Request>)

  datatype Label =
    | Admit(key: Key)
    | Extend(i: nat, more: Key, slots: nat)
    | Unfinished(i: nat)
    | Finished(i: nat, insert: bool)
    | Evict(leaf: Key)

  // Python's slice: empty when the bounds cross.
  function Slice(s: seq<Slot>, lo: nat, hi: nat): seq<Slot>
    requires hi <= |s|
  {
    if lo <= hi then s[lo..hi] else []
  }

  // The tree holds the request's path, with the request's own slots along it.
  predicate Holds(tree: Forest, r: Request)
    requires WellFormed(tree)
  {
    && r.held <= r.key && |r.key| <= |r.kv|
    && (r.held == [] || IsNode(tree, r.held))
    && MatchSlots(tree, r.held) == r.kv[..|r.held|]
  }

  function Helds(reqs: seq<Request>): (h: seq<Key>)
    ensures |h| == |reqs| && forall i :: 0 <= i < |h| ==> h[i] == reqs[i].held
  {
    seq(|reqs|, i requires 0 <= i < |reqs| => reqs[i].held)
  }

  ghost predicate Inv(s: State) {
    && WellFormed(s.tree)
    && (forall i :: 0 <= i < |s.reqs| ==> Holds(s.tree, s.reqs[i]))
    && LocksMatch(s.tree, Helds(s.reqs))
  }

  function Start(pool: seq<Slot>): State {
    State(Nil, pool, [])
  }

  ghost predicate Enabled(s: State, l: Label)
    requires Inv(s)
  {
    match l
    case Admit(key) => true
    case Extend(i, more, n) => i < |s.reqs| && n <= |s.free| && |s.reqs[i].key| + |more| <= |s.reqs[i].kv| + n
    case Unfinished(i) => i < |s.reqs|
    case Finished(i, _) => i < |s.reqs|
    case Evict(leaf) => FreeLeaf(s.tree, leaf)
  }

  // --- The steps ---

  // Match the key and lock the node where the match ends.
  function AdmitStep(s: State, key: Key): State
    requires WellFormed(s.tree)
  {
    var slots := MatchSlots(s.tree, key);
    MatchWithinKey(s.tree, key);
    AfterMatchWellFormed(s.tree, key);
    var path := key[..|slots|];
    if slots != [] then
      MatchEndsAtNode(s.tree, key);
      State(Lock(AfterMatch(s.tree, key), path), s.free, s.reqs + [Request(path, slots, path)])
    else State(AfterMatch(s.tree, key), s.free, s.reqs + [Request([], [], [])])
  }

  function ExtendStep(s: State, i: nat, more: Key, n: nat): State
    requires i < |s.reqs| && n <= |s.free|
  {
    var r := s.reqs[i];
    s.(free := s.free[n..], reqs := s.reqs[i := Request(r.key + more, r.kv + s.free[..n], r.held)])
  }

  // The tree after inserting the key and matching it again.
  function Recached(f: Forest, key: Key, value: seq<Slot>): Forest
    requires WellFormed(f) && |value| == |key|
  {
    InsertWellFormed(f, key, value);
    AfterMatch(Insert(f, key, value), key)
  }

  lemma {:induction false} RecachedNodes(f: Forest, key: Key, value: seq<Slot>, held: Key)
    requires WellFormed(f) && |value| == |key| && (held == [] || IsNode(f, held))
    ensures WellFormed(Insert(f, key, value)) && WellFormed(Recached(f, key, value))
    ensures |MatchSlots(Insert(f, key, value), key)| == |key|
    ensures held == [] || IsNode(Insert(f, key, value), held)
    ensures held == [] || IsNode(Recached(f, key, value), held)
    ensures key == [] || IsNode(Recached(f, key, value), key)
  {
    var g := Insert(f, key, value);
    InsertedMatches(f, key, value);
    AfterMatchWellFormed(g, key);
    if held != [] {
      NodeAfterInsert(f, key, value, held);
      NodeAfterMatch(g, key, held);
    }
    if key != [] {
      MatchEndsAtNode(g, key);
      assert key[..|key|] == key;
    }
  }

  function Relocked(f: Forest, held: Key, key: Key): Forest
    requires WellFormed(f) && (held == [] || IsNode(f, held)) && (key == [] || IsNode(f, key))
  {
    UnlockKeeps(f, held, key, 0);
    Lock(Unlock(f, held), key)
  }

  function UnfinishedStep(s: State, i: nat): State
    requires WellFormed(s.tree) && i < |s.reqs| && Holds(s.tree, s.reqs[i])
  {
    var r := s.reqs[i];
    var value := r.kv[..|r.key|];
    var prefix := |MatchSlots(s.tree, r.key)|;
    MatchWithinKey(s.tree, r.key);
    RecachedNodes(s.tree, r.key, value, r.held);
    var matched := MatchSlots(Insert(s.tree, r.key, value), r.key);
    State(
      Relocked(Recached(s.tree, r.key, value), r.held, r.key),
      s.free + Slice(r.kv, |r.held|, prefix),
      s.reqs[i := Request(r.key, matched + r.kv[|r.key|..], r.key)])
  }

  function FinishedStep(s: State, i: nat, insert: bool): State
    requires WellFormed(s.tree) && i < |s.reqs| && Holds(s.tree, s.reqs[i])
  {
    var r := s.reqs[i];
    var value := r.kv[..|r.key|];
    var prefix := |MatchSlots(s.tree, r.key)|;
    MatchWithinKey(s.tree, r.key);
    RecachedNodes(s.tree, r.key, value, r.held);
    if insert then
      State(
        Unlock(Insert(s.tree, r.key, value), r.held),
        s.free + Slice(r.kv, |r.held|, prefix) + r.kv[|r.key|..],
        Drop(s.reqs, i))
    else
      State(Unlock(s.tree, r.held), s.free + Slice(r.kv, |r.held|, |r.key|) + r.kv[|r.key|..], Drop(s.reqs, i))
  }

  function EvictStep(s: State, leaf: Key): State
    requires WellFormed(s.tree) && FreeLeaf(s.tree, leaf)
  {
    FreeLeafIsNode(s.tree, leaf);
    s.(tree := DeleteLeaf(s.tree, leaf), free := s.free + NodeAt(s.tree, leaf).value)
  }

  ghost function Next(s: State, l: Label): State
    requires Inv(s) && Enabled(s, l)
  {
    match l
    case Admit(key) => AdmitStep(s, key)
    case Extend(i, more, n) => ExtendStep(s, i, more, n)
    case Unfinished(i) => UnfinishedStep(s, i)
    case Finished(i, insert) => FinishedStep(s, i, insert)
    case Evict(leaf) => EvictStep(s, leaf)
  }
}
