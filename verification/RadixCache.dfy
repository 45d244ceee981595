// The radix cache object: the tree with its size counters and its set of evictable
// leaves, each updated step by step and proved exact.
module RadixCache {
  import opened Bags
  import opened RadixTree
  import opened RadixMeaning
  import opened RadixLocks
  import opened RadixHolders
  import opened RadixLeaves
  import opened RadixKept

  function Child(f: Forest, u: Unit): (n: Forest)
    requires WellFormed(f) && HasHead(f, u)
    ensures n.Node? && WellFormed(n) && n.key[0] == u
  {
    if f.key[0] == u then f else Child(f.rest, u)
  }

  lemma {:induction false} MatchThroughChild(f: Forest, key: Key)
    requires WellFormed(f) && key != []
    ensures MatchSlots(f, key) == if HasHead(f, key[0]) then MatchSlots(Child(f, key[0]), key) else []
    decreases f
  {
    if f.Node? && f.key[0] != key[0] { MatchThroughChild(f.rest, key); }
  }

  lemma {:induction false} MatchDown(node: Forest, rest: Key)
    requires WellFormed(node) && rest != [] && HasHead(node, rest[0])
    ensures var child := Child(node, rest[0]);
      var m := Common(child.key, rest);
      m > 0 && MatchSlots(node, rest) ==
        if m < |child.key| then child.value[..m] else child.value + MatchSlots(child.kids, rest[m..])
  {
    MatchThroughChild(node, rest);
    CommonPositive(Child(node, rest[0]).key, rest);
  }

  // One level of the walk: what is matched so far, and what is left to match below.
  lemma {:induction false} WalkDown(all: seq<Slot>, slots: seq<Slot>, node: Forest, rest: Key)
    requires WellFormed(node) && rest != [] && HasHead(node, rest[0]) && all == slots + MatchSlots(node, rest)
    ensures var child := Child(node, rest[0]);
      var m := Common(child.key, rest);
      && 0 < m && |child.value| == |child.key| && WellFormed(child.kids)
      && if m < |child.key| then all == slots + child.value[..m]
         else all == slots + child.value + MatchSlots(child.kids, rest[m..])
  {
    MatchDown(node, rest);
  }

  lemma {:induction false} MoveOver(done: Key, rest: Key, m: nat, key: Key)
    requires done + rest == key && m <= |rest|
    ensures done + rest[..m] + rest[m..] == key && done + rest[..m] == key[..|done| + m]
  {
  }

  // Walk down from the root while a child starts like the rest of the key.
  method MatchPrefixHelper(root: Forest, key: Key) returns (slots: seq<Slot>, last: Key)
    requires WellFormed(root)
    ensures slots == MatchSlots(root, key)
    ensures |slots| <= |key| && last == key[..|slots|]
  {
    ghost var all := MatchSlots(root, key);
    var node, rest := root, key;
    slots, last := [], [];
    while rest != [] && HasHead(node, rest[0])
      invariant WellFormed(node) && last + rest == key && |last| == |slots|
      invariant all == slots + MatchSlots(node, rest)
      decreases |rest|
    {
      WalkDown(all, slots, node, rest);
      var child := Child(node, rest[0]);
      var m := Common(child.key, rest);
      MoveOver(last, rest, m, key);
      last := last + rest[..m];
      if m < |child.key| {
        slots := slots + child.value[..m];
        return;
      }
      slots, node, rest := slots + child.value, child.kids, rest[m..];
    }
    if rest != [] { MatchThroughChild(node, rest); }
  }

  // --- Eviction order ---

  ghost predicate LeavesExact(f: Forest, leaves: set<Key>)
    requires WellFormed(f)
  {
    forall p: Key :: p in leaves <==> FreeLeaf(f, p)
  }

  ghost predicate Lowest(f: Forest, leaf: Key, rank: Key -> int)
    requires WellFormed(f)
  {
    FreeLeaf(f, leaf) && forall p: Key :: FreeLeaf(f, p) ==> rank(leaf) <= rank(p)
  }

  // Leaves removed one after the other, each of lowest rank in the tree at its turn.
  ghost predicate EvictsInOrder(trees: seq<Forest>, order: seq<Key>, rank: Key -> int) {
    && |trees| == |order| + 1
    && (forall k :: 0 <= k < |trees| ==> WellFormed(trees[k]))
    && (forall k :: 0 <= k < |order| ==> EvictsOne(trees[k], order[k], rank, trees[k + 1]))
  }

  ghost predicate EvictsOne(f: Forest, leaf: Key, rank: Key -> int, g: Forest)
    requires WellFormed(f)
  {
    FreeLeafIsNode(f, leaf);
    Lowest(f, leaf, rank) && g == DeleteLeaf(f, leaf)
  }

  method PopLowest(heap: set<Key>, rank: Key -> int) returns (leaf: Key)
    requires heap != {}
    ensures leaf in heap && forall p :: p in heap ==> rank(leaf) <= rank(p)
  {
    leaf :| leaf in heap;
    var left := heap - {leaf};
    while left != {}
      invariant left <= heap && leaf in heap
      invariant forall p :: p in heap && p !in left ==> rank(leaf) <= rank(p)
      decreases |left|
    {
      var p :| p in left;
      if rank(p) < rank(leaf) { leaf := p; }
      left := left - {p};
    }
  }

  // What the cache keeps: the counters and the leaf set say exactly what the tree holds.
  ghost predicate Exact(f: Forest, evictable: int, protected: int, leaves: set<Key>, held: seq<Key>) {
    && WellFormed(f)
    && AllHeld(f, held) && LocksMatch(f, held)
    && evictable == Evictable(f) && protected == Protected(f)
    && LeavesExact(f, leaves)
  }

  class RadixCache {
    var root: Forest
    var evictableSize: int
    var protectedSize: int
    var evictableLeaves: set<Key>
    // the paths locked and not yet released
    ghost var held: seq<Key>

    ghost predicate Valid()
      reads this
    {
      Exact(root, evictableSize, protectedSize, evictableLeaves, held)
    }

    constructor ()
      ensures Valid() && root == Nil && held == []
    {
      root, evictableSize, protectedSize, evictableLeaves := Nil, 0, 0, {};
      held := [];
    }

    method MatchPrefix(key: Key) returns (slots: seq<Slot>, last: Key)
      requires Valid()
      modifies this`root
      ensures Valid()
      ensures slots == MatchSlots(old(root), key) && |slots| <= |key|
      ensures root == AfterMatch(old(root), key)
      ensures last == key[..|slots|] && (last == [] || IsNode(root, last))
    {
      slots, last := MatchPrefixHelper(root, key);
      if slots != [] { MatchEndsAtNode(root, key); }
      AfterMatchExact(root, key, evictableSize, protectedSize, evictableLeaves, held);
      root := AfterMatch(root, key);
    }

    // The tree keeps what it has cached and adds the rest of the key.
    method InsertKey(key: Key, value: seq<Slot>) returns (prefixLen: nat)
      requires Valid() && |value| == |key|
      modifies this`root, this`evictableSize, this`evictableLeaves
      ensures Valid()
      ensures prefixLen == |MatchSlots(old(root), key)| && prefixLen <= |key|
      ensures root == Insert(old(root), key, value)
      ensures evictableSize == old(evictableSize) + |key| - prefixLen
    {
      var slots, parent := MatchPrefixHelper(root, key);
      prefixLen := |slots|;
      InsertExact(root, key, value, evictableSize, protectedSize, evictableLeaves, held);
      if prefixLen < |key| {
        evictableSize := evictableSize + |key| - prefixLen;
        evictableLeaves := evictableLeaves - {parent} + {key};
      }
      root := Insert(root, key, value);
    }

    method IncLockRef(path: Key) returns (delta: int)
      requires Valid() && (path == [] || IsNode(root, path))
      modifies this
      ensures Valid() && held == old(held) + [path] && root == Lock(old(root), path)
      ensures delta == evictableSize - old(evictableSize) == old(protectedSize) - protectedSize
    {
      LockExact(root, path, evictableSize, protectedSize, evictableLeaves, held);
      delta := 0 - UnitsWith(root, path, 0);
      evictableSize, protectedSize := evictableSize + delta, protectedSize - delta;
      evictableLeaves := evictableLeaves - {path};
      root, held := Lock(root, path), held + [path];
    }

    method DecLockRef(path: Key, ghost i: nat) returns (delta: int)
      requires Valid() && i < |held| && held[i] == path
      modifies this
      ensures Valid() && held == Drop(old(held), i)
      ensures (path == [] || IsNode(old(root), path)) && root == Unlock(old(root), path)
      ensures delta == evictableSize - old(evictableSize) == old(protectedSize) - protectedSize
    {
      assert path == [] || IsNode(root, path);
      UnlockExact(root, i, evictableSize, protectedSize, evictableLeaves, held);
      delta := UnitsWith(root, path, 1);
      evictableSize, protectedSize := evictableSize + delta, protectedSize - delta;
      root, held := Unlock(root, path), Drop(held, i);
      if FreeLeaf(root, path) { evictableLeaves := evictableLeaves + {path}; }
    }

    method RemoveLeaf(leaf: Key)
      requires Valid() && leaf in evictableLeaves
      modifies this`root, this`evictableSize, this`evictableLeaves
      ensures Valid()
      ensures IsNode(old(root), leaf) && root == DeleteLeaf(old(root), leaf)
      ensures evictableSize == old(evictableSize) - |NodeAt(old(root), leaf).value|
      ensures var parent := ParentOf(old(root), leaf);
        evictableLeaves == old(evictableLeaves) - {leaf} + if FreeLeaf(root, parent) then {parent} else {}
    {
      DeleteExact(root, leaf, evictableSize, protectedSize, evictableLeaves, held);
      var parent := ParentOf(root, leaf);
      evictableSize := evictableSize - |NodeAt(root, leaf).key|;
      evictableLeaves := evictableLeaves - {leaf};
      root := DeleteLeaf(root, leaf);
      if FreeLeaf(root, parent) { evictableLeaves := evictableLeaves + {parent}; }
    }

    // Evict leaves of lowest rank until enough is free or nothing is left to evict.
    method Evict(num: nat, rank: Key -> int) returns (freed: seq<Slot>, ghost trees: seq<Forest>, ghost order: seq<Key>)
      requires Valid()
      modifies this`root, this`evictableSize, this`evictableLeaves
      ensures Valid()
      ensures EvictsInOrder(trees, order, rank) && trees[0] == old(root) && trees[|order|] == root
      ensures forall k :: 0 <= k < |order| ==> Evictable(old(root)) - Evictable(trees[k]) < num
      ensures |freed| >= num || evictableSize == 0
      ensures evictableSize == old(evictableSize) - |freed|
      ensures forall x :: Uses(old(root), x) == Uses(root, x) + multiset(freed)[x]
      ensures forall i :: 0 <= i < |held| ==> MatchSlots(root, held[i]) == MatchSlots(old(root), held[i])
    {
      var heap := evictableLeaves;
      freed, trees, order := [], [root], [];
      while |freed| < num && heap != {}
        invariant Valid() && heap == evictableLeaves
        invariant Evicting(old(root), root, held, rank, num, freed, trees, order)
        decreases evictableSize
      {
        var leaf := PopLowest(heap, rank);
        EvictingNext(old(root), root, held, rank, num, freed, trees, order, leaf, evictableLeaves);
        var parent := ParentOf(root, leaf);
        freed := freed + NodeAt(root, leaf).value;
        RemoveLeaf(leaf);
        heap := heap - {leaf};
        if FreeLeaf(root, parent) { heap := heap + {parent}; }
        trees, order := trees + [root], order + [leaf];
      }
      NothingLeft(root, evictableLeaves, held);
    }
  }

  // An eviction under way, from tree f0 to tree f.
  ghost predicate Evicting(f0: Forest, f: Forest, held: seq<Key>, rank: Key -> int, num: nat,
                           freed: seq<Slot>, trees: seq<Forest>, order: seq<Key>) {
    && WellFormed(f0) && WellFormed(f)
    && EvictsInOrder(trees, order, rank) && trees[0] == f0 && trees[|order|] == f
    && (forall k :: 0 <= k < |order| ==> Evictable(f0) - Evictable(trees[k]) < num)
    && Evictable(f) == Evictable(f0) - |freed|
    && (forall x :: Uses(f0, x) == Uses(f, x) + multiset(freed)[x])
    && (forall i :: 0 <= i < |held| ==> MatchSlots(f, held[i]) == MatchSlots(f0, held[i]))
  }

  lemma {:induction false} OrderGrows(trees: seq<Forest>, order: seq<Key>, rank: Key -> int, leaf: Key, g: Forest)
    requires EvictsInOrder(trees, order, rank) && WellFormed(g) && EvictsOne(trees[|order|], leaf, rank, g)
    ensures EvictsInOrder(trees + [g], order + [leaf], rank)
  {
    var trees', order' := trees + [g], order + [leaf];
    forall k | 0 <= k < |order'| ensures EvictsOne(trees'[k], order'[k], rank, trees'[k + 1]) {
      assert k < |order| ==> EvictsOne(trees[k], order[k], rank, trees[k + 1]);
    }
  }

  lemma {:induction false} EvictingNext(f0: Forest, f: Forest, held: seq<Key>, rank: Key -> int, num: nat,
                                        freed: seq<Slot>, trees: seq<Forest>, order: seq<Key>,
                                        leaf: Key, leaves: set<Key>)
    requires Evicting(f0, f, held, rank, num, freed, trees, order) && |freed| < num
    requires AllHeld(f, held) && LocksMatch(f, held) && LeavesExact(f, leaves)
    requires leaf in leaves && forall p :: p in leaves ==> rank(leaf) <= rank(p)
    ensures IsNode(f, leaf) && |NodeAt(f, leaf).value| > 0
    ensures var g := DeleteLeaf(f, leaf);
      Evicting(f0, g, held, rank, num, freed + NodeAt(f, leaf).value, trees + [g], order + [leaf])
  {
    EvictOne(f, leaf, rank, leaves, held);
    FreeLeafIsNode(f, leaf);
    DeleteSizes(f, leaf);
    OrderGrows(trees, order, rank, leaf, DeleteLeaf(f, leaf));
  }

  lemma {:induction false} EvictOne(f: Forest, leaf: Key, rank: Key -> int, leaves: set<Key>, held: seq<Key>)
    requires WellFormed(f) && AllHeld(f, held) && LocksMatch(f, held) && LeavesExact(f, leaves)
    requires leaf in leaves && forall p :: p in leaves ==> rank(leaf) <= rank(p)
    ensures IsNode(f, leaf) && WellFormed(DeleteLeaf(f, leaf)) && EvictsOne(f, leaf, rank, DeleteLeaf(f, leaf))
    ensures |NodeAt(f, leaf).value| > 0
    ensures forall x :: Uses(f, x) == Uses(DeleteLeaf(f, leaf), x) + multiset(NodeAt(f, leaf).value)[x]
    ensures forall i :: 0 <= i < |held| ==> MatchSlots(DeleteLeaf(f, leaf), held[i]) == MatchSlots(f, held[i])
  {
    FreeLeafIsNode(f, leaf);
    FreeLeafUnheld(f, leaf, held);
    DeleteWellFormed(f, leaf);
    forall x: Slot ensures Uses(f, x) == Uses(DeleteLeaf(f, leaf), x) + multiset(NodeAt(f, leaf).value)[x] {
      DeleteUses(f, leaf, x);
    }
    forall i | 0 <= i < |held| ensures MatchSlots(DeleteLeaf(f, leaf), held[i]) == MatchSlots(f, held[i]) {
      if held[i] != [] { SlotsAfterDelete(f, leaf, held[i]); }
    }
  }

  // Without evictable leaves there is nothing evictable.
  lemma {:induction false} NothingLeft(f: Forest, leaves: set<Key>, held: seq<Key>)
    requires WellFormed(f) && LocksMatch(f, held) && LeavesExact(f, leaves)
    ensures leaves == {} ==> Evictable(f) == 0
  {
    if Evictable(f) > 0 {
      var leaf := SomeFreeLeaf(f, held);
      assert leaf in leaves;
    }
  }

  // --- Each change keeps the bookkeeping exact ---

  lemma {:induction false} AfterMatchExact(f: Forest, key: Key, e: int, p: int, leaves: set<Key>, held: seq<Key>)
    requires Exact(f, e, p, leaves, held)
    ensures Exact(AfterMatch(f, key), e, p, leaves, held)
  {
    AllHeldEnd(f, held);
    AfterMatchSizes(f, key);
    AfterMatchLocks(f, key, held);
    AfterMatchHeld(f, key, held);
    AfterMatchLeaves(f, key, leaves);
  }

  lemma {:induction false} InsertExact(f: Forest, key: Key, value: seq<Slot>, e: int, p: int, leaves: set<Key>, held: seq<Key>)
    requires Exact(f, e, p, leaves, held) && |value| == |key|
    ensures |MatchSlots(f, key)| <= |key|
    ensures var n := |MatchSlots(f, key)|;
      Exact(Insert(f, key, value), e + |key| - n, p, if n < |key| then leaves - {key[..n]} + {key} else leaves, held)
  {
    MatchWithinKey(f, key);
    AllHeldEnd(f, held);
    AllHeldHeads(f, key, held);
    InsertSizes(f, key, value);
    InsertLocks(f, key, value, held);
    InsertHeld(f, key, value, held);
    InsertLeaves(f, key, value, leaves);
  }

  lemma {:induction false} LockExact(f: Forest, path: Key, e: int, p: int, leaves: set<Key>, held: seq<Key>)
    requires Exact(f, e, p, leaves, held) && (path == [] || IsNode(f, path))
    ensures var d := UnitsWith(f, path, 0);
      Exact(Lock(f, path), e - d, p + d, leaves - {path}, held + [path])
  {
    LockSizes(f, path);
    LockMatches(f, held, path);
    LockHeld(f, path, held);
    LockLeaves(f, path, leaves);
  }

  lemma {:induction false} UnlockExact(f: Forest, i: nat, e: int, p: int, leaves: set<Key>, held: seq<Key>)
    requires Exact(f, e, p, leaves, held) && i < |held| && (held[i] == [] || IsNode(f, held[i]))
    ensures WellFormed(Unlock(f, held[i]))
    ensures var d, g := UnitsWith(f, held[i], 1), Unlock(f, held[i]);
      Exact(g, e + d, p - d, if FreeLeaf(g, held[i]) then leaves + {held[i]} else leaves, Drop(held, i))
  {
    UnlockSizes(f, held[i]);
    UnlockHolder(f, held, i);
    UnlockHeld(f, held[i], held, i);
    UnlockLeaves(f, held[i], leaves);
  }

  lemma {:induction false} DeleteExact(f: Forest, leaf: Key, e: int, p: int, leaves: set<Key>, held: seq<Key>)
    requires Exact(f, e, p, leaves, held) && leaf in leaves
    ensures IsNode(f, leaf) && WellFormed(DeleteLeaf(f, leaf))
    ensures var g, parent := DeleteLeaf(f, leaf), ParentOf(f, leaf);
      Exact(g, e - |NodeAt(f, leaf).value|, p, leaves - {leaf} + if FreeLeaf(g, parent) then {parent} else {}, held)
  {
    FreeLeafIsNode(f, leaf);
    DeleteSizes(f, leaf);
    DeleteLocks(f, leaf, held);
    DeleteHeld(f, leaf, held);
    DeleteLeaves(f, leaf, leaves);
  }

  lemma {:induction false} AfterMatchHeld(f: Forest, key: Key, held: seq<Key>)
    requires WellFormed(f) && AllHeld(f, held)
    ensures WellFormed(AfterMatch(f, key)) && AllHeld(AfterMatch(f, key), held)
  {
    AfterMatchWellFormed(f, key);
    forall i | 0 <= i < |held| ensures held[i] == [] || IsNode(AfterMatch(f, key), held[i]) {
      if held[i] != [] { NodeAfterMatch(f, key, held[i]); }
    }
  }

  lemma {:induction false} AfterMatchLeaves(f: Forest, key: Key, leaves: set<Key>)
    requires WellFormed(f) && LeavesExact(f, leaves)
    ensures WellFormed(AfterMatch(f, key)) && LeavesExact(AfterMatch(f, key), leaves)
  {
    AfterMatchWellFormed(f, key);
    forall p: Key ensures p in leaves <==> FreeLeaf(AfterMatch(f, key), p) {
      AfterMatchFreeLeaf(f, key, p);
    }
  }

  lemma {:induction false} InsertHeld(f: Forest, key: Key, value: seq<Slot>, held: seq<Key>)
    requires WellFormed(f) && |value| == |key| && AllHeld(f, held)
    ensures WellFormed(Insert(f, key, value)) && AllHeld(Insert(f, key, value), held)
  {
    InsertWellFormed(f, key, value);
    forall i | 0 <= i < |held| ensures held[i] == [] || IsNode(Insert(f, key, value), held[i]) {
      if held[i] != [] { NodeAfterInsert(f, key, value, held[i]); }
    }
  }

  lemma {:induction false} InsertLeaves(f: Forest, key: Key, value: seq<Slot>, leaves: set<Key>)
    requires WellFormed(f) && |value| == |key| && LeavesExact(f, leaves) && |MatchSlots(f, key)| <= |key|
    ensures WellFormed(Insert(f, key, value))
    ensures LeavesExact(Insert(f, key, value),
      if |MatchSlots(f, key)| < |key| then leaves - {key[..|MatchSlots(f, key)|]} + {key} else leaves)
  {
    InsertWellFormed(f, key, value);
    var n := |MatchSlots(f, key)|;
    var after := if n < |key| then leaves - {key[..n]} + {key} else leaves;
    forall p: Key ensures p in after <==> FreeLeaf(Insert(f, key, value), p) {
      InsertFreeLeaf(f, key, value, p);
    }
  }

  lemma {:induction false} LockHeld(f: Forest, path: Key, held: seq<Key>)
    requires WellFormed(f) && (path == [] || IsNode(f, path)) && AllHeld(f, held)
    ensures WellFormed(Lock(f, path)) && AllHeld(Lock(f, path), held + [path])
  {
    LockWellFormed(f, path);
    forall i | 0 <= i < |held + [path]| ensures (held + [path])[i] == [] || IsNode(Lock(f, path), (held + [path])[i]) {
      LockKeeps(f, path, (held + [path])[i], 0);
      if i < |held| { assert held[i] == [] || IsNode(f, held[i]); }
    }
  }

  lemma {:induction false} LockLeaves(f: Forest, path: Key, leaves: set<Key>)
    requires WellFormed(f) && (path == [] || IsNode(f, path)) && LeavesExact(f, leaves)
    ensures WellFormed(Lock(f, path)) && LeavesExact(Lock(f, path), leaves - {path})
  {
    LockWellFormed(f, path);
    forall p: Key ensures p in leaves - {path} <==> FreeLeaf(Lock(f, path), p) {
      LockFreeLeaf(f, path, p);
    }
  }

  lemma {:induction false} UnlockHeld(f: Forest, path: Key, held: seq<Key>, i: nat)
    requires WellFormed(f) && i < |held| && AllHeld(f, held) && (path == [] || IsNode(f, path))
    ensures WellFormed(Unlock(f, path)) && AllHeld(Unlock(f, path), Drop(held, i))
  {
    UnlockWellFormed(f, path);
    var left := Drop(held, i);
    forall j | 0 <= j < |left| ensures left[j] == [] || IsNode(Unlock(f, path), left[j]) {
      UnlockKeeps(f, path, left[j], 0);
      assert left[j] == held[if j < i then j else j + 1];
    }
  }

  lemma {:induction false} UnlockLeaves(f: Forest, path: Key, leaves: set<Key>)
    requires WellFormed(f) && (path == [] || IsNode(f, path)) && LeavesExact(f, leaves)
    ensures WellFormed(Unlock(f, path))
    ensures LeavesExact(Unlock(f, path), if FreeLeaf(Unlock(f, path), path) then leaves + {path} else leaves)
  {
    UnlockWellFormed(f, path);
    UnlockedStays(f, path);
    var after := if FreeLeaf(Unlock(f, path), path) then leaves + {path} else leaves;
    forall p: Key ensures p in after <==> FreeLeaf(Unlock(f, path), p) {
      UnlockFreeLeaf(f, path, p);
    }
  }

  lemma {:induction false} UnlockedStays(f: Forest, path: Key)
    requires WellFormed(f) && (path == [] || IsNode(f, path))
    ensures WellFormed(Unlock(f, path)) && (FreeLeaf(f, path) ==> FreeLeaf(Unlock(f, path), path))
    decreases f
  {
    UnlockWellFormed(f, path);
    if path != [] {
      if f.key[0] != path[0] {
        UnlockedStays(f.rest, path);
      } else {
        UnlockedStays(f.kids, path[|f.key|..]);
      }
    }
  }

  lemma {:induction false} DeleteHeld(f: Forest, leaf: Key, held: seq<Key>)
    requires WellFormed(f) && FreeLeaf(f, leaf) && AllHeld(f, held) && LocksMatch(f, held)
    ensures IsNode(f, leaf) && WellFormed(DeleteLeaf(f, leaf)) && AllHeld(DeleteLeaf(f, leaf), held)
  {
    FreeLeafIsNode(f, leaf);
    FreeLeafUnheld(f, leaf, held);
    DeleteWellFormed(f, leaf);
    forall i | 0 <= i < |held| ensures held[i] == [] || IsNode(DeleteLeaf(f, leaf), held[i]) {
      if held[i] != [] { NodeAfterDelete(f, leaf, held[i]); }
    }
  }

  lemma {:induction false} DeleteLeaves(f: Forest, leaf: Key, leaves: set<Key>)
    requires WellFormed(f) && FreeLeaf(f, leaf) && LeavesExact(f, leaves)
    ensures IsNode(f, leaf) && WellFormed(DeleteLeaf(f, leaf))
    ensures var parent := ParentOf(f, leaf);
      LeavesExact(DeleteLeaf(f, leaf), leaves - {leaf} + if FreeLeaf(DeleteLeaf(f, leaf), parent) then {parent} else {})
  {
    FreeLeafIsNode(f, leaf);
    DeleteWellFormed(f, leaf);
    var g, parent := DeleteLeaf(f, leaf), ParentOf(f, leaf);
    var after := leaves - {leaf} + if FreeLeaf(g, parent) then {parent} else {};
    forall p: Key ensures p in after <==> FreeLeaf(g, p) {
      DeleteFreeLeaf(f, leaf, p);
    }
  }
}
