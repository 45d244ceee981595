// What the tree keeps for the holders of a path: the slots along it survive every
// operation, and locking moves units between the evictable and the protected size.
module RadixKept {
  import opened RadixTree
  import opened RadixMeaning
  import opened RadixLocks
  import opened RadixHolders

  // --- The slots along a held path ---

  lemma {:induction false} NodeSlots(f: Forest, path: Key)
    requires WellFormed(f) && IsNode(f, path)
    ensures |MatchSlots(f, path)| == |path|
    decreases f
  {
    if f.key[0] != path[0] {
      NodeSlots(f.rest, path);
    } else {
      CommonIs(f.key, path, |f.key|);
      if |f.key| < |path| { NodeSlots(f.kids, path[|f.key|..]); }
    }
  }

  // Forests that cache the same prefixes match alike.
  lemma {:induction false} SameGetSameMatch(f: Forest, g: Forest, key: Key)
    requires WellFormed(f) && WellFormed(g)
    requires forall i :: 1 <= i <= |key| ==> Get(f, key[..i]) == Get(g, key[..i])
    ensures MatchSlots(f, key) == MatchSlots(g, key)
  {
    MatchWithinKey(f, key);
    MatchWithinKey(g, key);
    var a, b := MatchSlots(f, key), MatchSlots(g, key);
    if a != [] { MatchAlikeAt(f, g, key, |a|); }
    if b != [] { MatchAlikeAt(f, g, key, |b|); }
    assert |a| == |b|;
    forall j | 0 <= j < |a| ensures a[j] == b[j] {
      MatchAlikeAt(f, g, key, j + 1);
    }
  }

  lemma {:induction false} MatchAlikeAt(f: Forest, g: Forest, key: Key, i: nat)
    requires WellFormed(f) && WellFormed(g) && 1 <= i <= |key| && Get(f, key[..i]) == Get(g, key[..i])
    ensures i <= |MatchSlots(f, key)| <==> i <= |MatchSlots(g, key)|
    ensures i <= |MatchSlots(f, key)| ==> MatchSlots(f, key)[i - 1] == MatchSlots(g, key)[i - 1]
  {
    MatchIsLongest(f, key, i);
    MatchIsLongest(g, key, i);
  }

  lemma {:induction false} SlotsAfterMatch(f: Forest, key: Key, path: Key)
    requires WellFormed(f)
    ensures WellFormed(AfterMatch(f, key)) && MatchSlots(AfterMatch(f, key), path) == MatchSlots(f, path)
  {
    AfterMatchWellFormed(f, key);
    forall i | 1 <= i <= |path| ensures Get(AfterMatch(f, key), path[..i]) == Get(f, path[..i]) {
      AfterMatchGet(f, key, path[..i]);
    }
    SameGetSameMatch(AfterMatch(f, key), f, path);
  }

  // Insertion never replaces a cached slot.
  lemma {:induction false} SlotsAfterInsert(f: Forest, key: Key, value: seq<Slot>, path: Key)
    requires WellFormed(f) && |value| == |key| && |MatchSlots(f, path)| == |path|
    ensures WellFormed(Insert(f, key, value)) && MatchSlots(Insert(f, key, value), path) == MatchSlots(f, path)
  {
    InsertWellFormed(f, key, value);
    forall i | 1 <= i <= |path| ensures Get(Insert(f, key, value), path[..i]) == Get(f, path[..i]) {
      InsertGet(f, key, value, path[..i]);
      MatchIsLongest(f, path, i);
    }
    SameGetSameMatch(Insert(f, key, value), f, path);
  }

  lemma {:induction false} SlotsAfterDelete(f: Forest, leaf: Key, path: Key)
    requires WellFormed(f) && IsNode(f, leaf) && IsNode(f, path) && !(leaf <= path)
    ensures WellFormed(DeleteLeaf(f, leaf)) && MatchSlots(DeleteLeaf(f, leaf), path) == MatchSlots(f, path)
    decreases f
  {
    DeleteWellFormed(f, leaf);
    if f.key[0] != leaf[0] {
      if f.key[0] != path[0] { SlotsAfterDelete(f.rest, leaf, path); }
    } else if |f.key| == |leaf| {
      assert f.key == leaf;
    } else if f.key[0] == path[0] {
      var m := |f.key|;
      CommonIs(f.key, path, m);
      assert leaf == f.key + leaf[m..] && path == f.key + path[m..];
      if |path| > m {
        PrefixParts(f.key, leaf[m..], path);
        SlotsAfterDelete(f.kids, leaf[m..], path[m..]);
      } else {
        assert path[m..] == [];
      }
    }
  }

  // --- Locking changes lock counts only ---

  lemma {:induction false} LockKeeps(f: Forest, path: Key, other: Key, x: Slot)
    requires WellFormed(f) && (path == [] || IsNode(f, path))
    ensures WellFormed(Lock(f, path)) && Uses(Lock(f, path), x) == Uses(f, x)
    ensures MatchSlots(Lock(f, path), other) == MatchSlots(f, other) && (IsNode(Lock(f, path), other) <==> IsNode(f, other))
    decreases f
  {
    LockWellFormed(f, path);
    if path != [] {
      if f.key[0] != path[0] {
        LockKeeps(f.rest, path, other, x);
      } else {
        var m := |f.key|;
        if f.key <= other { CommonIs(f.key, other, m); }
        if other != [] && f.key[0] == other[0] && Common(f.key, other) == m {
          LockKeeps(f.kids, path[m..], other[m..], x);
        } else {
          LockKeeps(f.kids, path[m..], [], x);
        }
      }
    }
  }

  lemma {:induction false} UnlockKeeps(f: Forest, path: Key, other: Key, x: Slot)
    requires WellFormed(f) && (path == [] || IsNode(f, path))
    ensures WellFormed(Unlock(f, path)) && Uses(Unlock(f, path), x) == Uses(f, x)
    ensures MatchSlots(Unlock(f, path), other) == MatchSlots(f, other) && (IsNode(Unlock(f, path), other) <==> IsNode(f, other))
    decreases f
  {
    UnlockWellFormed(f, path);
    if path != [] {
      if f.key[0] != path[0] {
        UnlockKeeps(f.rest, path, other, x);
      } else {
        var m := |f.key|;
        if f.key <= other { CommonIs(f.key, other, m); }
        if other != [] && f.key[0] == other[0] && Common(f.key, other) == m {
          UnlockKeeps(f.kids, path[m..], other[m..], x);
        } else {
          UnlockKeeps(f.kids, path[m..], [], x);
        }
      }
    }
  }

  // Units along a path in nodes with the given lock count.
  function UnitsWith(f: Forest, path: Key, locks: nat): nat
    requires WellFormed(f) && (path == [] || IsNode(f, path))
  {
    if path == [] then 0
    else if f.key[0] != path[0] then UnitsWith(f.rest, path, locks)
    else (if f.locks == locks then |f.key| else 0) + UnitsWith(f.kids, path[|f.key|..], locks)
  }

  lemma {:induction false} LockSizes(f: Forest, path: Key)
    requires WellFormed(f) && (path == [] || IsNode(f, path))
    ensures Evictable(Lock(f, path)) == Evictable(f) - UnitsWith(f, path, 0)
    ensures Protected(Lock(f, path)) == Protected(f) + UnitsWith(f, path, 0)
    decreases f
  {
    if path != [] {
      if f.key[0] != path[0] { LockSizes(f.rest, path); } else { LockSizes(f.kids, path[|f.key|..]); }
    }
  }

  lemma {:induction false} UnlockSizes(f: Forest, path: Key)
    requires WellFormed(f) && (path == [] || IsNode(f, path))
    ensures Evictable(Unlock(f, path)) == Evictable(f) + UnitsWith(f, path, 1)
    ensures Protected(Unlock(f, path)) == Protected(f) - UnitsWith(f, path, 1)
    decreases f
  {
    if path != [] {
      if f.key[0] != path[0] { UnlockSizes(f.rest, path); } else { UnlockSizes(f.kids, path[|f.key|..]); }
    }
  }
}
