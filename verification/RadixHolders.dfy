// Lock counts always equal the number of holders through a node: kept by splitting,
// insertion, locking, unlocking and eviction.
module RadixHolders {
  import opened Bags
  import opened RadixTree
  import opened RadixMeaning
  import opened RadixLocks

  lemma {:induction false} HeldBeneath(f: Forest, held: seq<Key>)
    requires WellFormed(f) && f.Node? && HeldEnd(f, held)
    ensures AllHeld(f.kids, Beneath(held, f.key))
  {
    var below := Beneath(held, f.key);
    forall j | 0 <= j < |below| ensures below[j] == [] || IsNode(f.kids, below[j]) {
      BeneathMember(held, f.key, j);
      var i :| 0 <= i < |held| && f.key <= held[i] && below[j] == held[i][|f.key|..];
      assert held[i][0] == f.key[0] && IsNode(f, held[i]);
    }
  }

  lemma {:induction false} NodeHasHead(f: Forest, path: Key)
    requires WellFormed(f) && IsNode(f, path)
    ensures HasHead(f, path[0])
    decreases f
  {
    if f.key[0] != path[0] { NodeHasHead(f.rest, path); }
  }

  lemma {:induction false} AllHeldEnd(f: Forest, held: seq<Key>)
    requires WellFormed(f) && AllHeld(f, held)
    ensures HeldEnd(f, held)
  {
  }

  lemma {:induction false} HeldEndRest(f: Forest, held: seq<Key>)
    requires WellFormed(f) && f.Node? && HeldEnd(f, held)
    ensures HeldEnd(f.rest, held)
  {
    forall i | 0 <= i < |held| && held[i] != [] && HasHead(f.rest, held[i][0]) ensures IsNode(f.rest, held[i]) {
      assert HasHead(f, held[i][0]) && IsNode(f, held[i]);
    }
  }

  // A node's lock count is the number of holders through its whole path.
  lemma {:induction false} LocksAt(f: Forest, path: Key, held: seq<Key>)
    requires WellFormed(f) && IsNode(f, path) && LocksMatch(f, held)
    ensures NodeAt(f, path).locks == Through(held, path)
    decreases f
  {
    if f.key[0] != path[0] {
      LocksAt(f.rest, path, held);
    } else if |f.key| == |path| {
      assert f.key == path;
    } else {
      var m := |f.key|;
      LocksAt(f.kids, path[m..], Beneath(held, f.key));
      ThroughTwice(held, f.key, path[m..]);
      assert f.key + path[m..] == path;
    }
  }

  // --- Splitting and insertion ---

  // Holders through the upper part of a segment run through all of it.
  lemma {:induction false} HoldersRunThrough(f: Forest, m: nat, held: seq<Key>)
    requires WellFormed(f) && f.Node? && 0 < m <= |f.key| && HeldEnd(f, held)
    ensures forall i :: 0 <= i < |held| && f.key[..m] <= held[i] ==> f.key <= held[i]
  {
    forall i | 0 <= i < |held| && f.key[..m] <= held[i] ensures f.key <= held[i] {
      assert held[i][0] == f.key[..m][0] == f.key[0];
      assert IsNode(f, held[i]);
    }
  }

  lemma {:induction false} SplitLocks(f: Forest, m: nat, held: seq<Key>, added: Forest)
    requires WellFormed(f) && f.Node? && 0 < m < |f.key| && HeldEnd(f, held) && LocksMatch(f, held)
    requires added.Nil? || (added.locks == 0 && added.kids.Nil? && added.rest.Nil? && added.key != [] && added.key[0] != f.key[m])
    ensures var lower := Node(f.key[m..], f.value[m..], f.locks, f.kids, added);
      LocksMatch(Node(f.key[..m], f.value[..m], f.locks, lower, f.rest), held)
  {
    var upper := f.key[..m];
    var below := Beneath(held, upper);
    HoldersRunThrough(f, m, held);
    ThroughSame(held, upper, f.key);
    ThroughTwice(held, upper, f.key[m..]);
    assert upper + f.key[m..] == f.key;
    if added.Node? {
      forall j | 0 <= j < |below| ensures !(added.key <= below[j]) {
        BeneathMember(held, upper, j);
        var i :| 0 <= i < |held| && upper <= held[i] && below[j] == held[i][m..];
        assert f.key <= held[i] && held[i][m] == f.key[m];
      }
      ThroughZero(below, added.key);
      assert LocksMatch(added, below);
    }
  }

  lemma {:induction false} AfterMatchLocks(f: Forest, key: Key, held: seq<Key>)
    requires WellFormed(f) && HeldEnd(f, held) && LocksMatch(f, held)
    ensures LocksMatch(AfterMatch(f, key), held)
    decreases f
  {
    if f.Node? && key != [] {
      if f.key[0] != key[0] {
        HeldEndRest(f, held);
        AfterMatchLocks(f.rest, key, held);
      } else {
        var m := Common(f.key, key);
        CommonPositive(f.key, key);
        if m < |f.key| {
          SplitLocks(f, m, held, Nil);
        } else {
          HeldBeneath(f, held);
          AllHeldEnd(f.kids, Beneath(held, f.key));
          AfterMatchLocks(f.kids, key[m..], Beneath(held, f.key));
        }
      }
    }
  }

  // Nobody holds a path that starts like the key but outside the forest.
  ghost predicate HeadsKnown(f: Forest, key: Key, held: seq<Key>) {
    key != [] ==> forall i :: 0 <= i < |held| && held[i] != [] && held[i][0] == key[0] ==> HasHead(f, key[0])
  }

  lemma {:induction false} AllHeldHeads(f: Forest, key: Key, held: seq<Key>)
    requires WellFormed(f) && AllHeld(f, held)
    ensures HeadsKnown(f, key, held)
  {
    if key != [] {
      forall i | 0 <= i < |held| && held[i] != [] && held[i][0] == key[0] ensures HasHead(f, key[0]) {
        NodeHasHead(f, held[i]);
      }
    }
  }

  lemma {:induction false} InsertLocks(f: Forest, key: Key, value: seq<Slot>, held: seq<Key>)
    requires WellFormed(f) && |value| == |key| && HeldEnd(f, held) && HeadsKnown(f, key, held) && LocksMatch(f, held)
    ensures LocksMatch(Insert(f, key, value), held)
    decreases f
  {
    if key != [] {
      if f.Nil? {
        assert !HasHead(f, key[0]);
        assert forall i :: 0 <= i < |held| ==> held[i] == [] || held[i][0] != key[0];
        ThroughZero(held, key);
      } else if f.key[0] != key[0] {
        HeldEndRest(f, held);
        InsertLocks(f.rest, key, value, held);
      } else {
        var m := Common(f.key, key);
        CommonPositive(f.key, key);
        if m < |f.key| {
          SplitLocks(f, m, held, if m == |key| then Nil else Node(key[m..], value[m..], 0, Nil, Nil));
        } else {
          var below := Beneath(held, f.key);
          HeldBeneath(f, held);
          AllHeldEnd(f.kids, below);
          AllHeldHeads(f.kids, key[m..], below);
          InsertLocks(f.kids, key[m..], value[m..], below);
        }
      }
    }
  }

  lemma {:induction false} DeleteLocks(f: Forest, leaf: Key, held: seq<Key>)
    requires WellFormed(f) && IsNode(f, leaf) && LocksMatch(f, held)
    ensures LocksMatch(DeleteLeaf(f, leaf), held)
    decreases f
  {
    if f.key[0] != leaf[0] {
      DeleteLocks(f.rest, leaf, held);
    } else if |f.key| < |leaf| {
      DeleteLocks(f.kids, leaf[|f.key|..], Beneath(held, f.key));
    }
  }

  // --- Locking and unlocking a path ---

  // inc_lock_ref from the node at the path up to the root.
  function Lock(f: Forest, path: Key): Forest
    requires WellFormed(f) && (path == [] || IsNode(f, path))
  {
    if path == [] then f
    else if f.key[0] != path[0] then f.(rest := Lock(f.rest, path))
    else f.(locks := f.locks + 1, kids := Lock(f.kids, path[|f.key|..]))
  }

  // dec_lock_ref; the guard is never needed where a holder lets go, by UnlockTakesOne.
  function Unlock(f: Forest, path: Key): Forest
    requires WellFormed(f) && (path == [] || IsNode(f, path))
  {
    if path == [] then f
    else if f.key[0] != path[0] then f.(rest := Unlock(f.rest, path))
    else f.(locks := if f.locks > 0 then f.locks - 1 else 0, kids := Unlock(f.kids, path[|f.key|..]))
  }

  lemma {:induction false} LockWellFormed(f: Forest, path: Key)
    requires WellFormed(f) && (path == [] || IsNode(f, path))
    ensures WellFormed(Lock(f, path)) && forall u :: HasHead(Lock(f, path), u) == HasHead(f, u)
    decreases f
  {
    if path != [] {
      if f.key[0] != path[0] { LockWellFormed(f.rest, path); } else { LockWellFormed(f.kids, path[|f.key|..]); }
    }
  }

  lemma {:induction false} UnlockWellFormed(f: Forest, path: Key)
    requires WellFormed(f) && (path == [] || IsNode(f, path))
    ensures WellFormed(Unlock(f, path)) && forall u :: HasHead(Unlock(f, path), u) == HasHead(f, u)
    decreases f
  {
    if path != [] {
      if f.key[0] != path[0] { UnlockWellFormed(f.rest, path); } else { UnlockWellFormed(f.kids, path[|f.key|..]); }
    }
  }

  // A path that starts elsewhere, or nowhere, locks nothing here.
  lemma {:induction false} LocksIgnore(f: Forest, held: seq<Key>, path: Key)
    requires WellFormed(f) && (path == [] || !HasHead(f, path[0]))
    ensures LocksMatch(f, held + [path]) <==> LocksMatch(f, held)
    decreases f
  {
    if f.Node? {
      ThroughSnoc(held, path, f.key);
      assert !(f.key <= path);
      assert Beneath(held + [path], f.key) == Beneath(held, f.key);
      LocksIgnore(f.rest, held, path);
    }
  }

  lemma {:induction false} LockMatches(f: Forest, held: seq<Key>, path: Key)
    requires WellFormed(f) && (path == [] || IsNode(f, path)) && LocksMatch(f, held)
    ensures LocksMatch(Lock(f, path), held + [path])
    decreases f
  {
    if path == [] {
      LocksIgnore(f, held, path);
    } else {
      ThroughSnoc(held, path, f.key);
      if f.key[0] != path[0] {
        LockMatches(f.rest, held, path);
        assert !(f.key <= path);
        assert Beneath(held + [path], f.key) == Beneath(held, f.key);
      } else {
        LockMatches(f.kids, Beneath(held, f.key), path[|f.key|..]);
        LocksIgnore(f.rest, held, path);
      }
    }
  }

  lemma {:induction false} UnlockMatches(f: Forest, held: seq<Key>, path: Key)
    requires WellFormed(f) && (path == [] || IsNode(f, path)) && LocksMatch(f, held + [path])
    ensures LocksMatch(Unlock(f, path), held)
    decreases f
  {
    if path == [] {
      LocksIgnore(f, held, path);
    } else {
      ThroughSnoc(held, path, f.key);
      if f.key[0] != path[0] {
        UnlockMatches(f.rest, held, path);
        assert !(f.key <= path);
        assert Beneath(held + [path], f.key) == Beneath(held, f.key);
      } else {
        UnlockMatches(f.kids, Beneath(held, f.key), path[|f.key|..]);
        LocksIgnore(f.rest, held, path);
      }
    }
  }

  // Every node on the path has a holder.
  predicate PathLocked(f: Forest, path: Key)
    requires WellFormed(f) && (path == [] || IsNode(f, path))
  {
    path == [] ||
    if f.key[0] != path[0] then PathLocked(f.rest, path) else f.locks >= 1 && PathLocked(f.kids, path[|f.key|..])
  }

  // Where a holder lets go, every count on its path is at least one before, so none would
  // fall below zero.
  lemma {:induction false} UnlockTakesOne(f: Forest, held: seq<Key>, path: Key)
    requires WellFormed(f) && (path == [] || IsNode(f, path)) && LocksMatch(f, held + [path])
    ensures PathLocked(f, path)
    decreases f
  {
    if path != [] {
      ThroughSnoc(held, path, f.key);
      if f.key[0] != path[0] {
        UnlockTakesOne(f.rest, held, path);
      } else {
        UnlockTakesOne(f.kids, Beneath(held, f.key), path[|f.key|..]);
      }
    }
  }

  lemma {:induction false} LockKeepsNode(f: Forest, path: Key)
    requires WellFormed(f) && IsNode(f, path)
    ensures WellFormed(Lock(f, path)) && IsNode(Lock(f, path), path)
    ensures WellFormed(Unlock(f, path)) && IsNode(Unlock(f, path), path)
    decreases f
  {
    LockWellFormed(f, path);
    UnlockWellFormed(f, path);
    if f.key[0] != path[0] {
      LockKeepsNode(f.rest, path);
    } else if |f.key| < |path| {
      LockKeepsNode(f.kids, path[|f.key|..]);
    }
  }

  // Locking and unlocking a path undo each other, unlocking first only where it is locked.
  lemma {:induction false} LockRoundTrip(f: Forest, path: Key)
    requires WellFormed(f) && IsNode(f, path)
    ensures WellFormed(Lock(f, path)) && IsNode(Lock(f, path), path) && Unlock(Lock(f, path), path) == f
    ensures WellFormed(Unlock(f, path)) && IsNode(Unlock(f, path), path)
    ensures Lock(Unlock(f, path), path) == f <==> PathLocked(f, path)
    decreases f
  {
    LockKeepsNode(f, path);
    if f.key[0] != path[0] {
      LockRoundTrip(f.rest, path);
    } else if |f.key| < |path| {
      LockRoundTrip(f.kids, path[|f.key|..]);
    }
  }

  lemma {:induction false} ThroughConcat(a: seq<Key>, b: seq<Key>, k: Key)
    ensures Through(a + b, k) == Through(a, k) + Through(b, k)
    ensures Beneath(a + b, k) == Beneath(a, k) + Beneath(b, k)
  {
    if b == [] {
      assert a + b == a;
    } else {
      ThroughConcat(a, b[..|b| - 1], k);
      assert (a + b)[..|a + b| - 1] == a + b[..|b| - 1];
    }
  }

  // The order of the holders does not matter.
  lemma {:induction false} LocksReorder(f: Forest, a: seq<Key>, h: Key, b: seq<Key>)
    ensures LocksMatch(f, a + [h] + b) <==> LocksMatch(f, a + b + [h])
    decreases f
  {
    if f.Node? {
      var k := f.key;
      ThroughConcat(a + [h], b, k);
      ThroughConcat(a + b, [h], k);
      ThroughConcat(a, [h], k);
      ThroughConcat(a, b, k);
      var mid := Beneath([h], k);
      assert [h][..0] == [] && mid == if k <= h then [h[|k|..]] else [];
      if k <= h {
        LocksReorder(f.kids, Beneath(a, k), h[|k|..], Beneath(b, k));
      } else {
        assert Beneath(a, k) + [] + Beneath(b, k) == Beneath(a, k) + Beneath(b, k) + [];
      }
      LocksReorder(f.rest, a, h, b);
    }
  }

  // The i-th holder lets go.
  lemma {:induction false} UnlockHolder(f: Forest, held: seq<Key>, i: nat)
    requires WellFormed(f) && i < |held| && LocksMatch(f, held) && (held[i] == [] || IsNode(f, held[i]))
    ensures LocksMatch(Unlock(f, held[i]), Drop(held, i)) && PathLocked(f, held[i])
  {
    assert held == held[..i] + [held[i]] + held[i + 1..];
    LocksReorder(f, held[..i], held[i], held[i + 1..]);
    UnlockMatches(f, Drop(held, i), held[i]);
    UnlockTakesOne(f, Drop(held, i), held[i]);
  }
}
