// The evictable leaves of the radix tree: how every operation changes them, and why
// some leaf can be evicted as long as any unit is evictable.
module RadixLeaves {
  import opened RadixTree
  import opened RadixMeaning
  import opened RadixLocks
  import opened RadixHolders

  // A node that nobody locks and that has no children.
  predicate FreeLeaf(f: Forest, path: Key)
    requires WellFormed(f)
  {
    f.Node? && path != [] &&
    if f.key[0] != path[0] then FreeLeaf(f.rest, path)
    else f.key <= path && if |f.key| == |path| then f.locks == 0 && f.kids.Nil? else FreeLeaf(f.kids, path[|f.key|..])
  }

  lemma {:induction false} FreeLeafIsNode(f: Forest, path: Key)
    requires WellFormed(f)
    ensures FreeLeaf(f, path) <==> IsNode(f, path) && NodeAt(f, path).locks == 0 && NodeAt(f, path).kids.Nil?
    decreases f
  {
    if f.Node? && path != [] {
      if f.key[0] != path[0] {
        FreeLeafIsNode(f.rest, path);
      } else if |f.key| < |path| {
        FreeLeafIsNode(f.kids, path[|f.key|..]);
      }
    }
  }

  // --- Some leaf is evictable ---

  lemma {:induction false} UnlockedBelow(f: Forest)
    requires WellFormed(f) && LocksMatch(f, [])
    ensures Protected(f) == 0 && (f.Node? ==> Evictable(f) > 0)
    decreases f
  {
    if f.Node? {
      UnlockedBelow(f.kids);
      UnlockedBelow(f.rest);
    }
  }

  lemma {:induction false} SomeFreeLeaf(f: Forest, held: seq<Key>) returns (leaf: Key)
    requires WellFormed(f) && LocksMatch(f, held) && Evictable(f) > 0
    ensures FreeLeaf(f, leaf)
    decreases f
  {
    if Evictable(f.rest) > 0 {
      leaf := SomeFreeLeaf(f.rest, held);
      FreeLeafIsNode(f.rest, leaf);
      NodeHasHead(f.rest, leaf);
    } else if Evictable(f.kids) > 0 {
      var below := SomeFreeLeaf(f.kids, Beneath(held, f.key));
      leaf := f.key + below;
      assert leaf[|f.key|..] == below && leaf[0] == f.key[0] && below != [];
    } else {
      leaf := f.key;
      ThroughZero(held, f.key);
      UnlockedBelow(f.kids);
    }
  }

  // Nobody holds a path through a free leaf.
  lemma {:induction false} FreeLeafUnheld(f: Forest, leaf: Key, held: seq<Key>)
    requires WellFormed(f) && FreeLeaf(f, leaf) && LocksMatch(f, held)
    ensures forall i :: 0 <= i < |held| ==> !(leaf <= held[i])
  {
    FreeLeafIsNode(f, leaf);
    LocksAt(f, leaf, held);
    ThroughZero(held, leaf);
  }

  // --- How operations change the free leaves ---

  lemma {:induction false} SplitFreeLeaf(f: Forest, m: nat, path: Key)
    requires WellFormed(f) && f.Node? && 0 < m < |f.key|
    ensures WellFormed(SplitNode(f, m)) && (FreeLeaf(SplitNode(f, m), path) <==> FreeLeaf(f, path))
  {
    SplitWellFormed(f, m);
    if path != [] && f.key[0] == path[0] {
      PrefixParts(f.key[..m], f.key[m..], path);
      assert f.key[..m] + f.key[m..] == f.key && path[0] == f.key[..m][0];
      var lower := SplitNode(f, m).kids;
      assert FreeLeaf(SplitNode(f, m), path) == (f.key[..m] <= path && |path| > m && FreeLeaf(lower, path[m..]));
      if f.key[..m] <= path && |path| > m {
        assert !FreeLeaf(Nil, path[m..]);
        if f.key <= path {
          assert path[m..][0] == f.key[m..][0];
          assert path[m..][|f.key| - m..] == path[|f.key|..];
        }
      }
    }
  }

  lemma {:induction false} AfterMatchFreeLeaf(f: Forest, key: Key, path: Key)
    requires WellFormed(f)
    ensures WellFormed(AfterMatch(f, key)) && (FreeLeaf(AfterMatch(f, key), path) <==> FreeLeaf(f, path))
    decreases f
  {
    AfterMatchWellFormed(f, key);
    if f.Node? && key != [] && path != [] {
      if f.key[0] != key[0] {
        AfterMatchFreeLeaf(f.rest, key, path);
      } else {
        var m := Common(f.key, key);
        CommonPositive(f.key, key);
        if m < |f.key| {
          SplitFreeLeaf(f, m, path);
        } else if f.key[0] == path[0] && |path| > m {
          AfterMatchFreeLeaf(f.kids, key[m..], path[m..]);
        }
        AfterMatchNil(f.kids, key[m..]);
      }
    }
  }

  lemma {:induction false} AfterMatchNil(f: Forest, key: Key)
    requires WellFormed(f)
    ensures AfterMatch(f, key).Nil? <==> f.Nil?
  {
  }

  // The new node is a free leaf, and the node it hangs from no longer is one.
  predicate InsertedFreeLeaf(f: Forest, key: Key, path: Key)
    requires WellFormed(f)
  {
    var n := |MatchSlots(f, key)|;
    if n >= |key| then FreeLeaf(f, path)
    else path == key || (path != key[..n] && FreeLeaf(f, path))
  }

  lemma {:induction false} InsertFreeLeaf(f: Forest, key: Key, value: seq<Slot>, path: Key)
    requires WellFormed(f) && |value| == |key|
    ensures WellFormed(Insert(f, key, value))
    ensures FreeLeaf(Insert(f, key, value), path) <==> InsertedFreeLeaf(f, key, path)
    decreases f
  {
    InsertWellFormed(f, key, value);
    if key == [] || path == [] {
    } else if f.Nil? {
      assert key[..0] == [];
      if |path| == |key| && key <= path { assert key == path; }
    } else if f.key[0] != key[0] {
      InsertFreeLeaf(f.rest, key, value, path);
      InsertRestFreeLeaf(f, key, value, path);
    } else {
      var m := Common(f.key, key);
      CommonPositive(f.key, key);
      if m < |f.key| {
        InsertSplitFreeLeaf(f, m, key, value, path);
      } else {
        if |path| > m { InsertFreeLeaf(f.kids, key[m..], value[m..], path[m..]); }
        InsertWellFormed(f.kids, key[m..], value[m..]);
        InsertBelowFreeLeaf(f, key, value, path, Insert(f.kids, key[m..], value[m..]));
      }
    }
  }

  lemma {:induction false} InsertRestFreeLeaf(f: Forest, key: Key, value: seq<Slot>, path: Key)
    requires WellFormed(f) && f.Node? && key != [] && path != [] && f.key[0] != key[0] && |value| == |key|
    requires WellFormed(Insert(f, key, value)) && WellFormed(Insert(f.rest, key, value))
    requires FreeLeaf(Insert(f.rest, key, value), path) <==> InsertedFreeLeaf(f.rest, key, path)
    ensures FreeLeaf(Insert(f, key, value), path) <==> InsertedFreeLeaf(f, key, path)
  {
    assert MatchSlots(f, key) == MatchSlots(f.rest, key);
    if f.key[0] == path[0] {
      assert path != key;
      var n := |MatchSlots(f, key)|;
      if 0 < n < |key| { assert key[..n][0] == key[0]; }
    }
  }

  // The kids after insertion are given, with their free leaves.
  lemma {:induction false} InsertBelowFreeLeaf(f: Forest, key: Key, value: seq<Slot>, path: Key, kids: Forest)
    requires WellFormed(f) && f.Node? && key != [] && path != [] && |value| == |key|
    requires f.key[0] == key[0] && Common(f.key, key) == |f.key|
    requires kids == Insert(f.kids, key[|f.key|..], value[|f.key|..])
    requires WellFormed(Insert(f, key, value)) && WellFormed(kids)
    requires |path| > |f.key| ==>
      (FreeLeaf(kids, path[|f.key|..]) <==> InsertedFreeLeaf(f.kids, key[|f.key|..], path[|f.key|..]))
    ensures FreeLeaf(Insert(f, key, value), path) <==> InsertedFreeLeaf(f, key, path)
  {
    var m := |f.key|;
    var below := |MatchSlots(f.kids, key[m..])|;
    MatchWithinKey(f.kids, key[m..]);
    assert f.key == key[..m] && |MatchSlots(f, key)| == m + below;
    assert key[..m + below] == f.key + key[m..][..below];
    assert key == f.key + key[m..];
    assert Insert(f, key, value) == f.(kids := kids);
    InsertNil(f.kids, key[m..], value[m..]);
    BelowFreeLeaf(f, key, path, kids, below);
  }

  lemma {:induction false} BelowFreeLeaf(f: Forest, key: Key, path: Key, kids: Forest, below: nat)
    requires WellFormed(f) && f.Node? && path != [] && |f.key| + below <= |key| && WellFormed(f.(kids := kids))
    requires key == f.key + key[|f.key|..] && key[..|f.key| + below] == f.key + key[|f.key|..][..below]
    requires |MatchSlots(f, key)| == |f.key| + below && |MatchSlots(f.kids, key[|f.key|..])| == below
    requires kids.Nil? <==> f.kids.Nil? && |key| == |f.key|
    requires |path| > |f.key| ==>
      (FreeLeaf(kids, path[|f.key|..]) <==> InsertedFreeLeaf(f.kids, key[|f.key|..], path[|f.key|..]))
    ensures FreeLeaf(f.(kids := kids), path) <==> InsertedFreeLeaf(f, key, path)
  {
    var m := |f.key|;
    if f.key[0] != path[0] || !(f.key <= path) {
    } else if |path| == m {
      assert path == f.key;
      if below == 0 { assert key[..m] == f.key; }
      assert f.kids.Nil? ==> below == 0;
    } else {
      assert path == f.key + path[m..];
    }
  }

  lemma {:induction false} InsertNil(f: Forest, key: Key, value: seq<Slot>)
    requires WellFormed(f) && |value| == |key|
    ensures Insert(f, key, value).Nil? <==> f.Nil? && key == []
  {
  }

  lemma {:induction false} InsertSplitFreeLeaf(f: Forest, m: nat, key: Key, value: seq<Slot>, path: Key)
    requires WellFormed(f) && f.Node? && key != [] && path != [] && f.key[0] == key[0] && |value| == |key|
    requires m == Common(f.key, key) && 0 < m < |f.key|
    ensures WellFormed(Insert(f, key, value))
    ensures FreeLeaf(Insert(f, key, value), path) <==> InsertedFreeLeaf(f, key, path)
  {
    InsertWellFormed(f, key, value);
    SplitFreeLeaf(f, m, path);
    assert MatchSlots(f, key) == f.value[..m];
    if m == |key| {
      assert Insert(f, key, value) == SplitNode(f, m);
    } else if f.key[0] != path[0] {
      assert key[..m][0] == key[0];
    } else {
      var added := Node(key[m..], value[m..], 0, Nil, Nil);
      var lower := Node(f.key[m..], f.value[m..], f.locks, f.kids, added);
      assert key[..m] == f.key[..m];
      assert FreeLeaf(Insert(f, key, value), path) == (f.key[..m] <= path && |path| > m && FreeLeaf(lower, path[m..]));
      if f.key[..m] <= path && |path| > m {
        BesideFreeLeaf(lower, path[m..]);
        assert path == f.key[..m] + path[m..] && key == f.key[..m] + key[m..];
      }
    }
  }

  // A second, free leaf beside a node.
  lemma {:induction false} BesideFreeLeaf(f: Forest, path: Key)
    requires WellFormed(f) && f.Node? && f.rest.Node? && f.rest.rest.Nil? && f.rest.locks == 0 && f.rest.kids.Nil?
    requires path != []
    ensures FreeLeaf(f, path) <==> path == f.rest.key || FreeLeaf(f.(rest := Nil), path)
  {
    var added := f.rest;
    assert FreeLeaf(added, path) <==> path == added.key by {
      if added.key <= path && |path| == |added.key| { assert path == added.key; }
    }
    if f.key[0] != path[0] {
      assert !FreeLeaf(f.(rest := Nil), path);
    } else {
      assert path != added.key;
    }
  }

  lemma {:induction false} LockFreeLeaf(f: Forest, path: Key, leaf: Key)
    requires WellFormed(f) && (path == [] || IsNode(f, path))
    ensures WellFormed(Lock(f, path)) && (FreeLeaf(Lock(f, path), leaf) <==> FreeLeaf(f, leaf) && leaf != path)
    decreases f
  {
    LockWellFormed(f, path);
    if path == [] || leaf == [] {
    } else if f.key[0] != path[0] {
      LockFreeLeaf(f.rest, path, leaf);
    } else if f.key[0] == leaf[0] && f.key <= leaf {
      var m := |f.key|;
      if |leaf| > m {
        LockFreeLeaf(f.kids, path[m..], leaf[m..]);
        assert leaf == f.key + leaf[m..] && path == f.key + path[m..];
      } else {
        assert leaf == f.key;
      }
    }
  }

  lemma {:induction false} UnlockFreeLeaf(f: Forest, path: Key, leaf: Key)
    requires WellFormed(f) && (path == [] || IsNode(f, path))
    ensures WellFormed(Unlock(f, path))
    ensures leaf != path ==> (FreeLeaf(Unlock(f, path), leaf) <==> FreeLeaf(f, leaf))
    decreases f
  {
    UnlockWellFormed(f, path);
    if path == [] || leaf == [] {
    } else if f.key[0] != path[0] {
      UnlockFreeLeaf(f.rest, path, leaf);
    } else if f.key[0] == leaf[0] && f.key <= leaf {
      var m := |f.key|;
      if |leaf| > m {
        UnlockFreeLeaf(f.kids, path[m..], leaf[m..]);
        assert leaf == f.key + leaf[m..] && path == f.key + path[m..];
      } else {
        assert leaf == f.key;
        if |path| == m { assert path == f.key; }
      }
    }
  }

  // The path of the node above.
  function ParentOf(f: Forest, path: Key): Key
    requires WellFormed(f) && IsNode(f, path)
  {
    if f.key[0] != path[0] then ParentOf(f.rest, path)
    else if |f.key| == |path| then []
    else f.key + ParentOf(f.kids, path[|f.key|..])
  }

  lemma {:induction false} DeleteFreeLeaf(f: Forest, gone: Key, leaf: Key)
    requires WellFormed(f) && FreeLeaf(f, gone)
    ensures IsNode(f, gone) && WellFormed(DeleteLeaf(f, gone))
    ensures leaf != ParentOf(f, gone) ==>
      (FreeLeaf(DeleteLeaf(f, gone), leaf) <==> FreeLeaf(f, leaf) && leaf != gone)
    ensures !FreeLeaf(f, ParentOf(f, gone))
    decreases f
  {
    FreeLeafIsNode(f, gone);
    DeleteWellFormed(f, gone);
    if f.key[0] != gone[0] {
      DeleteFreeLeaf(f.rest, gone, leaf);
      ParentHead(f.rest, gone);
    } else if |f.key| == |gone| {
      assert f.key == gone;
      DeletedFirst(f, leaf);
    } else {
      var m := |f.key|;
      DeleteFreeLeaf(f.kids, gone[m..], if |leaf| > m then leaf[m..] else [f.key[0]]);
      var above := ParentOf(f.kids, gone[m..]);
      assert (f.key + above)[m..] == above;
      assert gone == f.key + gone[m..];
      if leaf != [] && f.key[0] == leaf[0] && f.key <= leaf {
        assert leaf == f.key + leaf[m..];
        if |leaf| == m { assert leaf == f.key; }
      }
    }
  }

  lemma {:induction false} ParentHead(f: Forest, path: Key)
    requires WellFormed(f) && IsNode(f, path)
    ensures ParentOf(f, path) == [] || ParentOf(f, path)[0] == path[0]
    decreases f
  {
    if f.key[0] != path[0] { ParentHead(f.rest, path); }
  }

  lemma {:induction false} DeletedFirst(f: Forest, leaf: Key)
    requires WellFormed(f) && f.Node? && f.kids.Nil?
    ensures FreeLeaf(f.rest, leaf) <==> FreeLeaf(f, leaf) && leaf != f.key
  {
    if FreeLeaf(f.rest, leaf) {
      FreeLeafIsNode(f.rest, leaf);
      NodeHasHead(f.rest, leaf);
    }
    if FreeLeaf(f, leaf) && f.key[0] == leaf[0] {
      assert |leaf| > |f.key| ==> FreeLeaf(f.kids, leaf[|f.key|..]);
      assert |leaf| == |f.key| && f.key <= leaf;
    }
  }
}
