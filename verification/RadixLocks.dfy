// Lock counts, sizes and slots of the radix tree: what each operation does to them.
module RadixLocks {
  import opened RadixTree
  import opened RadixMeaning

  // --- Slots and sizes ---

  // How often a slot occurs in the tree.
  function Uses(f: Forest, x: Slot): nat {
    if f.Nil? then 0 else multiset(f.value)[x] + Uses(f.kids, x) + Uses(f.rest, x)
  }

  // Units in nodes nobody locks, and in locked nodes.
  function Evictable(f: Forest): nat {
    if f.Nil? then 0 else (if f.locks == 0 then |f.key| else 0) + Evictable(f.kids) + Evictable(f.rest)
  }

  function Protected(f: Forest): nat {
    if f.Nil? then 0 else (if f.locks > 0 then |f.key| else 0) + Protected(f.kids) + Protected(f.rest)
  }

  lemma {:induction false} SplitCount(v: seq<Slot>, m: nat, x: Slot)
    requires m <= |v|
    ensures multiset(v)[x] == multiset(v[..m])[x] + multiset(v[m..])[x]
  {
    assert v == v[..m] + v[m..];
  }

  lemma {:induction false} AfterMatchUses(f: Forest, key: Key, x: Slot)
    requires WellFormed(f)
    ensures Uses(AfterMatch(f, key), x) == Uses(f, x)
    decreases f
  {
    if f.Node? && key != [] {
      if f.key[0] != key[0] {
        AfterMatchUses(f.rest, key, x);
      } else {
        var m := Common(f.key, key);
        if m < |f.key| {
          SplitCount(f.value, m, x);
          var lower := SplitNode(f, m).kids;
          assert Uses(lower, x) == multiset(f.value[m..])[x] + Uses(f.kids, x) + Uses(Nil, x);
        } else {
          AfterMatchUses(f.kids, key[m..], x);
        }
      }
    }
  }

  lemma {:induction false} LowerSizes(f: Forest, m: nat, added: Forest)
    requires WellFormed(f) && f.Node? && m <= |f.key|
    ensures var lower := Node(f.key[m..], f.value[m..], f.locks, f.kids, added);
      && Evictable(lower) == (if f.locks == 0 then |f.key| - m else 0) + Evictable(f.kids) + Evictable(added)
      && Protected(lower) == (if f.locks > 0 then |f.key| - m else 0) + Protected(f.kids) + Protected(added)
  {
  }

  lemma {:induction false} AfterMatchSizes(f: Forest, key: Key)
    requires WellFormed(f)
    ensures Evictable(AfterMatch(f, key)) == Evictable(f) && Protected(AfterMatch(f, key)) == Protected(f)
    decreases f
  {
    if f.Node? && key != [] {
      if f.key[0] != key[0] {
        AfterMatchSizes(f.rest, key);
      } else {
        var m := Common(f.key, key);
        if m < |f.key| { LowerSizes(f, m, Nil); } else { AfterMatchSizes(f.kids, key[m..]); }
      }
    }
  }

  // Exactly the unmatched part of the value enters the tree.
  lemma {:induction false} InsertUses(f: Forest, key: Key, value: seq<Slot>, x: Slot)
    requires WellFormed(f) && |value| == |key|
    ensures |MatchSlots(f, key)| <= |key|
    ensures Uses(Insert(f, key, value), x) == Uses(f, x) + multiset(value[|MatchSlots(f, key)|..])[x]
    decreases f
  {
    MatchWithinKey(f, key);
    if key == [] {
      assert value[0..] == [];
    } else if f.Nil? {
      assert value[0..] == value;
    } else if f.key[0] != key[0] {
      InsertUses(f.rest, key, value, x);
    } else {
      var m := Common(f.key, key);
      SplitCount(f.value, m, x);
      if m == |f.key| {
        InsertUses(f.kids, key[m..], value[m..], x);
        assert value[m..][|MatchSlots(f.kids, key[m..])|..] == value[|MatchSlots(f, key)|..];
      } else {
        var added := if m == |key| then Nil else Node(key[m..], value[m..], 0, Nil, Nil);
        assert Uses(added, x) == multiset(value[m..])[x] by { if m == |key| { assert value[m..] == []; } }
        var lower := Node(f.key[m..], f.value[m..], f.locks, f.kids, added);
        assert Uses(lower, x) == multiset(f.value[m..])[x] + Uses(f.kids, x) + Uses(added, x);
      }
    }
  }

  // It enters unlocked.
  lemma {:induction false} InsertSizes(f: Forest, key: Key, value: seq<Slot>)
    requires WellFormed(f) && |value| == |key|
    ensures Evictable(Insert(f, key, value)) == Evictable(f) + |key| - |MatchSlots(f, key)|
    ensures Protected(Insert(f, key, value)) == Protected(f)
    decreases f
  {
    if key != [] && f.Node? {
      if f.key[0] != key[0] {
        InsertSizes(f.rest, key, value);
      } else {
        var m := Common(f.key, key);
        if m == |f.key| {
          InsertSizes(f.kids, key[m..], value[m..]);
        } else {
          var added := if m == |key| then Nil else Node(key[m..], value[m..], 0, Nil, Nil);
          assert Evictable(added) == |key| - m && Protected(added) == 0;
          LowerSizes(f, m, added);
        }
      }
    }
  }

  lemma {:induction false} DeleteUses(f: Forest, leaf: Key, x: Slot)
    requires WellFormed(f) && IsNode(f, leaf) && NodeAt(f, leaf).kids.Nil?
    ensures Uses(f, x) == Uses(DeleteLeaf(f, leaf), x) + multiset(NodeAt(f, leaf).value)[x]
    decreases f
  {
    if f.key[0] != leaf[0] {
      DeleteUses(f.rest, leaf, x);
    } else if |f.key| < |leaf| {
      DeleteUses(f.kids, leaf[|f.key|..], x);
    }
  }

  lemma {:induction false} DeleteSizes(f: Forest, leaf: Key)
    requires WellFormed(f) && IsNode(f, leaf) && NodeAt(f, leaf).kids.Nil? && NodeAt(f, leaf).locks == 0
    ensures Evictable(f) == Evictable(DeleteLeaf(f, leaf)) + |NodeAt(f, leaf).key|
    ensures Protected(f) == Protected(DeleteLeaf(f, leaf))
    decreases f
  {
    if f.key[0] != leaf[0] {
      DeleteSizes(f.rest, leaf);
    } else if |f.key| < |leaf| {
      DeleteSizes(f.kids, leaf[|f.key|..]);
    }
  }

  // --- Nodes stay nodes ---

  lemma {:induction false} NodeAfterMatch(f: Forest, key: Key, path: Key)
    requires WellFormed(f) && IsNode(f, path)
    ensures WellFormed(AfterMatch(f, key)) && IsNode(AfterMatch(f, key), path)
    decreases f
  {
    AfterMatchWellFormed(f, key);
    if key != [] {
      if f.key[0] != key[0] {
        if f.key[0] != path[0] { NodeAfterMatch(f.rest, key, path); }
      } else {
        var m := Common(f.key, key);
        CommonPositive(f.key, key);
        if f.key[0] == path[0] {
          if m < |f.key| {
            SplitStillNode(f, m, path);
          } else if |path| > m {
            NodeAfterMatch(f.kids, key[m..], path[m..]);
          }
        }
      }
    }
  }

  lemma {:induction false} SplitStillNode(f: Forest, m: nat, path: Key)
    requires WellFormed(f) && f.Node? && 0 < m < |f.key| && f.key <= path
    requires |f.key| == |path| || IsNode(f.kids, path[|f.key|..])
    ensures WellFormed(SplitNode(f, m)) && IsNode(SplitNode(f, m), path)
  {
    SplitWellFormed(f, m);
    assert f.key[..m] <= path && f.key[m..] <= path[m..];
    assert path[m..][|f.key| - m..] == path[|f.key|..];
    assert path[m..][0] == f.key[m..][0] == f.key[m];
  }

  lemma {:induction false} NodeAfterInsert(f: Forest, key: Key, value: seq<Slot>, path: Key)
    requires WellFormed(f) && |value| == |key| && IsNode(f, path)
    ensures WellFormed(Insert(f, key, value)) && IsNode(Insert(f, key, value), path)
    decreases f
  {
    InsertWellFormed(f, key, value);
    if key != [] {
      if f.key[0] != key[0] {
        if f.key[0] != path[0] { NodeAfterInsert(f.rest, key, value, path); }
      } else {
        var m := Common(f.key, key);
        CommonPositive(f.key, key);
        if f.key[0] == path[0] {
          if m < |f.key| {
            assert f.key[..m] <= path && f.key[m..] <= path[m..];
            assert path[m..][|f.key| - m..] == path[|f.key|..];
            assert path[m..][0] == f.key[m..][0] == f.key[m];
          } else if |path| > m {
            NodeAfterInsert(f.kids, key[m..], value[m..], path[m..]);
          }
        }
      }
    }
  }

  lemma {:induction false} NodeAfterDelete(f: Forest, leaf: Key, path: Key)
    requires WellFormed(f) && IsNode(f, leaf) && NodeAt(f, leaf).kids.Nil? && IsNode(f, path) && path != leaf
    ensures WellFormed(DeleteLeaf(f, leaf)) && IsNode(DeleteLeaf(f, leaf), path)
    decreases f
  {
    DeleteWellFormed(f, leaf);
    if f.key[0] != leaf[0] {
      if f.key[0] != path[0] { NodeAfterDelete(f.rest, leaf, path); }
    } else if |f.key| == |leaf| {
      assert f.key == leaf;
    } else if f.key[0] == path[0] && |path| > |f.key| {
      var m := |f.key|;
      assert leaf == leaf[..m] + leaf[m..] && path == path[..m] + path[m..];
      NodeAfterDelete(f.kids, leaf[m..], path[m..]);
    }
  }

  // --- Holders ---

  // Held paths that run through the given segment, and what remains of them below it.
  function Through(held: seq<Key>, k: Key): nat {
    if held == [] then 0 else Through(held[..|held| - 1], k) + if k <= held[|held| - 1] then 1 else 0
  }

  function Beneath(held: seq<Key>, k: Key): seq<Key> {
    if held == [] then []
    else Beneath(held[..|held| - 1], k) + if k <= held[|held| - 1] then [held[|held| - 1][|k|..]] else []
  }

  // Every node is locked once per holder of a path through it.
  predicate LocksMatch(f: Forest, held: seq<Key>) {
    f.Node? ==>
      f.locks == Through(held, f.key) && LocksMatch(f.kids, Beneath(held, f.key)) && LocksMatch(f.rest, held)
  }

  // Held paths that start in this forest end at one of its nodes.
  ghost predicate HeldEnd(f: Forest, held: seq<Key>)
    requires WellFormed(f)
  {
    forall i :: 0 <= i < |held| && held[i] != [] && HasHead(f, held[i][0]) ==> IsNode(f, held[i])
  }

  // All held paths are nodes, or the root.
  ghost predicate AllHeld(f: Forest, held: seq<Key>)
    requires WellFormed(f)
  {
    forall i :: 0 <= i < |held| ==> held[i] == [] || IsNode(f, held[i])
  }

  lemma {:induction false} ThroughSnoc(held: seq<Key>, h: Key, k: Key)
    ensures Through(held + [h], k) == Through(held, k) + if k <= h then 1 else 0
    ensures Beneath(held + [h], k) == Beneath(held, k) + if k <= h then [h[|k|..]] else []
  {
    assert (held + [h])[..|held|] == held;
  }

  lemma {:induction false} ThroughZero(held: seq<Key>, k: Key)
    ensures Through(held, k) == 0 <==> forall i :: 0 <= i < |held| ==> !(k <= held[i])
    ensures |Beneath(held, k)| == Through(held, k)
  {
    if held != [] { ThroughZero(held[..|held| - 1], k); }
  }

  lemma {:induction false} BeneathMember(held: seq<Key>, k: Key, j: nat)
    requires j < |Beneath(held, k)|
    ensures exists i :: 0 <= i < |held| && k <= held[i] && Beneath(held, k)[j] == held[i][|k|..]
  {
    var last := |held| - 1;
    if j < |Beneath(held[..last], k)| {
      BeneathMember(held[..last], k, j);
      var i :| 0 <= i < last && k <= held[..last][i] && Beneath(held[..last], k)[j] == held[..last][i][|k|..];
      assert held[..last][i] == held[i];
    }
  }

  lemma {:induction false} PrefixParts(a: Key, b: Key, h: Key)
    ensures a + b <= h <==> a <= h && b <= h[|a|..]
    ensures a + b <= h ==> h[|a + b|..] == h[|a|..][|b|..]
  {
    if a <= h && b <= h[|a|..] { assert h == a + h[|a|..]; }
    if a + b <= h {
      assert a == (a + b)[..|a|] && h[..|a|] == h[..|a + b|][..|a|];
      assert b == (a + b)[|a|..] == h[..|a + b|][|a|..];
    }
  }

  lemma {:induction false} ThroughTwice(held: seq<Key>, a: Key, b: Key)
    ensures Through(Beneath(held, a), b) == Through(held, a + b)
    ensures Beneath(Beneath(held, a), b) == Beneath(held, a + b)
  {
    if held != [] {
      var init, h := held[..|held| - 1], held[|held| - 1];
      ThroughTwice(init, a, b);
      PrefixParts(a, b, h);
      if a <= h {
        ThroughSnoc(Beneath(init, a), h[|a|..], b);
      } else {
        assert Beneath(held, a) == Beneath(init, a);
        assert Beneath(held, a + b) == Beneath(init, a + b);
      }
    }
  }

  lemma {:induction false} ThroughSame(held: seq<Key>, a: Key, b: Key)
    requires a <= b && forall i :: 0 <= i < |held| && a <= held[i] ==> b <= held[i]
    ensures Through(held, a) == Through(held, b)
  {
    if held != [] {
      ThroughSame(held[..|held| - 1], a, b);
      var h := held[|held| - 1];
      if b <= h { assert a <= h; }
    }
  }
}
