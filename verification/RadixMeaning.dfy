// Matching finds the longest cached prefix, splitting nodes changes no cached prefix,
// insertion adds exactly the missing ones, and deleting a leaf removes exactly its own.
module RadixMeaning {
  import opened Basics
  import opened RadixTree

  lemma {:induction false} CommonIs(a: Key, b: Key, n: nat)
    requires n <= |a| && n <= |b| && a[..n] == b[..n] && (n < |a| && n < |b| ==> a[n] != b[n])
    ensures Common(a, b) == n
  {
    if n > 0 {
      assert a[0] == a[..n][0] && b[0] == b[..n][0];
      assert a[1..][..n - 1] == a[..n][1..] && b[1..][..n - 1] == b[..n][1..];
      CommonIs(a[1..], b[1..], n - 1);
    }
  }

  lemma {:induction false} CommonCut(a: Key, b: Key, i: nat)
    requires i <= |b|
    ensures Common(a, b[..i]) == if Common(a, b) < i then Common(a, b) else i
  {
    var c := Common(a, b);
    if c < i {
      assert a[..c] == b[..i][..c];
      CommonIs(a, b[..i], c);
    } else {
      assert a[..i] == a[..c][..i] == b[..c][..i] == b[..i];
      CommonIs(a, b[..i], i);
    }
  }

  lemma {:induction false} CommonPositive(a: Key, b: Key)
    requires a != [] && b != []
    ensures Common(a, b) > 0 <==> a[0] == b[0]
  {
  }

  // --- Matching ---

  lemma {:induction false} MatchWithinKey(f: Forest, key: Key)
    requires WellFormed(f)
    ensures |MatchSlots(f, key)| <= |key|
    decreases f
  {
    if f.Node? && key != [] {
      if f.key[0] != key[0] {
        MatchWithinKey(f.rest, key);
      } else {
        MatchWithinKey(f.kids, key[Common(f.key, key)..]);
      }
    }
  }

  // A prefix of the key is cached exactly up to the matched length, with the matched slots.
  lemma {:induction false} MatchIsLongest(f: Forest, key: Key, i: nat)
    requires WellFormed(f) && 1 <= i <= |key|
    ensures Get(f, key[..i]) ==
      if i <= |MatchSlots(f, key)| then Some(MatchSlots(f, key)[i - 1]) else None
    decreases f
  {
    if f.Node? {
      assert key[..i][0] == key[0];
      if f.key[0] != key[0] {
        MatchIsLongest(f.rest, key, i);
      } else {
        var m := Common(f.key, key);
        CommonCut(f.key, key, i);
        CommonPositive(f.key, key);
        if m == |f.key| && i > m {
          MatchIsLongest(f.kids, key[m..], i - m);
          assert key[..i][m..] == key[m..][..i - m];
        }
      }
    }
  }

  // --- Splitting ---

  lemma {:induction false} HeadAfterMatch(f: Forest, key: Key, u: Unit)
    requires WellFormed(f)
    ensures HasHead(AfterMatch(f, key), u) == HasHead(f, u)
    decreases f
  {
    if f.Node? && key != [] {
      if f.key[0] != key[0] {
        HeadAfterMatch(f.rest, key, u);
      } else {
        CommonPositive(f.key, key);
      }
    }
  }

  lemma {:induction false} SplitWellFormed(f: Forest, m: nat)
    requires WellFormed(f) && f.Node? && 0 < m < |f.key|
    ensures WellFormed(SplitNode(f, m))
  {
  }

  lemma {:induction false} AfterMatchWellFormed(f: Forest, key: Key)
    requires WellFormed(f)
    ensures WellFormed(AfterMatch(f, key))
    decreases f
  {
    if f.Node? && key != [] {
      if f.key[0] != key[0] {
        AfterMatchWellFormed(f.rest, key);
        HeadAfterMatch(f.rest, key, f.key[0]);
      } else {
        var m := Common(f.key, key);
        CommonPositive(f.key, key);
        if m < |f.key| { SplitWellFormed(f, m); } else { AfterMatchWellFormed(f.kids, key[m..]); }
      }
    }
  }

  lemma {:induction false} CommonSplit(k: Key, m: nat, path: Key)
    requires m <= |k|
    ensures Common(k[..m], path) == if Common(k, path) < m then Common(k, path) else m
    ensures Common(k, path) >= m ==> Common(k[m..], path[m..]) == Common(k, path) - m
  {
    var c := Common(k, path);
    if c < m {
      assert k[..m][..c] == path[..c];
      CommonIs(k[..m], path, c);
    } else {
      assert k[..m] == k[..c][..m] == path[..c][..m] == path[..m];
      CommonIs(k[..m], path, m);
      assert k[m..][..c - m] == k[..c][m..] == path[..c][m..] == path[m..][..c - m];
      CommonIs(k[m..], path[m..], c - m);
    }
  }

  lemma {:induction false} LowerGet(f: Forest, m: nat, path: Key, c: nat)
    requires WellFormed(f) && f.Node? && 0 < m < |f.key| && c == Common(f.key, path) && m < c
    requires Common(f.key[m..], path[m..]) == c - m
    ensures var lower := Node(f.key[m..], f.value[m..], f.locks, f.kids, Nil);
      WellFormed(lower) && Get(lower, path[m..]) == Get(f, path)
  {
    assert f.key[m..][0] == f.key[m] == f.key[..c][m] == path[..c][m] == path[m..][0];
    assert f.key[0] == f.key[..c][0] == path[..c][0] == path[0];
    assert f.value[m..][c - m - 1] == f.value[c - 1];
    assert path[m..][c - m..] == path[c..];
  }

  lemma {:induction false} SplitGet(f: Forest, m: nat, path: Key)
    requires WellFormed(f) && f.Node? && 0 < m < |f.key|
    ensures WellFormed(SplitNode(f, m)) && Get(SplitNode(f, m), path) == Get(f, path)
  {
    SplitWellFormed(f, m);
    if path != [] && f.key[0] == path[0] {
      var c := Common(f.key, path);
      CommonSplit(f.key, m, path);
      CommonPositive(f.key, path);
      if c >= m && |path| > m {
        var s := SplitNode(f, m);
        assert s.key[0] == f.key[0] && Get(s, path) == Get(s.kids, path[m..]);
        CommonPositive(f.key[m..], path[m..]);
        if c > m {
          LowerGet(f, m, path, c);
        } else {
          assert Get(s.kids, path[m..]) == Get(Nil, path[m..]);
        }
      }
    }
  }

  // Matching moves no cached prefix and no slot.
  lemma {:induction false} AfterMatchGet(f: Forest, key: Key, path: Key)
    requires WellFormed(f)
    ensures WellFormed(AfterMatch(f, key)) && Get(AfterMatch(f, key), path) == Get(f, path)
    decreases f
  {
    AfterMatchWellFormed(f, key);
    if f.Node? && key != [] {
      if f.key[0] != key[0] {
        AfterMatchGet(f.rest, key, path);
      } else {
        var m := Common(f.key, key);
        CommonPositive(f.key, key);
        if m < |f.key| {
          SplitGet(f, m, path);
        } else if path != [] && f.key[0] == path[0] {
          AfterMatchGet(f.kids, key[m..], path[Common(f.key, path)..]);
        }
      }
    }
  }

  // The matched prefix ends at a node of the split tree.
  lemma {:induction false} MatchEndsAtNode(f: Forest, key: Key)
    requires WellFormed(f) && MatchSlots(f, key) != []
    ensures WellFormed(AfterMatch(f, key)) && |MatchSlots(f, key)| <= |key|
    ensures IsNode(AfterMatch(f, key), key[..|MatchSlots(f, key)|])
    decreases f
  {
    AfterMatchWellFormed(f, key);
    MatchWithinKey(f, key);
    var n := |MatchSlots(f, key)|;
    if f.key[0] != key[0] {
      MatchEndsAtNode(f.rest, key);
      assert key[..n][0] == key[0];
    } else {
      var m := Common(f.key, key);
      CommonPositive(f.key, key);
      if m == |f.key| {
        assert key[..n][..m] == key[..m];
        if n > m {
          MatchEndsAtNode(f.kids, key[m..]);
          assert key[..n][m..] == key[m..][..n - m];
        }
      }
    }
  }

  // --- Insertion ---

  lemma {:induction false} HeadAfterInsert(f: Forest, key: Key, value: seq<Slot>, u: Unit)
    requires WellFormed(f) && |value| == |key|
    ensures HasHead(Insert(f, key, value), u) <==> HasHead(f, u) || (key != [] && key[0] == u)
    decreases f
  {
    if key != [] && f.Node? {
      if f.key[0] != key[0] {
        HeadAfterInsert(f.rest, key, value, u);
      } else {
        CommonPositive(f.key, key);
      }
    }
  }

  lemma {:induction false} InsertWellFormed(f: Forest, key: Key, value: seq<Slot>)
    requires WellFormed(f) && |value| == |key|
    ensures WellFormed(Insert(f, key, value))
    decreases f
  {
    if key != [] && f.Node? {
      if f.key[0] != key[0] {
        InsertWellFormed(f.rest, key, value);
        HeadAfterInsert(f.rest, key, value, f.key[0]);
      } else {
        var m := Common(f.key, key);
        CommonPositive(f.key, key);
        if m == |f.key| {
          InsertWellFormed(f.kids, key[m..], value[m..]);
        } else {
          var added := if m == |key| then Nil else Node(key[m..], value[m..], 0, Nil, Nil);
          assert WellFormed(added) && !HasHead(added, f.key[m..][0]);
          assert WellFormed(Node(f.key[m..], f.value[m..], f.locks, f.kids, added));
        }
      }
    }
  }

  // What was cached stays; of the rest, exactly the prefixes of the new key are added.
  function Merged(cached: Option<Slot>, key: Key, value: seq<Slot>, path: Key): Option<Slot>
    requires |value| == |key|
  {
    if cached.Some? then cached
    else if path != [] && path <= key then Some(value[|path| - 1])
    else None
  }

  lemma {:induction false} PrefixByCommon(path: Key, key: Key)
    ensures path <= key <==> Common(key, path) == |path|
  {
    if path <= key { CommonIs(key, path, |path|); }
  }

  lemma {:induction false} GetSingle(key: Key, value: seq<Slot>, path: Key)
    requires key != [] && |value| == |key|
    ensures Get(Node(key, value, 0, Nil, Nil), path) == Merged(None, key, value, path)
  {
    PrefixByCommon(path, key);
    if path != [] { CommonPositive(key, path); }
  }

  lemma {:induction false} DivergedIsNoPrefix(k: Key, key: Key, path: Key, c: nat)
    requires c < |path| && c < |k| && path[c] != k[c] && c < |key| && key[c] == k[c]
    ensures !(path <= key)
  {
  }

  lemma {:induction false} TailPrefix(key: Key, path: Key, m: nat)
    requires m <= |key| && m <= |path| && key[..m] == path[..m]
    ensures path <= key <==> path[m..] <= key[m..]
  {
    assert key == key[..m] + key[m..] && path == path[..m] + path[m..];
    if path[m..] <= key[m..] { assert key[..|path|] == key[..m] + key[m..][..|path| - m]; }
    if path <= key { assert key[m..][..|path| - m] == key[..|path|][m..]; }
  }

  // Insertion into the node whose segment the key leaves after m units.
  lemma {:induction false} InsertSplitGet(f: Forest, key: Key, value: seq<Slot>, path: Key)
    requires WellFormed(f) && f.Node? && key != [] && f.key[0] == key[0] && |value| == |key|
    requires Common(f.key, key) < |f.key|
    ensures WellFormed(Insert(f, key, value))
    ensures Get(Insert(f, key, value), path) == Merged(Get(f, path), key, value, path)
  {
    InsertWellFormed(f, key, value);
    var m := Common(f.key, key);
    CommonPositive(f.key, key);
    if path != [] && path[0] == f.key[0] {
      CommonSplit(f.key, m, path);
      SplitGet(f, m, path);
      if Common(f.key, path) >= m && |path| > m {
        InsertSplitBelow(f, key, value, path);
      } else {
        InsertSplitAbove(f, key, value, path);
      }
    }
  }

  // The path ends or diverges on the upper part.
  lemma {:induction false} InsertSplitAbove(f: Forest, key: Key, value: seq<Slot>, path: Key)
    requires WellFormed(f) && f.Node? && key != [] && path != [] && f.key[0] == key[0] == path[0] && |value| == |key|
    requires var m, c := Common(f.key, key), Common(f.key, path);
      m < |f.key| && (c < m || |path| == m) && Common(f.key[..m], path) == c
    ensures WellFormed(Insert(f, key, value))
    ensures Get(Insert(f, key, value), path) == Merged(Get(f, path), key, value, path)
  {
    InsertWellFormed(f, key, value);
    var m, c := Common(f.key, key), Common(f.key, path);
    CommonPositive(f.key, path);
    if c < |path| {
      assert key[c] == key[..m][c] == f.key[..m][c];
      DivergedIsNoPrefix(f.key, key, path, c);
    }
  }

  lemma {:induction false} InsertSplitBelow(f: Forest, key: Key, value: seq<Slot>, path: Key)
    requires WellFormed(f) && f.Node? && key != [] && path != [] && f.key[0] == key[0] == path[0] && |value| == |key|
    requires var m := Common(f.key, key);
      && 0 < m < |f.key| && Common(f.key, path) >= m && |path| > m && Common(f.key[..m], path) == m
      && WellFormed(SplitNode(f, m)) && Get(SplitNode(f, m), path) == Get(f, path)
    ensures WellFormed(Insert(f, key, value))
    ensures Get(Insert(f, key, value), path) == Merged(Get(f, path), key, value, path)
  {
    var m, c := Common(f.key, key), Common(f.key, path);
    assert path[..m] == path[..c][..m] == f.key[..c][..m] == f.key[..m];
    InsertBeside(f, m, key, value, path, c);
  }

  lemma {:induction false} InsertBeside(f: Forest, m: nat, key: Key, value: seq<Slot>, path: Key, c: nat)
    requires WellFormed(f) && f.Node? && key != [] && path != [] && f.key[0] == key[0] == path[0] && |value| == |key|
    requires m == Common(f.key, key) && 0 < m < |f.key| && m < |path| && c == Common(f.key, path) && c >= m
    requires key[..m] == path[..m]
    requires Common(f.key[..m], path) == m && Get(SplitNode(f, m), path) == Get(f, path)
    ensures WellFormed(Insert(f, key, value))
    ensures Get(Insert(f, key, value), path) == Merged(Get(f, path), key, value, path)
  {
    InsertWellFormed(f, key, value);
    var after, split := Insert(f, key, value), SplitNode(f, m);
    SplitWellFormed(f, m);
    GetBelow(after, path);
    GetBelow(split, path);
    MergedTail(Get(f, path), key, value, path, m);
    BesideLower(f, m, key, value, path[m..]);
  }

  // Below the split the path finds the lower part or the new sibling.
  lemma {:induction false} BesideLower(f: Forest, m: nat, key: Key, value: seq<Slot>, rest: Key)
    requires WellFormed(f) && f.Node? && |value| == |key| && 0 < m < |f.key| && m <= |key| && rest != []
    requires m < |key| ==> key[m] != f.key[m]
    ensures var lower := Node(f.key[m..], f.value[m..], f.locks, f.kids, Nil);
      var added := if m == |key| then Nil else Node(key[m..], value[m..], 0, Nil, Nil);
      && WellFormed(lower) && WellFormed(lower.(rest := added))
      && Get(lower.(rest := added), rest) == Merged(Get(lower, rest), key[m..], value[m..], rest)
  {
    if f.key[m] == rest[0] {
      assert m < |key| ==> key[m..][0] != rest[0];
    } else if m < |key| {
      GetSingle(key[m..], value[m..], rest);
    }
  }

  lemma {:induction false} InsertBelowGet(f: Forest, key: Key, value: seq<Slot>, path: Key)
    requires WellFormed(f) && f.Node? && key != [] && f.key[0] == key[0] && |value| == |key|
    requires Common(f.key, key) == |f.key|
    requires |path| > |f.key| && Common(f.key, path) == |f.key| ==>
      WellFormed(Insert(f.kids, key[|f.key|..], value[|f.key|..])) &&
      Get(Insert(f.kids, key[|f.key|..], value[|f.key|..]), path[|f.key|..]) ==
        Merged(Get(f.kids, path[|f.key|..]), key[|f.key|..], value[|f.key|..], path[|f.key|..])
    ensures WellFormed(Insert(f, key, value))
    ensures Get(Insert(f, key, value), path) == Merged(Get(f, path), key, value, path)
  {
    InsertWellFormed(f, key, value);
    var m := |f.key|;
    var c := Common(f.key, path);
    assert f.key[..m] == f.key == key[..m];
    if path == [] || path[0] != f.key[0] {
      assert path <= key ==> path == [];
    } else if c < m && c < |path| {
      assert key[c] == key[..m][c] == f.key[c];
      DivergedIsNoPrefix(f.key, key, path, c);
    } else if c == m && |path| > m {
      InsertFarBelow(f, key, value, path);
    }
  }

  // The path leads below the node: the answer is that of the children.
  lemma {:induction false} InsertFarBelow(f: Forest, key: Key, value: seq<Slot>, path: Key)
    requires WellFormed(f) && f.Node? && key != [] && f.key[0] == key[0] && |value| == |key|
    requires Common(f.key, key) == |f.key| == Common(f.key, path) < |path|
    requires WellFormed(Insert(f.kids, key[|f.key|..], value[|f.key|..]))
    requires Get(Insert(f.kids, key[|f.key|..], value[|f.key|..]), path[|f.key|..]) ==
      Merged(Get(f.kids, path[|f.key|..]), key[|f.key|..], value[|f.key|..], path[|f.key|..])
    ensures WellFormed(Insert(f, key, value))
    ensures Get(Insert(f, key, value), path) == Merged(Get(f, path), key, value, path)
  {
    InsertWellFormed(f, key, value);
    var m := |f.key|;
    assert f.key[..m] == f.key == key[..m] == path[..m];
    GetBelow(f, path);
    GetBelow(Insert(f, key, value), path);
    MergedTail(Get(f, path), key, value, path, m);
  }

  lemma {:induction false} GetBelow(f: Forest, path: Key)
    requires WellFormed(f) && f.Node? && Common(f.key, path) == |f.key| < |path|
    ensures Get(f, path) == Get(f.kids, path[|f.key|..])
  {
  }

  lemma {:induction false} MergedTail(cached: Option<Slot>, key: Key, value: seq<Slot>, path: Key, m: nat)
    requires |value| == |key| && m <= |key| && m < |path| && key[..m] == path[..m]
    ensures Merged(cached, key, value, path) == Merged(cached, key[m..], value[m..], path[m..])
  {
    TailPrefix(key, path, m);
  }

  lemma {:induction false} InsertGet(f: Forest, key: Key, value: seq<Slot>, path: Key)
    requires WellFormed(f) && |value| == |key|
    ensures WellFormed(Insert(f, key, value))
    ensures Get(Insert(f, key, value), path) == Merged(Get(f, path), key, value, path)
    decreases f
  {
    InsertWellFormed(f, key, value);
    if key == [] {
    } else if f.Nil? {
      GetSingle(key, value, path);
    } else if f.key[0] != key[0] {
      InsertGet(f.rest, key, value, path);
    } else if Common(f.key, key) < |f.key| {
      InsertSplitGet(f, key, value, path);
    } else {
      var m := |f.key|;
      if |path| > m && Common(f.key, path) == m { InsertGet(f.kids, key[m..], value[m..], path[m..]); }
      InsertBelowGet(f, key, value, path);
    }
  }

  // After insertion the whole key is cached.
  lemma {:induction false} InsertedMatches(f: Forest, key: Key, value: seq<Slot>)
    requires WellFormed(f) && |value| == |key|
    ensures WellFormed(Insert(f, key, value)) && |MatchSlots(Insert(f, key, value), key)| == |key|
  {
    InsertWellFormed(f, key, value);
    var g := Insert(f, key, value);
    MatchWithinKey(g, key);
    if key != [] {
      assert key[..|key|] == key;
      InsertGet(f, key, value, key);
      MatchIsLongest(g, key, |key|);
    }
  }

  // --- Deletion ---

  lemma {:induction false} HeadAfterDelete(f: Forest, path: Key, u: Unit)
    requires WellFormed(f) && IsNode(f, path) && !HasHead(f, u)
    ensures !HasHead(DeleteLeaf(f, path), u)
    decreases f
  {
    if f.key[0] != path[0] { HeadAfterDelete(f.rest, path, u); }
  }

  lemma {:induction false} DeleteWellFormed(f: Forest, path: Key)
    requires WellFormed(f) && IsNode(f, path)
    ensures WellFormed(DeleteLeaf(f, path))
    decreases f
  {
    if f.key[0] != path[0] {
      DeleteWellFormed(f.rest, path);
      HeadAfterDelete(f.rest, path, f.key[0]);
    } else if |f.key| < |path| {
      DeleteWellFormed(f.kids, path[|f.key|..]);
    }
  }

  lemma {:induction false} NoHeadNoGet(f: Forest, path: Key)
    requires WellFormed(f) && (path == [] || !HasHead(f, path[0]))
    ensures Get(f, path) == None
    decreases f
  {
    if f.Node? { NoHeadNoGet(f.rest, path); }
  }

  // The path lies on the last segment of the leaf, past its parent.
  predicate OnLeaf(f: Forest, leaf: Key, path: Key)
    requires WellFormed(f) && IsNode(f, leaf)
  {
    path <= leaf && |path| > |leaf| - |NodeAt(f, leaf).key|
  }

  lemma {:induction false} LeafFits(f: Forest, leaf: Key)
    requires WellFormed(f) && IsNode(f, leaf)
    ensures |NodeAt(f, leaf).key| <= |leaf| && (f.key[0] == leaf[0] && |f.key| < |leaf| ==>
      |NodeAt(f, leaf).key| <= |leaf| - |f.key|)
    decreases f
  {
    if f.key[0] != leaf[0] {
      LeafFits(f.rest, leaf);
    } else if |f.key| < |leaf| {
      LeafFits(f.kids, leaf[|f.key|..]);
    }
  }

  // Deleting a leaf forgets exactly the prefixes that end on it.
  lemma {:induction false} DeleteGet(f: Forest, leaf: Key, path: Key)
    requires WellFormed(f) && IsNode(f, leaf) && NodeAt(f, leaf).kids.Nil?
    ensures WellFormed(DeleteLeaf(f, leaf))
    ensures Get(DeleteLeaf(f, leaf), path) == if OnLeaf(f, leaf, path) then None else Get(f, path)
    decreases f
  {
    DeleteWellFormed(f, leaf);
    if f.key[0] != leaf[0] {
      DeleteGet(f.rest, leaf, path);
      LeafFits(f.rest, leaf);
    } else if |f.key| == |leaf| {
      assert f.key == leaf;
      PrefixByCommon(path, leaf);
      if path != [] && path[0] == f.key[0] {
        CommonPositive(f.key, path);
        NoHeadNoGet(f.rest, path);
      }
    } else {
      var m := |f.key|;
      LeafFits(f, leaf);
      if path != [] && path[0] == f.key[0] {
        var c := Common(f.key, path);
        if c == m && |path| > m {
          DeleteGet(f.kids, leaf[m..], path[m..]);
          assert path[..m] == f.key[..m] == leaf[..m];
          TailPrefix(leaf, path, m);
        } else if c < m && c < |path| {
          assert leaf[c] == leaf[..m][c] == f.key[c];
          DivergedIsNoPrefix(f.key, leaf, path, c);
        }
      }
    }
  }
}
