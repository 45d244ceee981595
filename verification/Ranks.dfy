// Positions in an order, counted rather than computed: how many members come before one.
module Ranks {
  import opened Basics

  // By key, and by number where the keys agree.
  predicate Precedes(key: nat -> int, a: nat, b: nat) {
    key(a) < key(b) || (key(a) == key(b) && a < b)
  }

  // How many members come before x.
  ghost function Rank(members: set<nat>, key: nat -> int, x: nat): nat {
    |set q | q in members && Precedes(key, q, x)|
  }

  ghost predicate InKeyOrder(s: seq<nat>, key: nat -> int) {
    forall i, j :: 0 <= i < j < |s| ==> Precedes(key, s[i], s[j])
  }

  lemma {:induction false} DistinctSize(s: seq<nat>, members: set<nat>)
    requires (forall i, j :: 0 <= i < j < |s| ==> s[i] != s[j]) && forall q :: q in members <==> q in s
    ensures |members| == |s|
  {
    if s == [] {
      assert members == {};
    } else {
      var init, last := s[..|s| - 1], s[|s| - 1];
      forall q ensures q in members - {last} <==> q in init {
        if q in s && q != last { var k :| 0 <= k < |s| && s[k] == q; assert init[k] == q; }
      }
      DistinctSize(init, members - {last});
    }
  }

  // In an ordered list the rank of an element is its position.
  lemma {:induction false} RankIsIndex(s: seq<nat>, members: set<nat>, key: nat -> int, i: nat)
    requires InKeyOrder(s, key) && (forall q :: q in members <==> q in s) && i < |s|
    ensures |members| == |s| && s[i] in members && Rank(members, key, s[i]) == i
  {
    DistinctSize(s, members);
    var below := set q | q in members && Precedes(key, q, s[i]);
    forall q ensures q in below <==> q in s[..i] {
      if q in members { var k :| 0 <= k < |s| && s[k] == q; BeforeIff(s, key, k, i); }
      if q in s[..i] { var k :| 0 <= k < i && s[k] == q; assert s[k] in s; }
    }
    DistinctSize(s[..i], below);
  }

  lemma {:induction false} BeforeIff(s: seq<nat>, key: nat -> int, k: nat, i: nat)
    requires InKeyOrder(s, key) && k < |s| && i < |s|
    ensures Precedes(key, s[k], s[i]) <==> k < i
    ensures s[k] in s[..i] <==> k < i
  {
    if k < i { assert s[..i][k] == s[k]; }
  }

  // Keys that agree on the members give the same ranks.
  lemma {:induction false} RankSameKey(members: set<nat>, key: nat -> int, key': nat -> int, x: nat)
    requires x in members && forall q :: q in members ==> key(q) == key'(q)
    ensures Rank(members, key, x) == Rank(members, key', x)
  {
    assert (set q | q in members && Precedes(key, q, x)) == (set q | q in members && Precedes(key', q, x));
  }

  lemma {:induction false} InsertInOrder(x: nat, s: seq<nat>, key: nat -> int)
    requires SortedBy(s, key) && InKeyOrder(s, key) && forall y :: y in s ==> x < y
    ensures InKeyOrder(InsertBy(x, s, key), key)
  {
    if s != [] && key(x) > key(s[0]) {
      var rest := InsertBy(x, s[1..], key);
      forall y | y in s[1..] ensures x < y && Precedes(key, s[0], y) {
        var k :| 1 <= k < |s| && s[k] == y;
        assert s[k] in s;
      }
      InsertInOrder(x, s[1..], key);
      FirstInOrder(s[0], rest, key);
    } else {
      forall y | y in s ensures Precedes(key, x, y) { var k :| 0 <= k < |s| && s[k] == y; }
      FirstInOrder(x, s, key);
    }
  }

  lemma {:induction false} FirstInOrder(x: nat, s: seq<nat>, key: nat -> int)
    requires InKeyOrder(s, key) && forall y :: y in s ==> Precedes(key, x, y)
    ensures InKeyOrder([x] + s, key)
  {
    forall i, j | 0 <= i < j < |[x] + s| ensures Precedes(key, ([x] + s)[i], ([x] + s)[j]) {
      assert ([x] + s)[j] == s[j - 1] && s[j - 1] in s;
    }
  }

  // Sorting an ascending list orders it by key, then by number.
  lemma {:induction false} SortInOrder(s: seq<nat>, key: nat -> int)
    requires Increasing(s)
    ensures InKeyOrder(SortBy(s, key), key)
  {
    if s != [] {
      SortInOrder(s[1..], key);
      forall y | y in SortBy(s[1..], key) ensures s[0] < y {
        assert y in multiset(SortBy(s[1..], key)) && y in s[1..];
      }
      InsertInOrder(s[0], SortBy(s[1..], key), key);
    }
  }
}
