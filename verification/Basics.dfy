// Small shared vocabulary: optional values, results, and the stable sort by key
// that stands for Python's sorted().
module Basics {

  datatype Option<+T> = None | Some(value: T)

  // Err names the exception the source raises.
  datatype Result<+T> = Ok(value: T) | Err(exception: string)

  ghost predicate Increasing(s: seq<nat>) {
    forall i, j :: 0 <= i < j < |s| ==> s[i] < s[j]
  }

  // A set of numbers below n has at most n members.
  lemma {:induction false} Bounded(n: nat, s: set<nat>)
    requires forall j :: j in s ==> j < n
    ensures |s| <= n
  {
    if n == 0 {
      assert s == {};
    } else {
      Bounded(n - 1, s - {n - 1});
    }
  }

  ghost predicate SortedBy<T(!new)>(s: seq<T>, key: T -> int) {
    forall i, j :: 0 <= i < j < |s| ==> key(s[i]) <= key(s[j])
  }

  function InsertBy<T(!new)>(x: T, s: seq<T>, key: T -> int): (r: seq<T>)
    requires SortedBy(s, key)
    ensures SortedBy(r, key) && multiset(r) == multiset{x} + multiset(s)
    ensures forall y :: y in r <==> y == x || y in s
  {
    if s == [] || key(x) <= key(s[0]) then
      InsertedHere(x, s, key);
      [x] + s
    else
      var rest := InsertBy(x, s[1..], key);
      assert s == [s[0]] + s[1..];
      InsertedOnward(x, s[0], s[1..], rest, key);
      [s[0]] + rest
  }

  lemma {:induction false} InsertedHere<T(!new)>(x: T, s: seq<T>, key: T -> int)
    requires SortedBy(s, key) && (s == [] || key(x) <= key(s[0]))
    ensures SortedBy([x] + s, key) && multiset([x] + s) == multiset{x} + multiset(s)
  {
    forall y | y in s ensures key(x) <= key(y) {
      var i :| 0 <= i < |s| && s[i] == y;
      assert key(s[0]) <= key(s[i]);
    }
    SortedCons(x, s, key);
  }

  lemma {:induction false} InsertedOnward<T(!new)>(x: T, first: T, tail: seq<T>, rest: seq<T>, key: T -> int)
    requires SortedBy([first] + tail, key) && key(first) <= key(x) && SortedBy(rest, key)
    requires multiset(rest) == multiset{x} + multiset(tail) && forall y :: y in rest <==> y == x || y in tail
    ensures SortedBy([first] + rest, key) && multiset([first] + rest) == multiset{x} + multiset([first] + tail)
  {
    forall y | y in rest ensures key(first) <= key(y) {
      if y != x {
        var i :| 0 <= i < |tail| && tail[i] == y;
        assert ([first] + tail)[0] == first && ([first] + tail)[i + 1] == y;
      }
    }
    SortedCons(first, rest, key);
  }

  lemma {:induction false} SortedCons<T(!new)>(x: T, s: seq<T>, key: T -> int)
    requires SortedBy(s, key) && forall y :: y in s ==> key(x) <= key(y)
    ensures SortedBy([x] + s, key) && multiset([x] + s) == multiset{x} + multiset(s)
  {
    forall i, j | 0 <= i < j < |[x] + s| ensures key(([x] + s)[i]) <= key(([x] + s)[j]) {
      assert ([x] + s)[j] == s[j - 1] && s[j - 1] in s;
    }
  }

  function SortBy<T(!new)>(s: seq<T>, key: T -> int): (r: seq<T>)
    ensures SortedBy(r, key) && multiset(r) == multiset(s)
    ensures |r| == |s|
  {
    if s == [] then []
    else
      assert s == [s[0]] + s[1..];
      var r := InsertBy(s[0], SortBy(s[1..], key), key);
      assert |multiset(r)| == |multiset(s)|;
      r
  }

  lemma {:induction false} SortedStays<T(!new)>(s: seq<T>, key: T -> int)
    requires SortedBy(s, key)
    ensures SortBy(s, key) == s
  {
    if s != [] {
      SortedStays(s[1..], key);
      assert s == [s[0]] + s[1..];
    }
  }

  // The elements with a given key, in order.
  function Keyed<T>(s: seq<T>, key: T -> int, k: int): seq<T> {
    if s == [] then [] else (if key(s[0]) == k then [s[0]] else []) + Keyed(s[1..], key, k)
  }

  lemma {:induction false} KeyedCons<T>(x: T, s: seq<T>, key: T -> int, k: int)
    ensures Keyed([x] + s, key, k) == (if key(x) == k then [x] else []) + Keyed(s, key, k)
  {
    assert ([x] + s)[1..] == s;
  }

  lemma {:induction false} KeyedSwap<T>(x: T, y: T, s: seq<T>, key: T -> int, k: int)
    requires key(x) != key(y)
    ensures Keyed([x] + ([y] + s), key, k) == Keyed([y] + ([x] + s), key, k)
  {
    KeyedCons(x, [y] + s, key, k);
    KeyedCons(y, s, key, k);
    KeyedCons(y, [x] + s, key, k);
    KeyedCons(x, s, key, k);
  }

  lemma {:induction false} InsertedFirst<T(!new)>(x: T, s: seq<T>, key: T -> int, k: int)
    requires SortedBy(s, key)
    ensures Keyed(InsertBy(x, s, key), key, k) == Keyed([x] + s, key, k)
  {
    if s != [] && key(x) > key(s[0]) {
      InsertedFirst(x, s[1..], key, k);
      KeyedCons(s[0], InsertBy(x, s[1..], key), key, k);
      KeyedCons(s[0], [x] + s[1..], key, k);
      KeyedSwap(x, s[0], s[1..], key, k);
      assert s == [s[0]] + s[1..];
    }
  }

  // Elements with equal keys keep their order.
  lemma {:induction false} SortIsStable<T(!new)>(s: seq<T>, key: T -> int, k: int)
    ensures Keyed(SortBy(s, key), key, k) == Keyed(s, key, k)
  {
    if s != [] {
      SortIsStable(s[1..], key, k);
      var rest := SortBy(s[1..], key);
      InsertedFirst(s[0], rest, key, k);
      KeyedCons(s[0], rest, key, k);
    }
  }

  // --- What sorting means, without saying how ---

  // In order of the key, and for each key the elements with it in the order they came.
  ghost predicate StablySorted<T(!new)>(s: seq<T>, r: seq<T>, key: T -> int) {
    SortedBy(r, key) && multiset(r) == multiset(s) && forall k :: Keyed(r, key, k) == Keyed(s, key, k)
  }

  lemma {:induction false} SortMeaning<T(!new)>(s: seq<T>, key: T -> int)
    ensures StablySorted(s, SortBy(s, key), key)
  {
    forall k ensures Keyed(SortBy(s, key), key, k) == Keyed(s, key, k) { SortIsStable(s, key, k); }
  }

  // The keys that occur are those with elements.
  lemma {:induction false} KeyedNone<T>(s: seq<T>, key: T -> int, k: int)
    ensures Keyed(s, key, k) == [] <==> forall i :: 0 <= i < |s| ==> key(s[i]) != k
  {
    if s != [] { KeyedNone(s[1..], key, k); }
  }

  lemma {:induction false} LeastFirst<T(!new)>(a: seq<T>, b: seq<T>, key: T -> int)
    requires SortedBy(a, key) && SortedBy(b, key) && a != [] && b != [] && forall k :: Keyed(a, key, k) == Keyed(b, key, k)
    ensures key(a[0]) <= key(b[0])
  {
    var k := key(b[0]);
    KeyedNone(b, key, k);
    KeyedNone(a, key, k);
    var i :| 0 <= i < |a| && key(a[i]) == k;
  }

  // There is only one such order.
  lemma {:induction false} StableIsUnique<T(!new)>(a: seq<T>, b: seq<T>, key: T -> int)
    requires SortedBy(a, key) && SortedBy(b, key) && forall k :: Keyed(a, key, k) == Keyed(b, key, k)
    ensures a == b
  {
    if a == [] || b == [] {
      forall k ensures Keyed(a, key, k) == [] { KeyedNone(a, key, k); KeyedNone(b, key, k); }
      if a != [] { KeyedNone(a, key, key(a[0])); }
      if b != [] { KeyedNone(b, key, key(b[0])); }
    } else {
      LeastFirst(a, b, key);
      LeastFirst(b, a, key);
      var k := key(a[0]);
      assert Keyed(a, key, k)[0] == a[0] && Keyed(b, key, k)[0] == b[0];
      forall m ensures Keyed(a[1..], key, m) == Keyed(b[1..], key, m) { KeyedTail(a, b, key, m); }
      StableIsUnique(a[1..], b[1..], key);
      assert a == [a[0]] + a[1..] && b == [b[0]] + b[1..];
    }
  }

  lemma {:induction false} KeyedTail<T>(a: seq<T>, b: seq<T>, key: T -> int, k: int)
    requires a != [] && b != [] && a[0] == b[0] && Keyed(a, key, k) == Keyed(b, key, k)
    ensures Keyed(a[1..], key, k) == Keyed(b[1..], key, k)
  {
    if key(a[0]) == k {
      assert Keyed(a, key, k)[1..] == Keyed(a[1..], key, k) && Keyed(b, key, k)[1..] == Keyed(b[1..], key, k);
    } else {
      assert Keyed(a, key, k) == Keyed(a[1..], key, k) && Keyed(b, key, k) == Keyed(b[1..], key, k);
    }
  }
}
