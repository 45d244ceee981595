// Sequences seen as bags of identifiers: how often one occurs, and how that changes
// when elements are appended, taken from the front or removed. Also sums of numbers.
module Bags {

  function Drop<T>(s: seq<T>, i: nat): seq<T>
    requires i < |s|
  {
    s[..i] + s[i + 1..]
  }

  lemma {:induction false} DropInit<T>(s: seq<T>, i: nat)
    requires i < |s| - 1
    ensures Drop(s, i) == Drop(s[..|s| - 1], i) + [s[|s| - 1]]
  {
  }

  lemma {:induction false} DropKeeps<T>(s: seq<T>, i: nat, j: nat) returns (k: nat)
    requires i < |s| && j < |s| && i != j
    ensures k < |Drop(s, i)| && Drop(s, i)[k] == s[j]
  {
    k := if j < i then j else j - 1;
  }

  lemma {:induction false} DropLast<T>(s: seq<T>)
    requires s != []
    ensures Drop(s, |s| - 1) == s[..|s| - 1]
  {
  }

  function UpTo(n: nat): (s: seq<nat>)
    ensures |s| == n && forall i :: 0 <= i < n ==> s[i] == i
  {
    seq(n, i => i)
  }

  function Repeat<T>(n: nat, x: T): (s: seq<T>)
    ensures |s| == n && forall i :: 0 <= i < n ==> s[i] == x
  {
    seq(n, i => x)
  }

  function In(s: seq<nat>, c: nat): nat {
    multiset(s)[c]
  }

  lemma {:induction false} InDrop(s: seq<nat>, i: nat, c: nat)
    requires i < |s|
    ensures In(s, c) == In(Drop(s, i), c) + if s[i] == c then 1 else 0
  {
    assert s == s[..i] + [s[i]] + s[i + 1..];
  }

  lemma {:induction false} InSnoc(s: seq<nat>, d: nat, c: nat)
    ensures In(s + [d], c) == In(s, c) + if c == d then 1 else 0
  {
  }

  lemma {:induction false} InHead(s: seq<nat>, c: nat)
    requires s != []
    ensures In(s, c) == In(s[1..], c) + if s[0] == c then 1 else 0
  {
    assert s == [s[0]] + s[1..];
  }

  lemma {:induction false} InUpTo(n: nat, c: nat)
    ensures In(UpTo(n), c) == if c < n then 1 else 0
  {
    if n > 0 {
      InUpTo(n - 1, c);
      assert UpTo(n) == UpTo(n - 1) + [n - 1];
    }
  }

  function Sum(s: seq<nat>): nat {
    if s == [] then 0 else Sum(s[..|s| - 1]) + s[|s| - 1]
  }

  lemma {:induction false} SumUpdate(s: seq<nat>, c: nat, v: nat)
    requires c < |s|
    ensures Sum(s[c := v]) == Sum(s) - s[c] + v
  {
    var last := |s| - 1;
    if c == last {
      assert s[c := v][..last] == s[..last];
    } else {
      SumUpdate(s[..last], c, v);
      assert s[c := v][..last] == s[..last][c := v];
    }
  }

  // The sum of f over a sequence.
  function Total<T>(s: seq<T>, f: T -> nat): nat {
    if s == [] then 0 else Total(s[..|s| - 1], f) + f(s[|s| - 1])
  }

  lemma {:induction false} TotalSnoc<T>(s: seq<T>, x: T, f: T -> nat)
    ensures Total(s + [x], f) == Total(s, f) + f(x)
  {
    assert (s + [x])[..|s|] == s;
  }

  lemma {:induction false} TotalUpdate<T>(s: seq<T>, i: nat, x: T, f: T -> nat)
    requires i < |s|
    ensures Total(s[i := x], f) == Total(s, f) - f(s[i]) + f(x)
  {
    var last := |s| - 1;
    if i == last {
      assert s[i := x][..last] == s[..last];
    } else {
      TotalUpdate(s[..last], i, x, f);
      assert s[i := x][..last] == s[..last][i := x];
    }
  }

  lemma {:induction false} TotalDrop<T>(s: seq<T>, i: nat, f: T -> nat)
    requires i < |s|
    ensures Total(Drop(s, i), f) == Total(s, f) - f(s[i])
  {
    if i == |s| - 1 {
      DropLast(s);
    } else {
      TotalDrop(s[..|s| - 1], i, f);
      DropInit(s, i);
      TotalSnoc(Drop(s[..|s| - 1], i), s[|s| - 1], f);
    }
  }

  lemma {:induction false} SumZeros(n: nat)
    ensures Sum(Repeat<nat>(n, 0)) == 0
  {
    if n > 0 {
      SumZeros(n - 1);
      assert Repeat<nat>(n, 0)[..n - 1] == Repeat<nat>(n - 1, 0);
    }
  }
}
