// Keys of the radix cache at token level: matching two keys page by page, and what that
// means for the units of the tree.
module RadixKeys {
  import opened Basics
  import opened RadixKept
  import opened RadixMeaning
  import opened RadixTree

  // Python slices, clipped at the end of the list.
  function Take(t: seq<int>, n: nat): seq<int> {
    if n <= |t| then t[..n] else t
  }

  function Skip(t: seq<int>, n: nat): seq<int> {
    if n <= |t| then t[n..] else []
  }

  // Tokens shared at the front.
  function Shared(a: seq<int>, b: seq<int>): (n: nat)
    ensures n <= |a| && n <= |b|
  {
    if a == [] || b == [] || a[0] != b[0] then 0 else 1 + Shared(a[1..], b[1..])
  }

  predicate Aligned(t: seq<int>, page: nat)
    requires page > 0
  {
    t == [] || (|t| >= page && Aligned(t[page..], page))
  }

  // The key's pages, a partial last page left out.
  function Pages(t: seq<int>, page: nat, extra: Option<string>): Key
    requires page > 0
  {
    if |t| < page then [] else [Unit(extra, t[..page])] + Pages(t[page..], page, extra)
  }

  function PageMatch(a: seq<int>, b: seq<int>, page: nat): nat
    requires page > 0
    decreases |a|
  {
    if a == [] || b == [] || Take(a, page) != Take(b, page) then 0
    else page + PageMatch(Skip(a, page), Skip(b, page), page)
  }

  method MatchTokens(a: seq<int>, b: seq<int>) returns (i: nat)
    ensures i == Shared(a, b)
  {
    i := 0;
    while i < |a| && i < |b| && a[i] == b[i]
      invariant i <= |a| && i <= |b| && Shared(a, b) == i + Shared(a[i..], b[i..])
    {
      assert a[i..][1..] == a[i + 1..] && b[i..][1..] == b[i + 1..];
      i := i + 1;
    }
  }

  method MatchPages(a: seq<int>, b: seq<int>, page: nat) returns (i: nat)
    requires page > 0
    ensures i == PageMatch(a, b, page)
  {
    i := 0;
    var least := if |a| <= |b| then |a| else |b|;
    ghost var restA, restB := a, b;
    while i < least
      invariant restA == Skip(a, i) && restB == Skip(b, i)
      invariant PageMatch(a, b, page) == i + PageMatch(restA, restB, page)
      decreases least - i
    {
      if Take(a[i..], page) != Take(b[i..], page) {
        return;
      }
      SkipMore(a, i, page);
      SkipMore(b, i, page);
      restA, restB := Skip(restA, page), Skip(restB, page);
      i := i + page;
    }
  }

  lemma {:induction false} SkipMore(t: seq<int>, i: nat, n: nat)
    requires i <= |t|
    ensures Skip(Skip(t, i), n) == Skip(t, i + n)
  {
  }

  predicate Multiple(n: nat, page: nat)
    requires page > 0
  {
    n == 0 || (n >= page && Multiple(n - page, page))
  }

  // The longest whole number of pages within the shared tokens.
  predicate RoundedDown(n: nat, shared: nat, page: nat)
    requires page > 0
  {
    Multiple(n, page) && n <= shared < n + page
  }

  lemma {:induction false} SharedSkip(a: seq<int>, b: seq<int>, n: nat)
    requires n <= |a| && n <= |b| && a[..n] == b[..n]
    ensures Shared(a, b) == n + Shared(a[n..], b[n..])
  {
    if n == 0 {
      assert a[0..] == a && b[0..] == b;
    } else {
      assert a[0] == a[..n][0] && b[0] == b[..n][0];
      assert a[1..][..n - 1] == a[..n][1..] && b[1..][..n - 1] == b[..n][1..];
      SharedSkip(a[1..], b[1..], n - 1);
      assert a[1..][n - 1..] == a[n..] && b[1..][n - 1..] == b[n..];
    }
  }

  lemma {:induction false} SharedPrefix(a: seq<int>, b: seq<int>, n: nat)
    requires n <= Shared(a, b)
    ensures a[..n] == b[..n]
  {
    if n > 0 {
      SharedPrefix(a[1..], b[1..], n - 1);
      assert a[..n] == [a[0]] + a[1..][..n - 1] && b[..n] == [b[0]] + b[1..][..n - 1];
    }
  }

  // Rounding down to whole pages is right for all keys but one kind: two equal keys whose
  // last page is partial match beyond their own end.
  lemma {:induction false} PageMatchRounds(a: seq<int>, b: seq<int>, page: nat)
    requires page > 0
    ensures RoundedDown(PageMatch(a, b, page), Shared(a, b), page) <==> !(a == b && !Aligned(a, page))
    ensures Multiple(PageMatch(a, b, page), page)
    ensures a == b && !Aligned(a, page) ==> PageMatch(a, b, page) > |a|
    decreases |a|
  {
    if a == [] || b == [] {
    } else if Take(a, page) != Take(b, page) {
      if Shared(a, b) >= page { SharedPrefix(a, b, page); }
    } else if |a| < page {
      assert a == b;
      assert PageMatch([], [], page) == 0;
    } else {
      SharedSkip(a, b, page);
      PageMatchRounds(a[page..], b[page..], page);
      assert a == b <==> a[page..] == b[page..] by {
        assert a == a[..page] + a[page..] && b == b[..page] + b[page..];
      }
    }
  }

  lemma {:induction false} PartialPageOvershoots()
    ensures PageMatch([7], [7], 2) == 2 && Shared([7], [7]) == 1
  {
    assert PageMatch([], [], 2) == 0;
  }

  lemma {:induction false} OneMore(k: nat, page: nat)
    ensures page * (k + 1) == page * k + page
  {
  }

  // Matching page-aligned keys token by token is matching their units.
  lemma {:induction false} AlignedMatchIsUnitMatch(a: seq<int>, b: seq<int>, page: nat, extra: Option<string>)
    requires page > 0 && Aligned(a, page) && Aligned(b, page)
    ensures PageMatch(a, b, page) == page * Common(Pages(a, page, extra), Pages(b, page, extra))
    decreases |a|
  {
    if a != [] && b != [] && a[..page] == b[..page] {
      AlignedMatchIsUnitMatch(a[page..], b[page..], page, extra);
      var u, v := Pages(a[page..], page, extra), Pages(b[page..], page, extra);
      CommonCons(Unit(extra, a[..page]), u, v);
      OneMore(Common(u, v), page);
    }
  }

  lemma {:induction false} CommonCons(head: Unit, u: Key, v: Key)
    ensures Common([head] + u, [head] + v) == Common(u, v) + 1
  {
    assert ([head] + u)[1..] == u && ([head] + v)[1..] == v;
  }

  // What is cached under one extra key never changes a match under another.
  lemma {:induction false} NamespacesApart(f: Forest, a: seq<int>, value: seq<Slot>, b: seq<int>, page: nat,
                                           x: Option<string>, y: Option<string>)
    requires WellFormed(f) && page > 0 && x != y && |value| == |Pages(a, page, x)|
    ensures WellFormed(Insert(f, Pages(a, page, x), value))
    ensures MatchSlots(Insert(f, Pages(a, page, x), value), Pages(b, page, y)) == MatchSlots(f, Pages(b, page, y))
  {
    var key, other := Pages(a, page, x), Pages(b, page, y);
    var g := Insert(f, key, value);
    InsertWellFormed(f, key, value);
    forall i | 1 <= i <= |other| ensures Get(g, other[..i]) == Get(f, other[..i]) {
      InsertGet(f, key, value, other[..i]);
      assert other[..i][0] == other[0] && other[0].extra == y && (key != [] ==> key[0].extra == x);
    }
    SameGetSameMatch(g, f, other);
  }
}
