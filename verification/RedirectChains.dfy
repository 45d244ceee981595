// Resolution of line redirects: every chain is chased with ring detection while the
// values are overwritten in place, then lines are grouped by chain length.
module RedirectChains {
  import opened Basics

  // Redirects[i] is the line that line i refers to; None for a plain line.
  type Redirects = seq<Option<nat>>

  ghost predicate InRange(r: Redirects) {
    forall i :: 0 <= i < |r| && r[i].Some? ==> r[i].value < |r|
  }

  // --- Reference: following the redirects ---

  function Walk(r: Redirects, i: nat, k: nat): (j: nat)
    requires InRange(r) && i < |r|
    ensures j < |r|
  {
    if k == 0 then i
    else
      var j := Walk(r, i, k - 1);
      if r[j].Some? then r[j].value else j
  }

  ghost predicate EndsAt(r: Redirects, i: nat, k: nat)
    requires InRange(r) && i < |r|
  {
    r[Walk(r, i, k)].None? && forall m: nat :: m < k ==> r[Walk(r, i, m)].Some?
  }

  ghost predicate Resolves(r: Redirects, i: nat)
    requires InRange(r) && i < |r|
  {
    exists k: nat :: r[Walk(r, i, k)].None?
  }

  lemma {:induction false} FirstPlain(r: Redirects, i: nat, k: nat)
    requires InRange(r) && i < |r| && r[Walk(r, i, k)].None?
    ensures exists m: nat :: EndsAt(r, i, m)
  {
    if m: nat :| m < k && r[Walk(r, i, m)].None? {
      FirstPlain(r, i, m);
    } else {
      assert EndsAt(r, i, k);
    }
  }

  // Redirects followed until a plain line.
  ghost function Hops(r: Redirects, i: nat): (k: nat)
    requires InRange(r) && i < |r| && Resolves(r, i)
    ensures EndsAt(r, i, k)
  {
    var k0: nat :| r[Walk(r, i, k0)].None?;
    FirstPlain(r, i, k0);
    var k: nat :| EndsAt(r, i, k);
    k
  }

  lemma {:induction false} HopsUnique(r: Redirects, i: nat, k: nat)
    requires InRange(r) && i < |r| && EndsAt(r, i, k)
    ensures Resolves(r, i) && Hops(r, i) == k
  {
    assert r[Walk(r, i, k)].None?;
    var h := Hops(r, i);
    assert !(h < k) && !(k < h);
  }

  // The lines visited after line i, up to the plain one.
  ghost function Trail(r: Redirects, i: nat, k: nat): seq<nat>
    requires InRange(r) && i < |r|
  {
    seq(k, m requires 0 <= m < k => Walk(r, i, m + 1))
  }

  ghost function Path(r: Redirects, i: nat): seq<nat>
    requires InRange(r) && i < |r| && Resolves(r, i)
  {
    Trail(r, i, Hops(r, i))
  }

  ghost function Terminal(r: Redirects, i: nat): (t: nat)
    requires InRange(r) && i < |r| && Resolves(r, i)
    ensures t < |r| && r[t].None?
  {
    Walk(r, i, Hops(r, i))
  }

  // A chain that comes back to a visited line before any plain one never meets a plain one.
  lemma {:induction false} RevisitLoops(r: Redirects, i: nat, j: nat, m: nat, k: nat)
    requires InRange(r) && i < |r| && j < m && Walk(r, i, m) == Walk(r, i, j)
    requires forall n: nat :: n < m ==> r[Walk(r, i, n)].Some?
    ensures exists n: nat :: n < m && Walk(r, i, k) == Walk(r, i, n)
  {
    if k < m {
    } else {
      RevisitLoops(r, i, j, m, k - 1);
      var n: nat :| n < m && Walk(r, i, k - 1) == Walk(r, i, n);
      assert Walk(r, i, k) == Walk(r, i, n + 1);
      if n + 1 == m { assert Walk(r, i, k) == Walk(r, i, j); }
    }
  }

  lemma {:induction false} RevisitNeverResolves(r: Redirects, i: nat, j: nat, m: nat)
    requires InRange(r) && i < |r| && j < m && Walk(r, i, m) == Walk(r, i, j)
    requires forall n: nat :: n < m ==> r[Walk(r, i, n)].Some?
    ensures !Resolves(r, i)
  {
    forall k: nat ensures r[Walk(r, i, k)].Some? {
      RevisitLoops(r, i, j, m, k);
      var n: nat :| n < m && Walk(r, i, k) == Walk(r, i, n);
    }
  }

  // --- The chase ---

  // The first m lines of the chain.
  ghost function Seen(r: Redirects, i: nat, m: nat): set<nat>
    requires InRange(r) && i < |r|
  {
    if m == 0 then {} else Seen(r, i, m - 1) + {Walk(r, i, m - 1)}
  }

  lemma {:induction false} SeenOrigin(r: Redirects, i: nat, m: nat, j: nat)
    requires InRange(r) && i < |r| && j in Seen(r, i, m)
    ensures j < |r| && exists n: nat :: n < m && Walk(r, i, n) == j
  {
    if j != Walk(r, i, m - 1) {
      SeenOrigin(r, i, m - 1, j);
      var n: nat :| n < m - 1 && Walk(r, i, n) == j;
    }
  }

  // m distinct redirecting lines passed, and the current one is new.
  ghost predicate OnTheWay(r: Redirects, i: nat, m: nat)
    requires InRange(r) && i < |r|
  {
    && |Seen(r, i, m)| == m && Walk(r, i, m) !in Seen(r, i, m)
    && forall n: nat :: n < m ==> r[Walk(r, i, n)].Some?
  }

  lemma {:induction false} OnTheWayBounded(r: Redirects, i: nat, m: nat)
    requires InRange(r) && i < |r| && OnTheWay(r, i, m)
    ensures m < |r|
  {
    var seen := Seen(r, i, m + 1);
    forall j | j in seen ensures j < |r| { SeenOrigin(r, i, m + 1, j); }
    Bounded(|r|, seen);
  }

  lemma {:induction false} TrailGrows(r: Redirects, i: nat, m: nat)
    requires InRange(r) && i < |r|
    ensures Trail(r, i, m + 1) == Trail(r, i, m) + [Walk(r, i, m + 1)]
  {
  }

  lemma {:induction false} MeetsSeen(r: Redirects, i: nat, m: nat)
    requires InRange(r) && i < |r| && OnTheWay(r, i, m) && r[Walk(r, i, m)].Some?
    requires Walk(r, i, m + 1) in Seen(r, i, m + 1)
    ensures !Resolves(r, i)
  {
    SeenOrigin(r, i, m + 1, Walk(r, i, m + 1));
    var n: nat :| n < m + 1 && Walk(r, i, n) == Walk(r, i, m + 1);
    RevisitNeverResolves(r, i, n, m + 1);
  }

  // The chase from one line: its link list, or None for a ring, and where it stopped.
  method Chase(r: Redirects, i: nat) returns (link: Option<seq<nat>>, cur: nat)
    requires InRange(r) && i < |r|
    ensures link.Some? <==> Resolves(r, i)
    ensures Resolves(r, i) ==> link.value == Path(r, i) && cur == Terminal(r, i)
    ensures cur < |r|
  {
    cur := i;
    var visited: set<nat>, links := {}, [];
    ghost var m: nat := 0;
    while r[cur].Some?
      invariant cur == Walk(r, i, m) && links == Trail(r, i, m) && visited == Seen(r, i, m)
      invariant OnTheWay(r, i, m)
      decreases |r| - m
    {
      OnTheWayBounded(r, i, m);
      TrailGrows(r, i, m);
      visited := visited + {cur};
      links := links + [r[cur].value];
      cur := r[cur].value;
      if cur in visited {
        MeetsSeen(r, i, m);
        return None, cur;
      }
      m := m + 1;
    }
    HopsUnique(r, i, m);
    return Some(links), cur;
  }

  // Chases every line in order, overwriting its value by the value where the chase stopped.
  method BuildLinks<V>(r: Redirects, values: array<V>)
    returns (links: seq<Option<seq<nat>>>, rings: set<nat>)
    requires InRange(r) && values.Length == |r|
    modifies values
    ensures |links| == |r|
    ensures forall i :: 0 <= i < |r| ==> (i in rings <==> !Resolves(r, i))
    ensures forall i :: i in rings ==> 0 <= i < |r|
    ensures forall i :: 0 <= i < |r| ==> links[i] == if Resolves(r, i) then Some(Path(r, i)) else None
    ensures forall i :: 0 <= i < |r| && Resolves(r, i) ==> values[i] == old(values[Terminal(r, i)])
  {
    links, rings := [], {};
    for i := 0 to |r|
      invariant |links| == i
      invariant forall j :: 0 <= j < i ==> (j in rings <==> !Resolves(r, j))
      invariant forall j :: j in rings ==> 0 <= j < i
      invariant forall j :: 0 <= j < i ==> links[j] == if Resolves(r, j) then Some(Path(r, j)) else None
      invariant forall j :: 0 <= j < i && Resolves(r, j) ==> values[j] == old(values[Terminal(r, j)])
      invariant forall j :: i <= j < |r| ==> values[j] == old(values[j])
      invariant forall j :: 0 <= j < |r| && r[j].None? ==> values[j] == old(values[j])
    {
      var link, cur := Chase(r, i);
      if r[i].None? { HopsUnique(r, i, 0); }
      if link.None? { rings := rings + {i}; }
      values[i] := values[cur];
      links := links + [link];
    }
  }

  // --- Groups by chain length ---

  predicate InGroup(groups: map<nat, seq<nat>>, h: nat, i: nat) {
    h in groups && i in groups[h]
  }

  // The lines below `bound` outside rings, each in the group of its link list's length plus one.
  ghost predicate GroupsUpTo(links: seq<Option<seq<nat>>>, groups: map<nat, seq<nat>>, bound: nat)
    requires bound <= |links|
  {
    && (forall h :: h in groups ==> Increasing(groups[h]))
    && (forall h, i: nat :: InGroup(groups, h, i) ==>
          i < bound && links[i].Some? && |links[i].value| + 1 == h)
    && (forall i: nat :: i < bound && links[i].Some? ==>
          InGroup(groups, |links[i].value| + 1, i))
  }

  lemma {:induction false} GroupsGrow(links: seq<Option<seq<nat>>>, groups: map<nat, seq<nat>>, i: nat)
    requires i < |links| && GroupsUpTo(links, groups, i) && links[i].Some?
    ensures var h := |links[i].value| + 1;
      GroupsUpTo(links, groups[h := (if h in groups then groups[h] else []) + [i]], i + 1)
  {
    var h := |links[i].value| + 1;
    var group := if h in groups then groups[h] else [];
    var groups' := groups[h := group + [i]];
    forall k | 0 <= k < |group| ensures group[k] < i { assert InGroup(groups, h, group[k]); }
    forall g, j: nat | InGroup(groups', g, j)
      ensures j < i + 1 && links[j].Some? && |links[j].value| + 1 == g
    {
      if j != i || g != h { assert InGroup(groups, g, j); }
    }
    forall j: nat | j < i + 1 && links[j].Some? ensures InGroup(groups', |links[j].value| + 1, j) {
      if j < i { assert InGroup(groups, |links[j].value| + 1, j); }
    }
  }

  method GroupByHops(links: seq<Option<seq<nat>>>, rings: set<nat>) returns (groups: map<nat, seq<nat>>)
    requires forall i :: 0 <= i < |links| ==> (i in rings <==> links[i].None?)
    ensures GroupsUpTo(links, groups, |links|)
  {
    groups := map[];
    for i := 0 to |links|
      invariant GroupsUpTo(links, groups, i)
    {
      if i !in rings {
        var h := |links[i].value| + 1;
        GroupsGrow(links, groups, i);
        groups := groups[h := (if h in groups then groups[h] else []) + [i]];
      }
    }
  }

  // The groups partition the lines that resolve, by number of hops plus one.
  lemma {:induction false} GroupsPartition(r: Redirects, links: seq<Option<seq<nat>>>, groups: map<nat, seq<nat>>, h: nat, i: nat)
    requires InRange(r) && |links| == |r| && i < |r| && GroupsUpTo(links, groups, |links|)
    requires forall j :: 0 <= j < |r| ==> links[j] == if Resolves(r, j) then Some(Path(r, j)) else None
    ensures InGroup(groups, h, i) <==> Resolves(r, i) && Hops(r, i) + 1 == h
  {
    assert Resolves(r, i) ==> |Path(r, i)| == Hops(r, i);
  }
}
