// The span tree the converter builds from parent ids that may be missing, duplicated or
// cyclic, and its recursive traversals from the request roots.
module SpanTree {
  import opened Basics

  // What the tree builder reads of one OpenTelemetry span.
  datatype OtelSpan = OtelSpan(spanId: string, parentId: string, isRequest: bool, pid: int, start: int, end: int)

  // --- Building: a parent for each span, children in input order ---

  // Later spans win a duplicated id.
  function IdMap(spans: seq<OtelSpan>): (m: map<string, nat>)
    ensures forall id :: id in m ==> m[id] < |spans| && spans[m[id]].spanId == id
    ensures forall i :: 0 <= i < |spans| ==> spans[i].spanId in m && i <= m[spans[i].spanId]
  {
    if spans == [] then map[]
    else IdMap(spans[..|spans| - 1])[spans[|spans| - 1].spanId := |spans| - 1]
  }

  function ParentOf(spans: seq<OtelSpan>, i: nat): Option<nat>
    requires i < |spans|
  {
    if !spans[i].isRequest && spans[i].parentId in IdMap(spans) then Some(IdMap(spans)[spans[i].parentId]) else None
  }

  ghost predicate Distinct(s: seq<nat>) {
    forall i, j :: 0 <= i < j < |s| ==> s[i] != s[j]
  }

  // Parents[i] is the span whose child list holds span i, if any.
  type Parents = seq<Option<nat>>

  ghost predicate Closed(parents: Parents) {
    forall i :: 0 <= i < |parents| && parents[i].Some? ==> parents[i].value < |parents|
  }

  function ParentsOf(spans: seq<OtelSpan>): (parents: Parents)
    ensures |parents| == |spans| && Closed(parents)
    ensures forall i :: 0 <= i < |spans| ==> parents[i] == ParentOf(spans, i)
    ensures forall i :: 0 <= i < |spans| && spans[i].isRequest ==> parents[i] == None
  {
    seq(|spans|, i requires 0 <= i < |spans| => ParentOf(spans, i))
  }

  // The spans below `bound` whose parent is p, in order.
  function Kids(parents: Parents, p: nat, bound: nat): seq<nat>
    requires bound <= |parents|
  {
    if bound == 0 then []
    else if parents[bound - 1] == Some(p) then Kids(parents, p, bound - 1) + [bound - 1]
    else Kids(parents, p, bound - 1)
  }

  lemma {:induction false} KidsMembers(parents: Parents, p: nat, bound: nat)
    requires bound <= |parents|
    ensures forall j: nat :: j in Kids(parents, p, bound) <==> j < bound && parents[j] == Some(p)
    ensures Distinct(Kids(parents, p, bound))
  {
    if bound > 0 {
      KidsMembers(parents, p, bound - 1);
      var rest := Kids(parents, p, bound - 1);
      assert forall i :: 0 <= i < |rest| ==> rest[i] in rest;
    }
  }

  function Requests(spans: seq<OtelSpan>, bound: nat): seq<nat>
    requires bound <= |spans|
  {
    if bound == 0 then []
    else if spans[bound - 1].isRequest then Requests(spans, bound - 1) + [bound - 1]
    else Requests(spans, bound - 1)
  }

  lemma {:induction false} RequestsMembers(spans: seq<OtelSpan>, bound: nat)
    requires bound <= |spans|
    ensures forall j: nat :: j in Requests(spans, bound) <==> j < bound && spans[j].isRequest
    ensures Distinct(Requests(spans, bound))
  {
    if bound > 0 {
      RequestsMembers(spans, bound - 1);
      var rest := Requests(spans, bound - 1);
      assert forall i :: 0 <= i < |rest| ==> rest[i] in rest;
    }
  }

  method BuildIds(spans: seq<OtelSpan>) returns (ids: map<string, nat>)
    ensures ids == IdMap(spans)
  {
    ids := map[];
    for i := 0 to |spans|
      invariant ids == IdMap(spans[..i])
    {
      assert spans[..i + 1][..i] == spans[..i];
      ids := ids[spans[i].spanId := i];
    }
    assert spans[..|spans|] == spans;
  }

  // What looking a parent id up gives, request spans aside.
  ghost predicate Resolved(spans: seq<OtelSpan>, ids: map<string, nat>, parents: Parents) {
    && |parents| == |spans| && Closed(parents)
    && forall i :: 0 <= i < |spans| ==>
         parents[i] == if spans[i].isRequest || spans[i].parentId !in ids then None else Some(ids[spans[i].parentId])
  }

  method LinkChildren(spans: seq<OtelSpan>, ids: map<string, nat>, ghost parents: Parents)
    returns (child: array<seq<nat>>, roots: seq<nat>)
    requires Resolved(spans, ids, parents)
    ensures fresh(child) && child.Length == |spans|
    ensures forall p :: 0 <= p < |spans| ==> child[p] == Kids(parents, p, |spans|)
    ensures roots == Requests(spans, |spans|)
  {
    child := new seq<nat>[|spans|](_ => []);
    roots := [];
    for i := 0 to |spans|
      invariant forall p :: 0 <= p < |spans| ==> child[p] == Kids(parents, p, i)
      invariant roots == Requests(spans, i)
    {
      if spans[i].isRequest {
        roots := roots + [i];
      } else if spans[i].parentId in ids {
        var p := ids[spans[i].parentId];
        assert parents[i] == Some(p);
        child[p] := child[p] + [i];
      }
    }
  }

  method BuildOtelSpanTree(spans: seq<OtelSpan>) returns (child: array<seq<nat>>, roots: seq<nat>)
    ensures fresh(child) && child.Length == |spans|
    ensures forall p :: 0 <= p < |spans| ==> child[p] == Kids(ParentsOf(spans), p, |spans|)
    ensures roots == Requests(spans, |spans|)
  {
    var ids := BuildIds(spans);
    child, roots := LinkChildren(spans, ids, ParentsOf(spans));
  }

  // No later span has the same id.
  ghost predicate LastWithId(spans: seq<OtelSpan>, p: nat) {
    p < |spans| && forall j :: p < j < |spans| ==> spans[j].spanId != spans[p].spanId
  }

  // In input order, the spans that name this one as parent and are not requests; of several
  // spans with one id the last is meant.
  ghost predicate ChildrenOf(spans: seq<OtelSpan>, p: nat, kids: seq<nat>)
    requires p < |spans|
  {
    && Increasing(kids)
    && forall j: nat :: j in kids <==>
         j < |spans| && !spans[j].isRequest && spans[j].parentId == spans[p].spanId && LastWithId(spans, p)
  }

  lemma {:induction false} ParentMeaning(spans: seq<OtelSpan>, p: nat, j: nat)
    requires p < |spans| && j < |spans|
    ensures ParentOf(spans, j) == Some(p) <==>
      !spans[j].isRequest && spans[j].parentId == spans[p].spanId && LastWithId(spans, p)
  {
    var m, id := IdMap(spans), spans[j].parentId;
    if id in m { assert spans[m[id]].spanId == id; }
    if id == spans[p].spanId && LastWithId(spans, p) { assert p <= m[id]; }
  }

  lemma {:induction false} KidsInOrder(parents: Parents, p: nat, bound: nat)
    requires bound <= |parents|
    ensures Increasing(Kids(parents, p, bound)) && forall j :: j in Kids(parents, p, bound) ==> j < bound
  {
    if bound > 0 {
      KidsInOrder(parents, p, bound - 1);
      var rest := Kids(parents, p, bound - 1);
      assert forall i :: 0 <= i < |rest| ==> rest[i] in rest;
    }
  }

  // The roots are the request spans, in input order.
  lemma {:induction false} RootsMeaning(spans: seq<OtelSpan>, bound: nat)
    requires bound <= |spans|
    ensures Increasing(Requests(spans, bound))
    ensures forall j: nat :: j in Requests(spans, bound) <==> j < bound && spans[j].isRequest
  {
    if bound > 0 {
      RootsMeaning(spans, bound - 1);
      var rest := Requests(spans, bound - 1);
      assert forall i :: 0 <= i < |rest| ==> rest[i] in rest;
    }
  }

  // What the child lists hold.
  lemma {:induction false} KidsMeaning(spans: seq<OtelSpan>, p: nat)
    requires p < |spans|
    ensures ChildrenOf(spans, p, Kids(ParentsOf(spans), p, |spans|))
  {
    var parents := ParentsOf(spans);
    KidsMembers(parents, p, |spans|);
    KidsInOrder(parents, p, |spans|);
    forall j: nat | j < |spans|
      ensures parents[j] == Some(p) <==>
        !spans[j].isRequest && spans[j].parentId == spans[p].spanId && LastWithId(spans, p)
    {
      ParentMeaning(spans, p, j);
    }
  }

  // --- Depth below a parentless span ---

  ghost predicate AtDepth(parents: Parents, i: nat, d: nat)
    requires Closed(parents)
    decreases d
  {
    && i < |parents|
    && if d == 0 then parents[i] == None else parents[i].Some? && AtDepth(parents, parents[i].value, d - 1)
  }

  // The ancestor k levels up.
  ghost function Up(parents: Parents, i: nat, d: nat, k: nat): (a: nat)
    requires Closed(parents) && k <= d && AtDepth(parents, i, d)
    ensures AtDepth(parents, a, d - k)
    decreases k
  {
    if k == 0 then i else Up(parents, parents[i].value, d - 1, k - 1)
  }

  lemma {:induction false} DepthUnique(parents: Parents, i: nat, d: nat, e: nat)
    requires Closed(parents) && AtDepth(parents, i, d) && AtDepth(parents, i, e)
    ensures d == e
    decreases d
  {
    if d > 0 && e > 0 { DepthUnique(parents, parents[i].value, d - 1, e - 1); }
  }

  ghost predicate Within(parents: Parents, i: nat, d: nat)
    requires Closed(parents)
  {
    exists e: nat :: e <= d && AtDepth(parents, i, e)
  }

  ghost function Lineage(parents: Parents, i: nat, d: nat): set<nat>
    requires Closed(parents) && AtDepth(parents, i, d)
    decreases d
  {
    {i} + if d == 0 then {} else Lineage(parents, parents[i].value, d - 1)
  }

  lemma {:induction false} LineageSize(parents: Parents, i: nat, d: nat)
    requires Closed(parents) && AtDepth(parents, i, d)
    ensures |Lineage(parents, i, d)| == d + 1
    ensures forall j :: j in Lineage(parents, i, d) ==> j < |parents| && Within(parents, j, d)
    decreases d
  {
    if d == 0 {
      assert AtDepth(parents, i, 0);
    } else {
      var p := parents[i].value;
      assert AtDepth(parents, i, d);
      LineageSize(parents, p, d - 1);
      if i in Lineage(parents, p, d - 1) {
        var e: nat :| e <= d - 1 && AtDepth(parents, i, e);
        DepthUnique(parents, i, d, e);
        assert false;
      }
      forall j | j in Lineage(parents, i, d)
        ensures j < |parents| && Within(parents, j, d)
      {
        assert j != i ==> Within(parents, j, d - 1);
      }
    }
  }

  // Cycles are never entered from a root: depth stays below the number of spans.
  lemma {:induction false} DepthBounded(parents: Parents, i: nat, d: nat)
    requires Closed(parents) && AtDepth(parents, i, d)
    ensures d < |parents|
  {
    LineageSize(parents, i, d);
    Bounded(|parents|, Lineage(parents, i, d));
  }

  // --- Preorder traversal of the spans below a root ---

  ghost predicate AllAtDepth(parents: Parents, level: seq<nat>, d: nat)
    requires Closed(parents)
  {
    forall i :: i in level ==> AtDepth(parents, i, d)
  }

  lemma {:induction false} KidsDeeper(parents: Parents, i: nat, d: nat)
    requires Closed(parents) && AtDepth(parents, i, d)
    ensures AllAtDepth(parents, Kids(parents, i, |parents|), d + 1) && Distinct(Kids(parents, i, |parents|))
  {
    KidsMembers(parents, i, |parents|);
  }

  // A span and everything below it. The depth argument only bounds the recursion.
  ghost function Preorder(parents: Parents, i: nat, d: nat): seq<nat>
    requires Closed(parents) && AtDepth(parents, i, d)
    decreases |parents| - d, 0
  {
    DepthBounded(parents, i, d);
    KidsDeeper(parents, i, d);
    [i] + PreorderAll(parents, Kids(parents, i, |parents|), d + 1)
  }

  ghost function PreorderAll(parents: Parents, level: seq<nat>, d: nat): seq<nat>
    requires Closed(parents) && AllAtDepth(parents, level, d)
    decreases |parents| - d, |level|
  {
    if level == [] then []
    else
      DepthBounded(parents, level[0], d);
      Preorder(parents, level[0], d) + PreorderAll(parents, level[1..], d)
  }

  // The parent of the m-th span visited was visited before it.
  ghost predicate ParentBefore(parents: Parents, visits: seq<nat>, m: nat)
    requires m < |visits|
  {
    exists n :: 0 <= n < m && visits[m] < |parents| && parents[visits[m]] == Some(visits[n])
  }

  lemma {:induction false} ParentBeforeShift(parents: Parents, front: seq<nat>, visits: seq<nat>, m: nat)
    requires m < |visits| && ParentBefore(parents, visits, m)
    ensures ParentBefore(parents, front + visits, |front| + m)
  {
    var n :| 0 <= n < m && visits[m] < |parents| && parents[visits[m]] == Some(visits[n]);
    assert (front + visits)[|front| + n] == visits[n];
  }

  lemma {:induction false} ParentBeforeMore(parents: Parents, visits: seq<nat>, more: seq<nat>, m: nat)
    requires m < |visits| && ParentBefore(parents, visits, m)
    ensures ParentBefore(parents, visits + more, m)
  {
    var n :| 0 <= n < m && visits[m] < |parents| && parents[visits[m]] == Some(visits[n]);
    assert (visits + more)[n] == visits[n];
  }

  // A pass starts at its span and visits every other one after its parent.
  lemma {:induction false} PreorderFromTop(parents: Parents, i: nat, d: nat, m: nat)
    requires Closed(parents) && AtDepth(parents, i, d) && m < |Preorder(parents, i, d)|
    ensures if m == 0 then Preorder(parents, i, d)[0] == i else ParentBefore(parents, Preorder(parents, i, d), m)
    decreases |parents| - d, 0
  {
    DepthBounded(parents, i, d);
    KidsDeeper(parents, i, d);
    if m > 0 {
      var kids := Kids(parents, i, |parents|);
      var rest := PreorderAll(parents, kids, d + 1);
      LevelFromTop(parents, kids, d + 1, m - 1);
      if rest[m - 1] in kids {
        KidsMembers(parents, i, |parents|);
        assert ([i] + rest)[0] == i;
      } else {
        ParentBeforeShift(parents, [i], rest, m - 1);
      }
    }
  }

  lemma {:induction false} LevelFromTop(parents: Parents, level: seq<nat>, d: nat, m: nat)
    requires Closed(parents) && AllAtDepth(parents, level, d) && m < |PreorderAll(parents, level, d)|
    ensures PreorderAll(parents, level, d)[m] in level || ParentBefore(parents, PreorderAll(parents, level, d), m)
    decreases |parents| - d, |level|
  {
    DepthBounded(parents, level[0], d);
    var first, rest := Preorder(parents, level[0], d), PreorderAll(parents, level[1..], d);
    if m < |first| {
      PreorderFromTop(parents, level[0], d, m);
      if m > 0 { ParentBeforeMore(parents, first, rest, m); }
    } else {
      LevelFromTop(parents, level[1..], d, m - |first|);
      if rest[m - |first|] !in level[1..] { ParentBeforeShift(parents, first, rest, m - |first|); }
    }
  }

  // Whether span j lies on or below a member of `level`, which sits at depth d.
  ghost predicate Below(parents: Parents, level: seq<nat>, d: nat, j: nat)
    requires Closed(parents)
  {
    exists e: nat, k: nat :: e == d + k && AtDepth(parents, j, e) && Up(parents, j, e, k) in level
  }

  lemma {:induction false} UpTwice(parents: Parents, j: nat, e: nat, k: nat)
    requires Closed(parents) && k < e && AtDepth(parents, j, e)
    ensures parents[Up(parents, j, e, k)] == Some(Up(parents, j, e, k + 1))
    decreases k
  {
    if k > 0 { UpTwice(parents, parents[j].value, e - 1, k - 1); }
  }

  lemma {:induction false} BelowUnique(parents: Parents, level: seq<nat>, d: nat, j: nat, e: nat)
    requires Closed(parents) && AtDepth(parents, j, e)
    ensures Below(parents, level, d, j) <==> d <= e && Up(parents, j, e, e - d) in level
  {
    if Below(parents, level, d, j) {
      var e': nat, k: nat :| e' == d + k && AtDepth(parents, j, e') && Up(parents, j, e', k) in level;
      DepthUnique(parents, j, e, e');
    }
  }

  lemma {:induction false} BelowSelf(parents: Parents, i: nat, d: nat)
    requires Closed(parents) && AtDepth(parents, i, d)
    ensures Below(parents, [i], d, i) && !Below(parents, Kids(parents, i, |parents|), d + 1, i)
  {
    assert d == d + 0 && Up(parents, i, d, 0) in [i];
    NotBelowDeeper(parents, Kids(parents, i, |parents|), d + 1, i, d);
  }

  lemma {:induction false} NotBelowDeeper(parents: Parents, level: seq<nat>, d: nat, j: nat, e: nat)
    requires Closed(parents) && AtDepth(parents, j, e) && e < d
    ensures !Below(parents, level, d, j)
  {
    BelowUnique(parents, level, d, j, e);
  }

  lemma {:induction false} BelowOther(parents: Parents, i: nat, d: nat, j: nat, e: nat)
    requires Closed(parents) && AtDepth(parents, i, d) && AtDepth(parents, j, e) && j != i
    ensures Below(parents, [i], d, j) <==> Below(parents, Kids(parents, i, |parents|), d + 1, j)
  {
    BelowUnique(parents, [i], d, j, e);
    BelowUnique(parents, Kids(parents, i, |parents|), d + 1, j, e);
    KidsMembers(parents, i, |parents|);
    if e > d { UpTwice(parents, j, e, e - d - 1); }
  }

  // Below a span: the span itself, or below one of its children.
  lemma {:induction false} BelowSplit(parents: Parents, i: nat, d: nat, j: nat)
    requires Closed(parents) && AtDepth(parents, i, d)
    ensures Below(parents, [i], d, j) <==> j == i || Below(parents, Kids(parents, i, |parents|), d + 1, j)
  {
    if j == i {
      BelowSelf(parents, i, d);
    } else if exists e: nat :: AtDepth(parents, j, e) {
      var e: nat :| AtDepth(parents, j, e);
      BelowOther(parents, i, d, j, e);
    }
  }

  lemma {:induction false} BelowHead(parents: Parents, level: seq<nat>, d: nat, j: nat)
    requires Closed(parents) && level != [] && Distinct(level)
    ensures Below(parents, level, d, j) <==> Below(parents, [level[0]], d, j) || Below(parents, level[1..], d, j)
    ensures !(Below(parents, [level[0]], d, j) && Below(parents, level[1..], d, j))
  {
    if exists e: nat :: AtDepth(parents, j, e) {
      var e: nat :| AtDepth(parents, j, e);
      BelowUnique(parents, level, d, j, e);
      BelowUnique(parents, [level[0]], d, j, e);
      BelowUnique(parents, level[1..], d, j, e);
    }
  }

  // Each span below the level is visited exactly once, and no other span is visited.
  lemma {:induction false} PreorderOnce(parents: Parents, i: nat, d: nat, j: nat)
    requires Closed(parents) && AtDepth(parents, i, d)
    ensures multiset(Preorder(parents, i, d))[j] == if Below(parents, [i], d, j) then 1 else 0
    decreases |parents| - d, 0
  {
    var kids := Kids(parents, i, |parents|);
    DepthBounded(parents, i, d);
    KidsDeeper(parents, i, d);
    PreorderAllOnce(parents, kids, d + 1, j);
    BelowSplit(parents, i, d, j);
    BelowSelf(parents, i, d);
    assert multiset(Preorder(parents, i, d)) == multiset{i} + multiset(PreorderAll(parents, kids, d + 1));
  }

  lemma {:induction false} PreorderAllOnce(parents: Parents, level: seq<nat>, d: nat, j: nat)
    requires Closed(parents) && AllAtDepth(parents, level, d) && Distinct(level)
    ensures multiset(PreorderAll(parents, level, d))[j] == if Below(parents, level, d, j) then 1 else 0
    decreases |parents| - d, |level|
  {
    if level != [] {
      PreorderOnce(parents, level[0], d, j);
      PreorderAllOnce(parents, level[1..], d, j);
      BelowHead(parents, level, d, j);
    }
  }
}
