// The recursive passes over the span tree: end-time adjustment, line numbers, gathering.
module SpanPasses {
  import opened Basics
  import opened SpanTree

  ghost predicate Linked(parents: Parents, child: seq<seq<nat>>) {
    && Closed(parents) && |child| == |parents|
    && forall p :: 0 <= p < |child| ==> child[p] == Kids(parents, p, |parents|)
  }

  lemma {:induction false} PreorderAllSnoc(parents: Parents, level: seq<nat>, d: nat, k: nat)
    requires Closed(parents) && AllAtDepth(parents, level, d) && k < |level|
    ensures PreorderAll(parents, level[..k + 1], d) == PreorderAll(parents, level[..k], d) + Preorder(parents, level[k], d)
    decreases k
  {
    if k == 0 {
      assert level[..1] == [level[0]] && level[..0] == [];
      assert [level[0]][1..] == [];
    } else {
      PreorderAllSnoc(parents, level[1..], d, k - 1);
      assert level[..k + 1][1..] == level[1..][..k];
      assert level[..k][1..] == level[1..][..k - 1];
    }
  }

  lemma {:induction false} PreorderUnfold(parents: Parents, i: nat, d: nat)
    requires Closed(parents) && AtDepth(parents, i, d)
    ensures AllAtDepth(parents, Kids(parents, i, |parents|), d + 1)
    ensures Preorder(parents, i, d) == [i] + PreorderAll(parents, Kids(parents, i, |parents|), d + 1)
    ensures d < |parents|
  {
    DepthBounded(parents, i, d);
    KidsDeeper(parents, i, d);
  }

  // Visits of span j in a traversal.
  ghost function Visits(order: seq<nat>, j: nat): nat {
    multiset(order)[j]
  }

  // Each visit takes 1000 ns off the end time, in place, and stamps the process number.
  method ConvertToPerfettoSpan(child: seq<seq<nat>>, end: array<int>, pid: array<int>, i: nat, number: int,
                               ghost parents: Parents, ghost d: nat)
    requires Linked(parents, child) && AtDepth(parents, i, d) && end.Length == pid.Length == |parents| && end != pid
    modifies end, pid
    ensures forall j :: 0 <= j < end.Length ==> end[j] == old(end[j]) - 1000 * Visits(Preorder(parents, i, d), j)
    ensures forall j :: 0 <= j < pid.Length ==> pid[j] == if j in Preorder(parents, i, d) then number else old(pid[j])
    decreases |parents| - d, 0
  {
    PreorderUnfold(parents, i, d);
    pid[i] := number;
    end[i] := end[i] - 1000;
    ConvertAll(child, end, pid, child[i], number, parents, d + 1);
  }

  method ConvertAll(child: seq<seq<nat>>, end: array<int>, pid: array<int>, level: seq<nat>, number: int,
                    ghost parents: Parents, ghost d: nat)
    requires Linked(parents, child) && AllAtDepth(parents, level, d) && end.Length == pid.Length == |parents| && end != pid
    modifies end, pid
    ensures forall j :: 0 <= j < end.Length ==> end[j] == old(end[j]) - 1000 * Visits(PreorderAll(parents, level, d), j)
    ensures forall j :: 0 <= j < pid.Length ==> pid[j] == if j in PreorderAll(parents, level, d) then number else old(pid[j])
    decreases |parents| - d, 1
  {
    for k := 0 to |level|
      invariant forall j :: 0 <= j < end.Length ==>
        end[j] == old(end[j]) - 1000 * Visits(PreorderAll(parents, level[..k], d), j)
      invariant forall j :: 0 <= j < pid.Length ==>
        pid[j] == if j in PreorderAll(parents, level[..k], d) then number else old(pid[j])
    {
      PreorderAllSnoc(parents, level, d, k);
      ConvertToPerfettoSpan(child, end, pid, level[k], number, parents, d);
    }
    assert level[..|level|] == level;
  }

  method SetSpanTid(child: seq<seq<nat>>, tid: array<nat>, i: nat, line: nat, ghost parents: Parents, ghost d: nat)
    requires Linked(parents, child) && AtDepth(parents, i, d) && tid.Length == |parents|
    modifies tid
    ensures forall j :: 0 <= j < tid.Length ==> tid[j] == if j in Preorder(parents, i, d) then line else old(tid[j])
    decreases |parents| - d, 0
  {
    PreorderUnfold(parents, i, d);
    tid[i] := line;
    SetAll(child, tid, child[i], line, parents, d + 1);
  }

  method SetAll(child: seq<seq<nat>>, tid: array<nat>, level: seq<nat>, line: nat, ghost parents: Parents, ghost d: nat)
    requires Linked(parents, child) && AllAtDepth(parents, level, d) && tid.Length == |parents|
    modifies tid
    ensures forall j :: 0 <= j < tid.Length ==> tid[j] == if j in PreorderAll(parents, level, d) then line else old(tid[j])
    decreases |parents| - d, 1
  {
    for k := 0 to |level|
      invariant forall j :: 0 <= j < tid.Length ==>
        tid[j] == if j in PreorderAll(parents, level[..k], d) then line else old(tid[j])
    {
      PreorderAllSnoc(parents, level, d, k);
      SetSpanTid(child, tid, level[k], line, parents, d);
    }
    assert level[..|level|] == level;
  }

  // The gathered events of a span and everything below it, by span.
  method GatherOneSpan(child: seq<seq<nat>>, i: nat, ghost parents: Parents, ghost d: nat) returns (elems: seq<nat>)
    requires Linked(parents, child) && AtDepth(parents, i, d)
    ensures elems == Preorder(parents, i, d)
    decreases |parents| - d, 0
  {
    PreorderUnfold(parents, i, d);
    var below := GatherAll(child, child[i], parents, d + 1);
    elems := [i] + below;
  }

  method GatherAll(child: seq<seq<nat>>, level: seq<nat>, ghost parents: Parents, ghost d: nat) returns (elems: seq<nat>)
    requires Linked(parents, child) && AllAtDepth(parents, level, d)
    ensures elems == PreorderAll(parents, level, d)
    decreases |parents| - d, 1
  {
    elems := [];
    for k := 0 to |level|
      invariant elems == PreorderAll(parents, level[..k], d)
    {
      PreorderAllSnoc(parents, level, d, k);
      var one := GatherOneSpan(child, level[k], parents, d);
      elems := elems + one;
    }
    assert level[..|level|] == level;
  }

  // --- Which spans the passes reach ---

  ghost function KidsAll(parents: Parents, level: seq<nat>): seq<nat> {
    if level == [] then []
    else KidsAll(parents, level[..|level| - 1]) + Kids(parents, level[|level| - 1], |parents|)
  }

  lemma {:induction false} KidsAllMembers(parents: Parents, level: seq<nat>)
    ensures forall j: nat :: j in KidsAll(parents, level) <==>
      j < |parents| && parents[j].Some? && parents[j].value in level
  {
    if level != [] {
      KidsAllMembers(parents, level[..|level| - 1]);
      KidsMembers(parents, level[|level| - 1], |parents|);
    }
  }

  lemma {:induction false} KidsAllDistinct(parents: Parents, level: seq<nat>)
    requires Distinct(level)
    ensures Distinct(KidsAll(parents, level))
  {
    if level != [] {
      var init, last := level[..|level| - 1], level[|level| - 1];
      KidsAllDistinct(parents, init);
      KidsAllMembers(parents, init);
      KidsMembers(parents, last, |parents|);
      var a, b := KidsAll(parents, init), Kids(parents, last, |parents|);
      forall i, j | 0 <= i < |a| && 0 <= j < |b| ensures a[i] != b[j] {
        assert a[i] in a && b[j] in b;
      }
    }
  }

  lemma {:induction false} KidsAllDepth(parents: Parents, level: seq<nat>, d: nat)
    requires Closed(parents) && AllAtDepth(parents, level, d)
    ensures AllAtDepth(parents, KidsAll(parents, level), d + 1)
  {
    KidsAllMembers(parents, level);
  }

  // Below the children of a level: below the level, and not in it.
  lemma {:induction false} BelowKids(parents: Parents, level: seq<nat>, d: nat, j: nat, e: nat)
    requires Closed(parents) && AllAtDepth(parents, level, d) && AtDepth(parents, j, e)
    ensures Below(parents, KidsAll(parents, level), d + 1, j) <==> Below(parents, level, d, j) && e > d
  {
    BelowUnique(parents, level, d, j, e);
    BelowUnique(parents, KidsAll(parents, level), d + 1, j, e);
    KidsAllMembers(parents, level);
    if e > d { UpTwice(parents, j, e, e - d - 1); }
  }

  // The spans drawn: at least two levels below a request root.
  ghost predicate Drawn(spans: seq<OtelSpan>, j: nat) {
    exists e: nat :: e >= 2 && AtDepth(ParentsOf(spans), j, e) && spans[Up(ParentsOf(spans), j, e, e)].isRequest
  }

  ghost function TopLevel(spans: seq<OtelSpan>): seq<nat> {
    KidsAll(ParentsOf(spans), KidsAll(ParentsOf(spans), Requests(spans, |spans|)))
  }

  lemma {:induction false} TopLevelShape(spans: seq<OtelSpan>)
    ensures AllAtDepth(ParentsOf(spans), TopLevel(spans), 2) && Distinct(TopLevel(spans))
  {
    var parents, roots := ParentsOf(spans), Requests(spans, |spans|);
    RequestsMembers(spans, |spans|);
    KidsAllDepth(parents, roots, 0);
    KidsAllDepth(parents, KidsAll(parents, roots), 1);
    KidsAllDistinct(parents, roots);
    KidsAllDistinct(parents, KidsAll(parents, roots));
  }

  lemma {:induction false} DrawnIsBelow(spans: seq<OtelSpan>, j: nat)
    ensures Below(ParentsOf(spans), TopLevel(spans), 2, j) <==> Drawn(spans, j)
  {
    var parents, roots := ParentsOf(spans), Requests(spans, |spans|);
    RequestsMembers(spans, |spans|);
    if exists e: nat :: AtDepth(parents, j, e) {
      var e: nat :| AtDepth(parents, j, e);
      KidsAllDepth(parents, roots, 0);
      BelowKids(parents, roots, 0, j, e);
      BelowKids(parents, KidsAll(parents, roots), 1, j, e);
      BelowUnique(parents, roots, 0, j, e);
      forall e': nat | AtDepth(parents, j, e') ensures e' == e { DepthUnique(parents, j, e, e'); }
    }
  }

  // However tangled the parent ids, gathering from the request roots yields one event
  // for each drawn span and none for any other.
  lemma {:induction false} GatheredOnce(spans: seq<OtelSpan>, j: nat)
    ensures AllAtDepth(ParentsOf(spans), TopLevel(spans), 2)
    ensures Visits(PreorderAll(ParentsOf(spans), TopLevel(spans), 2), j) == if Drawn(spans, j) then 1 else 0
  {
    TopLevelShape(spans);
    PreorderAllOnce(ParentsOf(spans), TopLevel(spans), 2, j);
    DrawnIsBelow(spans, j);
  }
}
