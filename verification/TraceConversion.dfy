// The converter from end to end: build the tree, convert, lay out, stamp lines, gather.
module TraceConversion {
  import opened Basics
  import opened SpanLine
  import opened SpanLayout
  import opened LayoutRun
  import opened SpanTree
  import opened SpanPasses

  // Span t sits directly under a thread span, and j is t or lies below it.
  ghost predicate HasTop(parents: Parents, j: nat, t: nat)
    requires Closed(parents)
  {
    Below(parents, [t], 2, j)
  }

  lemma {:induction false} TopUnique(parents: Parents, j: nat, t: nat, u: nat)
    requires Closed(parents) && HasTop(parents, j, t) && HasTop(parents, j, u)
    ensures t == u
  {
    var e: nat, k: nat :| e == 2 + k && AtDepth(parents, j, e) && Up(parents, j, e, k) in [t];
    BelowUnique(parents, [t], 2, j, e);
    BelowUnique(parents, [u], 2, j, e);
  }

  lemma {:induction false} TopOfLevel(parents: Parents, level: seq<nat>, j: nat)
    requires Closed(parents)
    ensures Below(parents, level, 2, j) <==> exists t :: t in level && HasTop(parents, j, t)
  {
    if exists e: nat :: AtDepth(parents, j, e) {
      var e: nat :| AtDepth(parents, j, e);
      BelowUnique(parents, level, 2, j, e);
      forall t ensures HasTop(parents, j, t) <==> 2 <= e && Up(parents, j, e, e - 2) == t {
        BelowUnique(parents, [t], 2, j, e);
      }
    }
  }

  lemma {:induction false} VisitedIffTop(parents: Parents, level: seq<nat>, j: nat)
    requires Closed(parents) && AllAtDepth(parents, level, 2) && Distinct(level)
    ensures j in PreorderAll(parents, level, 2) <==> exists t :: t in level && HasTop(parents, j, t)
  {
    PreorderAllOnce(parents, level, 2, j);
    TopOfLevel(parents, level, j);
  }

  lemma {:induction false} PreorderAllConcat(parents: Parents, a: seq<nat>, b: seq<nat>, d: nat)
    requires Closed(parents) && AllAtDepth(parents, a, d) && AllAtDepth(parents, b, d)
    ensures PreorderAll(parents, a + b, d) == PreorderAll(parents, a, d) + PreorderAll(parents, b, d)
  {
    if a == [] {
      assert a + b == b;
    } else {
      PreorderAllConcat(parents, a[1..], b, d);
      assert (a + b)[1..] == a[1..] + b;
    }
  }

  // The process number a top-level span takes from its thread span.
  function ThreadPid(spans: seq<OtelSpan>, t: nat): int {
    if t < |spans| && ParentOf(spans, t).Some? then spans[ParentOf(spans, t).value].pid else 0
  }

  // What the conversion pass has done once the given thread spans are finished.
  ghost predicate Converted(spans: seq<OtelSpan>, threads: seq<nat>, end: seq<int>, pid: seq<int>)
    requires |end| == |pid| == |spans|
  {
    var parents := ParentsOf(spans);
    && AllAtDepth(parents, threads, 1) && Distinct(threads)
    && AllAtDepth(parents, KidsAll(parents, threads), 2)
    && (forall j :: 0 <= j < |spans| ==>
          end[j] == spans[j].end - 1000 * Visits(PreorderAll(parents, KidsAll(parents, threads), 2), j))
    && (forall t, j :: t in KidsAll(parents, threads) && 0 <= j < |spans| && HasTop(parents, j, t) ==>
          pid[j] == ThreadPid(spans, t))
  }

  lemma {:induction false} PidsNext(spans: seq<OtelSpan>, done: seq<nat>, thread: nat, pid: seq<int>, pid': seq<int>)
    requires |pid| == |pid'| == |spans| && AtDepth(ParentsOf(spans), thread, 1)
    requires AllAtDepth(ParentsOf(spans), Kids(ParentsOf(spans), thread, |spans|), 2)
    requires forall t, j ::
      t in KidsAll(ParentsOf(spans), done) && 0 <= j < |spans| && HasTop(ParentsOf(spans), j, t) ==>
        pid[j] == ThreadPid(spans, t)
    requires forall j :: 0 <= j < |spans| ==>
      pid'[j] == if j in PreorderAll(ParentsOf(spans), Kids(ParentsOf(spans), thread, |spans|), 2)
                 then spans[thread].pid else pid[j]
    ensures forall t, j ::
      t in KidsAll(ParentsOf(spans), done + [thread]) && 0 <= j < |spans| && HasTop(ParentsOf(spans), j, t) ==>
        pid'[j] == ThreadPid(spans, t)
  {
    var parents := ParentsOf(spans);
    var level := Kids(parents, thread, |spans|);
    KidsMembers(parents, thread, |spans|);
    assert (done + [thread])[..|done|] == done;
    forall t, j | t in KidsAll(parents, done + [thread]) && 0 <= j < |spans| && HasTop(parents, j, t)
      ensures pid'[j] == ThreadPid(spans, t)
    {
      VisitedIffTop(parents, level, j);
      if j in PreorderAll(parents, level, 2) {
        var u :| u in level && HasTop(parents, j, u);
        TopUnique(parents, j, t, u);
      }
    }
  }

  lemma {:induction false} ConvertedNext(spans: seq<OtelSpan>, done: seq<nat>, thread: nat,
                      end: seq<int>, pid: seq<int>, end': seq<int>, pid': seq<int>)
    requires |end| == |pid| == |end'| == |pid'| == |spans|
    requires Converted(spans, done, end, pid)
    requires AtDepth(ParentsOf(spans), thread, 1) && thread !in done
    requires AllAtDepth(ParentsOf(spans), Kids(ParentsOf(spans), thread, |spans|), 2)
    requires forall j :: 0 <= j < |spans| ==>
      end'[j] == end[j] - 1000 * Visits(PreorderAll(ParentsOf(spans), Kids(ParentsOf(spans), thread, |spans|), 2), j)
    requires forall j :: 0 <= j < |spans| ==>
      pid'[j] == if j in PreorderAll(ParentsOf(spans), Kids(ParentsOf(spans), thread, |spans|), 2)
                 then spans[thread].pid else pid[j]
    ensures Converted(spans, done + [thread], end', pid')
  {
    var parents := ParentsOf(spans);
    PidsNext(spans, done, thread, pid, pid');
    assert (done + [thread])[..|done|] == done;
    KidsAllDepth(parents, done + [thread], 1);
    PreorderAllConcat(parents, KidsAll(parents, done), Kids(parents, thread, |spans|), 2);
  }

  method ConvertThread(spans: seq<OtelSpan>, child: seq<seq<nat>>, end: array<int>, pid: array<int>, thread: nat,
                       ghost done: seq<nat>)
    requires Linked(ParentsOf(spans), child) && end.Length == pid.Length == |spans| && end != pid
    requires Converted(spans, done, end[..], pid[..])
    requires AtDepth(ParentsOf(spans), thread, 1) && thread !in done
    modifies end, pid
    ensures Converted(spans, done + [thread], end[..], pid[..])
  {
    KidsDeeper(ParentsOf(spans), thread, 1);
    ConvertAll(child, end, pid, child[thread], spans[thread].pid, ParentsOf(spans), 2);
    ConvertedNext(spans, done, thread, old(end[..]), old(pid[..]), end[..], pid[..]);
  }

  // The thread spans met before thread k of request i.
  ghost function ThreadsBefore(parents: Parents, roots: seq<nat>, i: nat, k: nat): seq<nat>
    requires i < |roots| && k <= |Kids(parents, roots[i], |parents|)|
  {
    KidsAll(parents, roots[..i]) + Kids(parents, roots[i], |parents|)[..k]
  }

  lemma {:induction false} ThreadsGrow(parents: Parents, roots: seq<nat>, i: nat, k: nat)
    requires i < |roots| && k < |Kids(parents, roots[i], |parents|)|
    ensures var kids := Kids(parents, roots[i], |parents|);
      ThreadsBefore(parents, roots, i, k + 1) == ThreadsBefore(parents, roots, i, k) + [kids[k]]
  {
    var kids := Kids(parents, roots[i], |parents|);
    assert kids[..k + 1] == kids[..k] + [kids[k]];
  }

  // Threads of different requests differ, and so do those of one request.
  lemma {:induction false} ThreadIsNew(parents: Parents, roots: seq<nat>, i: nat, k: nat)
    requires Distinct(roots) && i < |roots| && k < |Kids(parents, roots[i], |parents|)|
    ensures Kids(parents, roots[i], |parents|)[k] !in ThreadsBefore(parents, roots, i, k)
  {
    var kids := Kids(parents, roots[i], |parents|);
    KidsMembers(parents, roots[i], |parents|);
    KidsAllMembers(parents, roots[..i]);
    assert kids[k] in kids;
  }

  lemma {:induction false} NextThread(spans: seq<OtelSpan>, i: nat, k: nat)
    requires var roots := Requests(spans, |spans|);
      i < |roots| && k < |Kids(ParentsOf(spans), roots[i], |spans|)|
    ensures var parents, roots := ParentsOf(spans), Requests(spans, |spans|);
      var kids := Kids(parents, roots[i], |spans|);
      && AtDepth(parents, kids[k], 1)
      && kids[k] !in ThreadsBefore(parents, roots, i, k)
      && ThreadsBefore(parents, roots, i, k + 1) == ThreadsBefore(parents, roots, i, k) + [kids[k]]
  {
    var parents, roots := ParentsOf(spans), Requests(spans, |spans|);
    var kids := Kids(parents, roots[i], |spans|);
    KidsMembers(parents, roots[i], |spans|);
    RequestsMembers(spans, |spans|);
    assert kids[k] in kids && roots[i] in roots;
    assert AtDepth(parents, roots[i], 0);
    ThreadIsNew(parents, roots, i, k);
    ThreadsGrow(parents, roots, i, k);
  }

  method ConvertNextThread(spans: seq<OtelSpan>, child: seq<seq<nat>>, end: array<int>, pid: array<int>,
                           threads: seq<nat>, ghost roots: seq<nat>, ghost i: nat, k: nat)
    requires Linked(ParentsOf(spans), child) && end.Length == pid.Length == |spans| && end != pid
    requires roots == Requests(spans, |spans|) && i < |roots|
    requires threads == Kids(ParentsOf(spans), roots[i], |spans|) && k < |threads|
    requires ConvertedUpTo(spans, roots, i, k, end[..], pid[..])
    modifies end, pid
    ensures ConvertedUpTo(spans, roots, i, k + 1, end[..], pid[..])
  {
    NextThread(spans, i, k);
    ConvertThread(spans, child, end, pid, threads[k], ThreadsBefore(ParentsOf(spans), roots, i, k));
  }

  lemma {:induction false} ThreadsAround(parents: Parents, roots: seq<nat>, i: nat)
    requires i < |roots|
    ensures ThreadsBefore(parents, roots, i, 0) == KidsAll(parents, roots[..i])
    ensures ThreadsBefore(parents, roots, i, |Kids(parents, roots[i], |parents|)|) == KidsAll(parents, roots[..i + 1])
  {
    assert roots[..i + 1][..i] == roots[..i];
    var kids := Kids(parents, roots[i], |parents|);
    assert kids[..|kids|] == kids;
  }

  // The pass has finished the requests before request i, and the first k threads of request i.
  ghost predicate ConvertedUpTo(spans: seq<OtelSpan>, roots: seq<nat>, i: nat, k: nat, end: seq<int>, pid: seq<int>)
    requires |end| == |pid| == |spans| && i < |roots| && k <= |Kids(ParentsOf(spans), roots[i], |spans|)|
  {
    Converted(spans, ThreadsBefore(ParentsOf(spans), roots, i, k), end, pid)
  }

  method ConvertRequest(spans: seq<OtelSpan>, child: seq<seq<nat>>, end: array<int>, pid: array<int>,
                        threads: seq<nat>, ghost roots: seq<nat>, ghost i: nat)
    requires Linked(ParentsOf(spans), child) && end.Length == pid.Length == |spans| && end != pid
    requires roots == Requests(spans, |spans|) && i < |roots| && threads == Kids(ParentsOf(spans), roots[i], |spans|)
    requires ConvertedUpTo(spans, roots, i, 0, end[..], pid[..])
    modifies end, pid
    ensures ConvertedUpTo(spans, roots, i, |threads|, end[..], pid[..])
  {
    for k := 0 to |threads|
      invariant ConvertedUpTo(spans, roots, i, k, end[..], pid[..])
    {
      ConvertNextThread(spans, child, end, pid, threads, roots, i, k);
    }
  }

  // The spans of one request that the layout places: the children of its thread spans.
  method TopsOf(child: seq<seq<nat>>, root: nat, ghost parents: Parents) returns (tops: seq<nat>)
    requires Linked(parents, child) && root < |parents|
    ensures tops == KidsAll(parents, Kids(parents, root, |parents|))
  {
    tops := [];
    var threads := child[root];
    KidsMembers(parents, root, |parents|);
    for k := 0 to |threads|
      invariant tops == KidsAll(parents, threads[..k])
    {
      assert threads[k] in threads;
      assert threads[..k + 1][..k] == threads[..k];
      tops := tops + child[threads[k]];
    }
    assert threads[..|threads|] == threads;
  }

  lemma {:induction false} ConvertedNone(spans: seq<OtelSpan>, end: seq<int>, pid: seq<int>)
    requires |end| == |pid| == |spans| && forall j :: 0 <= j < |spans| ==> end[j] == spans[j].end
    ensures Converted(spans, [], end, pid)
  {
  }

  method ConvertRequests(spans: seq<OtelSpan>, child: seq<seq<nat>>, roots: seq<nat>, end: array<int>, pid: array<int>)
    requires Linked(ParentsOf(spans), child) && end.Length == pid.Length == |spans| && end != pid
    requires roots == Requests(spans, |spans|)
    requires Converted(spans, [], end[..], pid[..])
    modifies end, pid
    ensures Converted(spans, KidsAll(ParentsOf(spans), roots), end[..], pid[..])
  {
    RequestsMembers(spans, |spans|);
    for i := 0 to |roots|
      invariant Converted(spans, KidsAll(ParentsOf(spans), roots[..i]), end[..], pid[..])
    {
      assert roots[i] in roots;
      ThreadsAround(ParentsOf(spans), roots, i);
      ConvertRequest(spans, child, end, pid, child[roots[i]], roots, i);
    }
    assert roots[..|roots|] == roots;
  }

  // A gateway span, and whether its record carries a child list; a list it carries is empty.
  datatype GatewaySpan = GatewaySpan(span: OtelSpan, listed: bool)

  predicate SomeUnlisted(smg: seq<GatewaySpan>) {
    exists i :: 0 <= i < |smg| && !smg[i].listed
  }

  function Gateway(smg: seq<GatewaySpan>): seq<Span> {
    seq(|smg|, i requires 0 <= i < |smg| => Span(i, Smg, smg[i].span.start, smg[i].span.end - 1000))
  }

  // Each gateway span is converted; reading a child list that is not there raises KeyError.
  method ConvertGateway(smg: seq<GatewaySpan>) returns (gateway: Result<seq<Span>>)
    ensures gateway == if SomeUnlisted(smg) then Err("KeyError") else Ok(Gateway(smg))
  {
    var records := [];
    for i := 0 to |smg|
      invariant records == Gateway(smg)[..i] && forall k :: 0 <= k < i ==> smg[k].listed
    {
      if !smg[i].listed { return Err("KeyError"); }
      records := records + [Span(i, Smg, smg[i].span.start, smg[i].span.end - 1000)];
    }
    assert records == Gateway(smg);
    gateway := Ok(records);
  }

  method GeneratePerfettoSpan(spans: seq<OtelSpan>, child: seq<seq<nat>>, roots: seq<nat>, smg: seq<GatewaySpan>)
    returns (end: array<int>, pid: array<int>, gateway: Result<seq<Span>>)
    requires Linked(ParentsOf(spans), child) && roots == Requests(spans, |spans|)
    ensures fresh(end) && fresh(pid) && end.Length == pid.Length == |spans|
    ensures Converted(spans, KidsAll(ParentsOf(spans), roots), end[..], pid[..])
    ensures gateway == if SomeUnlisted(smg) then Err("KeyError") else Ok(Gateway(smg))
  {
    end := new int[|spans|](i requires 0 <= i < |spans| => spans[i].end);
    pid := new int[|spans|](_ => 0);
    ConvertedNone(spans, end[..], pid[..]);
    ConvertRequests(spans, child, roots, end, pid);
    gateway := ConvertGateway(smg);
  }

  // --- Values after the conversion pass ---

  // A top-level span as the layout sees it.
  function Adjusted(spans: seq<OtelSpan>, t: nat): Span
    requires t < |spans|
  {
    Span(t, Engine(ThreadPid(spans, t)), spans[t].start, spans[t].end - 1000)
  }

  lemma {:induction false} TopOfItself(parents: Parents, t: nat)
    requires Closed(parents) && AtDepth(parents, t, 2)
    ensures HasTop(parents, t, t)
  {
    BelowSelf(parents, t, 2);
  }

  // Every drawn span loses exactly 1000 ns and takes its thread's process number.
  lemma {:induction false} ConvertedValues(spans: seq<OtelSpan>, end: seq<int>, pid: seq<int>)
    requires |end| == |pid| == |spans|
    requires Converted(spans, KidsAll(ParentsOf(spans), Requests(spans, |spans|)), end, pid)
    ensures forall j: nat :: Drawn(spans, j) ==> j < |spans| && end[j] == spans[j].end - 1000
    ensures forall t, j: nat :: t in TopLevel(spans) && j < |spans| && HasTop(ParentsOf(spans), j, t) ==>
      pid[j] == ThreadPid(spans, t)
    ensures forall t :: t in TopLevel(spans) ==>
      t < |spans| && end[t] == spans[t].end - 1000 && pid[t] == ThreadPid(spans, t)
  {
    var parents := ParentsOf(spans);
    forall j: nat | Drawn(spans, j) ensures j < |spans| && end[j] == spans[j].end - 1000 {
      GatheredOnce(spans, j);
    }
    TopLevelShape(spans);
    forall t | t in TopLevel(spans)
      ensures t < |spans| && end[t] == spans[t].end - 1000 && pid[t] == ThreadPid(spans, t)
    {
      TopOfItself(parents, t);
      TopOfLevel(parents, TopLevel(spans), t);
      DrawnIsBelow(spans, t);
    }
  }

  // --- Layout records and their identities ---

  ghost predicate Known(spans: seq<OtelSpan>, ids: seq<nat>) {
    forall i :: 0 <= i < |ids| ==> ids[i] < |spans|
  }

  function AdjustedAll(spans: seq<OtelSpan>, ids: seq<nat>): (r: seq<Span>)
    requires Known(spans, ids)
    ensures |r| == |ids| && forall i :: 0 <= i < |ids| ==> r[i] == Adjusted(spans, ids[i])
  {
    seq(|ids|, i requires 0 <= i < |ids| => Adjusted(spans, ids[i]))
  }

  function IdsOf(records: seq<Span>): (ids: seq<nat>)
    ensures |ids| == |records| && forall i :: 0 <= i < |ids| ==> ids[i] == records[i].id
  {
    seq(|records|, i requires 0 <= i < |records| => records[i].id)
  }

  lemma {:induction false} AdjustedDistinct(spans: seq<OtelSpan>, ids: seq<nat>)
    requires Distinct(ids) && Known(spans, ids)
    ensures forall x :: multiset(AdjustedAll(spans, ids))[x] <= 1
  {
    if ids != [] {
      var init := ids[..|ids| - 1];
      AdjustedDistinct(spans, init);
      var all, last := AdjustedAll(spans, ids), Adjusted(spans, ids[|ids| - 1]);
      assert all == AdjustedAll(spans, init) + [last];
      assert last !in AdjustedAll(spans, init);
    }
  }

  lemma {:induction false} CountAtLeastTwo<T>(s: seq<T>, i: nat, j: nat)
    requires i < j < |s| && s[i] == s[j]
    ensures multiset(s)[s[i]] >= 2
  {
    assert s == s[..j] + [s[j]] + s[j + 1..];
    assert s[i] in s[..j];
  }

  // Records made of the top-level spans, in any order and among records of the gateway,
  // have distinct ids and miss none.
  lemma {:induction false} RecordIds(spans: seq<OtelSpan>, tops: seq<nat>, smg: seq<Span>, all: seq<Span>)
    requires Distinct(tops) && Known(spans, tops)
    requires forall s :: s in smg ==> s.pid == Smg
    requires multiset(all) == multiset(AdjustedAll(spans, tops)) + multiset(smg)
    ensures forall i :: 0 <= i < |all| && all[i].pid.Engine? ==>
      all[i].id in tops && all[i].id < |spans| && all[i] == Adjusted(spans, all[i].id)
    ensures forall i, j :: 0 <= i < j < |all| && all[i].pid.Engine? && all[j].pid.Engine? ==> all[i].id != all[j].id
    ensures forall t :: t in tops ==> exists i :: 0 <= i < |all| && all[i].pid.Engine? && all[i].id == t
  {
    var records := AdjustedAll(spans, tops);
    forall i | 0 <= i < |all| && all[i].pid.Engine?
      ensures all[i].id in tops && all[i].id < |spans| && all[i] == Adjusted(spans, all[i].id)
    {
      assert all[i] in multiset(all);
      assert all[i] in records;
    }
    AdjustedDistinct(spans, tops);
    forall i, j | 0 <= i < j < |all| && all[i].pid.Engine? && all[j].pid.Engine?
      ensures all[i].id != all[j].id
    {
      if all[i].id == all[j].id { CountAtLeastTwo(all, i, j); }
    }
    forall t | t in tops ensures exists i :: 0 <= i < |all| && all[i].pid.Engine? && all[i].id == t {
      var k :| 0 <= k < |tops| && tops[k] == t;
      assert records[k] in multiset(records) && records[k] in multiset(all);
      var i :| 0 <= i < |all| && all[i] == records[k];
    }
  }

  lemma {:induction false} InPreorder(parents: Parents, t: nat, j: nat)
    requires Closed(parents) && AtDepth(parents, t, 2)
    ensures j in Preorder(parents, t, 2) <==> HasTop(parents, j, t)
  {
    PreorderOnce(parents, t, 2, j);
  }

  // Every span below a placed span carries the line of that span.
  ghost predicate Stamped(parents: Parents, log: seq<Placement>, tid: seq<nat>)
    requires Closed(parents) && |tid| == |parents|
  {
    forall i, j :: 0 <= i < |log| && log[i].span.pid.Engine? && 0 <= j < |tid|
                   && HasTop(parents, j, log[i].span.id) ==>
      tid[j] == log[i].line
  }

  ghost predicate OnTops(parents: Parents, log: seq<Placement>)
    requires Closed(parents)
  {
    && (forall i :: 0 <= i < |log| && log[i].span.pid.Engine? ==> AtDepth(parents, log[i].span.id, 2))
    && (forall i, j :: 0 <= i < j < |log| && log[i].span.pid.Engine? && log[j].span.pid.Engine? ==>
          log[i].span.id != log[j].span.id)
  }

  lemma {:induction false} StampedNext(parents: Parents, log: seq<Placement>, k: nat, tid: seq<nat>, tid': seq<nat>)
    requires Closed(parents) && |tid| == |tid'| == |parents| && OnTops(parents, log) && k < |log|
    requires Stamped(parents, log[..k], tid)
    requires forall j :: 0 <= j < |tid| ==>
      tid'[j] == if log[k].span.pid.Engine? && HasTop(parents, j, log[k].span.id) then log[k].line else tid[j]
    ensures Stamped(parents, log[..k + 1], tid')
  {
    forall i, j | 0 <= i < k + 1 && log[i].span.pid.Engine? && 0 <= j < |tid| && HasTop(parents, j, log[i].span.id)
      ensures tid'[j] == log[i].line
    {
      if i < k {
        assert log[..k][i] == log[i];
        if log[k].span.pid.Engine? && HasTop(parents, j, log[k].span.id) {
          TopUnique(parents, j, log[i].span.id, log[k].span.id);
        }
      }
    }
  }

  method StampLines(child: seq<seq<nat>>, log: seq<Placement>, tid: array<nat>, ghost parents: Parents)
    requires Linked(parents, child) && tid.Length == |parents| && OnTops(parents, log)
    modifies tid
    ensures Stamped(parents, log, tid[..])
  {
    for k := 0 to |log|
      invariant Stamped(parents, log[..k], tid[..])
    {
      ghost var before := tid[..];
      if log[k].span.pid.Engine? {
        SetSpanTid(child, tid, log[k].span.id, log[k].line, parents, 2);
        forall j: nat { InPreorder(parents, log[k].span.id, j); }
      }
      StampedNext(parents, log, k, before, tid[..]);
    }
    assert log[..|log|] == log;
  }

  // --- From requests to layout records ---

  lemma {:induction false} KidsAllSnoc(parents: Parents, level: seq<nat>, last: nat)
    ensures KidsAll(parents, level + [last]) == KidsAll(parents, level) + Kids(parents, last, |parents|)
  {
    assert (level + [last])[..|level|] == level;
  }

  lemma {:induction false} KidsAllGrows(parents: Parents, a: seq<nat>, b: seq<nat>, last: nat, grown: seq<nat>)
    requires KidsAll(parents, a + b) == KidsAll(parents, a) + KidsAll(parents, b) && grown == a + b + [last]
    ensures KidsAll(parents, grown) == KidsAll(parents, a) + KidsAll(parents, b + [last])
  {
    KidsAllSnoc(parents, a + b, last);
    KidsAllSnoc(parents, b, last);
    Regroup(KidsAll(parents, grown), KidsAll(parents, a), KidsAll(parents, b), KidsAll(parents, b + [last]),
            Kids(parents, last, |parents|));
  }

  lemma {:induction false} KidsAllConcat(parents: Parents, a: seq<nat>, b: seq<nat>)
    ensures KidsAll(parents, a + b) == KidsAll(parents, a) + KidsAll(parents, b)
  {
    if b == [] {
      assert a + b == a;
    } else {
      var init, last := b[..|b| - 1], b[|b| - 1];
      KidsAllConcat(parents, a, init);
      assert init + [last] == b && a + init + [last] == a + b;
      KidsAllGrows(parents, a, init, last, a + b);
    }
  }

  ghost function TopsUnder(parents: Parents, root: nat): seq<nat> {
    KidsAll(parents, Kids(parents, root, |parents|))
  }

  lemma {:induction false} TopsGrow(parents: Parents, roots: seq<nat>, root: nat)
    ensures KidsAll(parents, KidsAll(parents, roots + [root])) ==
            KidsAll(parents, KidsAll(parents, roots)) + TopsUnder(parents, root)
  {
    assert (roots + [root])[..|roots|] == roots;
    KidsAllConcat(parents, KidsAll(parents, roots), Kids(parents, root, |parents|));
  }

  lemma {:induction false} AdjustedConcat(spans: seq<OtelSpan>, a: seq<nat>, b: seq<nat>)
    requires Known(spans, a) && Known(spans, b)
    ensures Known(spans, a + b) && AdjustedAll(spans, a + b) == AdjustedAll(spans, a) + AdjustedAll(spans, b)
  {
  }

  ghost predicate TopsReady(spans: seq<OtelSpan>, end: seq<int>, pid: seq<int>)
    requires |end| == |pid| == |spans|
  {
    forall t :: t in TopLevel(spans) ==>
      t < |spans| && end[t] == spans[t].end - 1000 && pid[t] == ThreadPid(spans, t)
  }

  method Records(spans: seq<OtelSpan>, tops: seq<nat>, end: array<int>, pid: array<int>) returns (group: seq<Span>)
    requires end.Length == pid.Length == |spans|
    requires TopsReady(spans, end[..], pid[..]) && forall t :: t in tops ==> t in TopLevel(spans)
    ensures Known(spans, tops) && group == AdjustedAll(spans, tops)
  {
    group := [];
    for k := 0 to |tops|
      invariant Known(spans, tops[..k]) && group == AdjustedAll(spans, tops[..k])
    {
      var t := tops[k];
      assert t in tops && t in TopLevel(spans);
      AdjustedConcat(spans, tops[..k], [t]);
      assert tops[..k + 1] == tops[..k] + [t] && AdjustedAll(spans, [t]) == [Adjusted(spans, t)];
      group := group + [Span(t, Engine(pid[t]), spans[t].start, end[t])];
    }
    assert tops[..|tops|] == tops;
  }

  // The groups hold the records of the given spans, in order.
  ghost predicate RecordsIn(spans: seq<OtelSpan>, tops: seq<nat>, groups: seq<seq<Span>>) {
    Known(spans, tops) && Flatten(groups) == AdjustedAll(spans, tops)
  }

  lemma {:induction false} RecordsNext(spans: seq<OtelSpan>, tops: seq<nat>, more: seq<nat>, groups: seq<seq<Span>>, group: seq<Span>)
    requires RecordsIn(spans, tops, groups) && Known(spans, more) && group == AdjustedAll(spans, more)
    ensures RecordsIn(spans, tops + more, groups + [group])
  {
    FlattenNext(groups, group);
    AdjustedConcat(spans, tops, more);
  }

  // The records of one request, and of all requests in the order they are read.
  ghost function RequestGroup(spans: seq<OtelSpan>, root: nat): seq<Span> {
    var tops := TopsUnder(ParentsOf(spans), root);
    if Known(spans, tops) then AdjustedAll(spans, tops) else []
  }

  ghost function GroupsOf(spans: seq<OtelSpan>): (groups: seq<seq<Span>>)
    ensures |groups| == |Requests(spans, |spans|)|
  {
    var roots := Requests(spans, |spans|);
    seq(|roots|, k requires 0 <= k < |roots| => RequestGroup(spans, roots[k]))
  }

  // The records of the first k requests.
  ghost predicate Grouped(spans: seq<OtelSpan>, k: nat, groups: seq<seq<Span>>)
    requires k <= |Requests(spans, |spans|)|
  {
    var parents, roots := ParentsOf(spans), Requests(spans, |spans|);
    && RecordsIn(spans, KidsAll(parents, KidsAll(parents, roots[..k])), groups)
    && ([] in groups <==> exists r :: r in roots[..k] && TopsUnder(parents, r) == [])
    && groups == GroupsOf(spans)[..k]
  }

  lemma {:induction false} EmptyGroupNext(parents: Parents, roots: seq<nat>, groups: seq<seq<Span>>, root: nat, group: seq<Span>)
    requires [] in groups <==> exists r :: r in roots && TopsUnder(parents, r) == []
    requires group == [] <==> TopsUnder(parents, root) == []
    ensures [] in groups + [group] <==> exists r :: r in roots + [root] && TopsUnder(parents, r) == []
  {
    assert forall r :: r in roots + [root] <==> r in roots || r == root;
  }

  lemma {:induction false} FlattenNext(groups: seq<seq<Span>>, group: seq<Span>)
    ensures Flatten(groups + [group]) == Flatten(groups) + group
  {
    assert (groups + [group])[..|groups|] == groups;
  }

  lemma {:induction false} GroupedNext(spans: seq<OtelSpan>, k: nat, groups: seq<seq<Span>>, group: seq<Span>)
    requires k < |Requests(spans, |spans|)| && Grouped(spans, k, groups)
    requires var tops := TopsUnder(ParentsOf(spans), Requests(spans, |spans|)[k]);
      Known(spans, tops) && group == AdjustedAll(spans, tops)
    ensures Grouped(spans, k + 1, groups + [group])
  {
    var parents, roots := ParentsOf(spans), Requests(spans, |spans|);
    assert roots[..k + 1] == roots[..k] + [roots[k]];
    TopsGrow(parents, roots[..k], roots[k]);
    RecordsNext(spans, KidsAll(parents, KidsAll(parents, roots[..k])), TopsUnder(parents, roots[k]), groups, group);
    EmptyGroupNext(parents, roots[..k], groups, roots[k], group);
    assert GroupsOf(spans)[k] == group && GroupsOf(spans)[..k + 1] == GroupsOf(spans)[..k] + [GroupsOf(spans)[k]];
  }

  lemma {:induction false} TopsInTopLevel(spans: seq<OtelSpan>, k: nat)
    requires k < |Requests(spans, |spans|)|
    ensures forall t :: t in TopsUnder(ParentsOf(spans), Requests(spans, |spans|)[k]) ==> t in TopLevel(spans)
  {
    var parents, roots := ParentsOf(spans), Requests(spans, |spans|);
    assert roots[k] in roots;
    KidsMembers(parents, roots[k], |parents|);
    KidsAllMembers(parents, roots);
    KidsAllMembers(parents, KidsAll(parents, roots));
    KidsAllMembers(parents, Kids(parents, roots[k], |parents|));
  }

  method RequestRecords(spans: seq<OtelSpan>, child: seq<seq<nat>>, roots: seq<nat>, end: array<int>, pid: array<int>)
    returns (groups: seq<seq<Span>>)
    requires Linked(ParentsOf(spans), child) && roots == Requests(spans, |spans|)
    requires end.Length == pid.Length == |spans| && TopsReady(spans, end[..], pid[..])
    ensures Grouped(spans, |roots|, groups)
  {
    groups := [];
    RequestsMembers(spans, |spans|);
    for k := 0 to |roots|
      invariant Grouped(spans, k, groups)
    {
      assert roots[k] in roots;
      var tops := TopsOf(child, roots[k], ParentsOf(spans));
      TopsInTopLevel(spans, k);
      var group := Records(spans, tops, end, pid);
      GroupedNext(spans, k, groups, group);
      groups := groups + [group];
    }
  }

  // --- The whole conversion ---

  // One drawn slice ("X" event).
  datatype Event = Event(id: nat, pid: int, tid: nat, start: int, end: int) {
    function Times(): Interval { Interval(start, end) }
  }

  datatype Trace = Trace(engine: seq<Event>, gateway: seq<Placement>)

  function EventIds(events: seq<Event>): seq<nat> {
    seq(|events|, i requires 0 <= i < |events| => events[i].id)
  }

  // Exactly one event per drawn span, with its own start and its end brought forward once.
  ghost predicate OneEventEach(spans: seq<OtelSpan>, events: seq<Event>) {
    && (forall j: nat :: Visits(EventIds(events), j) == if Drawn(spans, j) then 1 else 0)
    && (forall e :: e in events ==>
          e.id < |spans| && e.start == spans[e.id].start && e.end == spans[e.id].end - 1000)
  }

  // Events below one top-level span share its thread's process and its line.
  ghost predicate FollowTop(spans: seq<OtelSpan>, events: seq<Event>) {
    forall a, b, t :: a in events && b in events && t in TopLevel(spans)
                      && HasTop(ParentsOf(spans), a.id, t) && HasTop(ParentsOf(spans), b.id, t) ==>
      a.pid == b.pid == ThreadPid(spans, t) && a.tid == b.tid
  }

  ghost predicate TopsApart(spans: seq<OtelSpan>, events: seq<Event>) {
    forall a, b :: a in events && b in events && a.id in TopLevel(spans) && b.id in TopLevel(spans)
                   && a.id != b.id && a.pid == b.pid && a.tid == b.tid ==>
      !Overlap(a.Times(), b.Times())
  }

  // Of the spans that are laid out, none lasts exactly 1000 ns, or all last less than 1003 ns.
  ghost predicate Separable(spans: seq<OtelSpan>, smg: seq<GatewaySpan>) {
    || (&& (forall t :: t in TopLevel(spans) && t < |spans| ==> spans[t].end - spans[t].start != 1000)
        && (forall g :: g in smg ==> g.span.end - g.span.start != 1000))
    || (&& (forall t :: t in TopLevel(spans) && t < |spans| ==> spans[t].end - spans[t].start < 1003)
        && (forall g :: g in smg ==> g.span.end - g.span.start < 1003))
  }

  // The placement of a top-level span has the line and the times of its event.
  lemma {:induction false} PlacedAs(spans: seq<OtelSpan>, e: Event, log: seq<Placement>, tid: seq<nat>) returns (i: nat)
    requires |tid| == |spans| && Stamped(ParentsOf(spans), log, tid) && e.id in TopLevel(spans)
    requires e.id < |spans| && e.tid == tid[e.id] && e.start == spans[e.id].start && e.end == spans[e.id].end - 1000
    requires e.pid == ThreadPid(spans, e.id)
    requires forall k :: 0 <= k < |log| && log[k].span.pid.Engine? ==>
      log[k].span.id < |spans| && log[k].span == Adjusted(spans, log[k].span.id)
    requires exists k :: 0 <= k < |log| && log[k].span.pid.Engine? && log[k].span.id == e.id
    ensures i < |log| && log[i].span.id == e.id && log[i].span.pid == Engine(e.pid)
    ensures log[i].line == e.tid && log[i].span.Times() == e.Times()
  {
    TopLevelShape(spans);
    TopOfItself(ParentsOf(spans), e.id);
    i :| 0 <= i < |log| && log[i].span.pid.Engine? && log[i].span.id == e.id;
  }

  lemma {:induction false} ApartInLog(log: seq<Placement>, i: nat, j: nat)
    requires NoOverlap(log) && i < |log| && j < |log| && i != j && SameLine(log[i], log[j])
    ensures !Overlap(log[i].span.Times(), log[j].span.Times())
  {
    OverlapBounds(log[i].span.Times(), log[j].span.Times());
    OverlapBounds(log[j].span.Times(), log[i].span.Times());
    assert SameLine(log[j], log[i]);
  }

  lemma {:induction false} TopsAreApart(spans: seq<OtelSpan>, events: seq<Event>, log: seq<Placement>, tid: seq<nat>)
    requires |tid| == |spans| && NoOverlap(log) && Stamped(ParentsOf(spans), log, tid)
    requires OneEventEach(spans, events) && FollowTop(spans, events)
    requires forall e :: e in events ==> e.tid == tid[e.id]
    requires forall i :: 0 <= i < |log| && log[i].span.pid.Engine? ==>
      log[i].span.id < |spans| && log[i].span == Adjusted(spans, log[i].span.id)
    requires forall t :: t in TopLevel(spans) ==> exists i :: 0 <= i < |log| && log[i].span.pid.Engine? && log[i].span.id == t
    ensures TopsApart(spans, events)
  {
    forall a, b | a in events && b in events && a.id in TopLevel(spans) && b.id in TopLevel(spans)
                  && a.id != b.id && a.pid == b.pid && a.tid == b.tid
      ensures !Overlap(a.Times(), b.Times())
    {
      OwnPid(spans, events, a);
      OwnPid(spans, events, b);
      var i := PlacedAs(spans, a, log, tid);
      var j := PlacedAs(spans, b, log, tid);
      ApartInLog(log, i, j);
    }
  }

  lemma {:induction false} OwnPid(spans: seq<OtelSpan>, events: seq<Event>, e: Event)
    requires FollowTop(spans, events) && e in events && e.id in TopLevel(spans)
    ensures e.pid == ThreadPid(spans, e.id)
  {
    TopLevelShape(spans);
    TopOfItself(ParentsOf(spans), e.id);
  }

  // Gathering visits the requests' spans in start order, which changes no count.
  lemma {:induction false} GatherLevel(spans: seq<OtelSpan>, groups: seq<seq<Span>>, level: seq<nat>)
    requires Known(spans, TopLevel(spans)) && Flatten(groups) == AdjustedAll(spans, TopLevel(spans))
    requires level == IdsOf(Flatten(EachSorted(groups)))
    ensures AllAtDepth(ParentsOf(spans), level, 2) && Distinct(level)
    ensures forall t :: t in level <==> t in TopLevel(spans)
  {
    FlattenSortsInside(groups);
    TopLevelShape(spans);
    LevelOfRecords(spans, TopLevel(spans), Flatten(EachSorted(groups)));
  }

  lemma {:induction false} LevelOfRecords(spans: seq<OtelSpan>, tops: seq<nat>, records: seq<Span>)
    requires Distinct(tops) && Known(spans, tops) && multiset(records) == multiset(AdjustedAll(spans, tops))
    ensures Distinct(IdsOf(records)) && forall t :: t in IdsOf(records) <==> t in tops
  {
    var level := IdsOf(records);
    forall i | 0 <= i < |records| ensures records[i].pid.Engine? {
      assert records[i] in multiset(records);
      assert records[i] in AdjustedAll(spans, tops);
    }
    RecordIds(spans, tops, [], records);
    forall t | t in tops ensures t in level {
      var i :| 0 <= i < |records| && records[i].pid.Engine? && records[i].id == t;
      assert level[i] == t;
    }
  }

  lemma {:induction false} GatheredInAnyOrder(spans: seq<OtelSpan>, level: seq<nat>, j: nat)
    requires AllAtDepth(ParentsOf(spans), level, 2) && Distinct(level)
    requires forall t :: t in level <==> t in TopLevel(spans)
    ensures Visits(PreorderAll(ParentsOf(spans), level, 2), j) == if Drawn(spans, j) then 1 else 0
  {
    PreorderAllOnce(ParentsOf(spans), level, 2, j);
    TopOfLevel(ParentsOf(spans), level, j);
    TopOfLevel(ParentsOf(spans), TopLevel(spans), j);
    DrawnIsBelow(spans, j);
  }

  method MakeEvents(spans: seq<OtelSpan>, ids: seq<nat>, end: array<int>, pid: array<int>, tid: array<nat>)
    returns (events: seq<Event>)
    requires end.Length == pid.Length == tid.Length == |spans| && Known(spans, ids)
    ensures EventIds(events) == ids
    ensures forall e :: e in events ==>
      e.id in ids && e.id < |spans| && e == Event(e.id, pid[e.id], tid[e.id], spans[e.id].start, end[e.id])
  {
    events := [];
    for k := 0 to |ids|
      invariant EventIds(events) == ids[..k]
      invariant forall e :: e in events ==>
        e.id in ids && e.id < |spans| && e == Event(e.id, pid[e.id], tid[e.id], spans[e.id].start, end[e.id])
    {
      var i := ids[k];
      events := events + [Event(i, pid[i], tid[i], spans[i].start, end[i])];
    }
    assert ids[..|ids|] == ids;
  }

  // The engine events, one per gathered span.
  method GatherEvents(spans: seq<OtelSpan>, child: seq<seq<nat>>, level: seq<nat>,
                      end: array<int>, pid: array<int>, tid: array<nat>) returns (events: seq<Event>)
    requires Linked(ParentsOf(spans), child) && end.Length == pid.Length == tid.Length == |spans|
    requires AllAtDepth(ParentsOf(spans), level, 2) && Distinct(level)
    requires forall t :: t in level <==> t in TopLevel(spans)
    requires forall j: nat :: Drawn(spans, j) ==> j < |spans| && end[j] == spans[j].end - 1000
    ensures OneEventEach(spans, events)
    ensures forall e :: e in events ==> e.pid == pid[e.id] && e.tid == tid[e.id]
  {
    var ids := GatherAll(child, level, ParentsOf(spans), 2);
    forall j: nat ensures Visits(ids, j) == if Drawn(spans, j) then 1 else 0 {
      GatheredInAnyOrder(spans, level, j);
    }
    forall i | 0 <= i < |ids| ensures Drawn(spans, ids[i]) {
      assert ids[i] in ids && Visits(ids, ids[i]) > 0;
    }
    events := MakeEvents(spans, ids, end, pid, tid);
  }

  lemma {:induction false} EventsFollowTop(spans: seq<OtelSpan>, events: seq<Event>, log: seq<Placement>,
                                           pid: seq<int>, tid: seq<nat>)
    requires |pid| == |tid| == |spans| && Stamped(ParentsOf(spans), log, tid)
    requires forall e :: e in events ==> e.id < |spans| && e.pid == pid[e.id] && e.tid == tid[e.id]
    requires forall t, j: nat :: t in TopLevel(spans) && j < |spans| && HasTop(ParentsOf(spans), j, t) ==>
      pid[j] == ThreadPid(spans, t)
    requires forall t :: t in TopLevel(spans) ==> exists i :: 0 <= i < |log| && log[i].span.pid.Engine? && log[i].span.id == t
    ensures FollowTop(spans, events)
  {
    forall a, b, t | a in events && b in events && t in TopLevel(spans)
                     && HasTop(ParentsOf(spans), a.id, t) && HasTop(ParentsOf(spans), b.id, t)
      ensures a.pid == b.pid == ThreadPid(spans, t) && a.tid == b.tid
    {
      var i :| 0 <= i < |log| && log[i].span.pid.Engine? && log[i].span.id == t;
      assert tid[a.id] == log[i].line == tid[b.id];
    }
  }

  // The log as laid out: only top-level engine spans, each once, then the gateway's.
  lemma {:induction false} LogShape(spans: seq<OtelSpan>, smg: seq<Span>, log: seq<Placement>)
    requires Known(spans, TopLevel(spans)) && forall s :: s in smg ==> s.pid == Smg
    requires multiset(SpansOf(log)) == multiset(AdjustedAll(spans, TopLevel(spans))) + multiset(smg)
    ensures OnTops(ParentsOf(spans), log)
    ensures forall i :: 0 <= i < |log| && log[i].span.pid.Engine? ==>
      log[i].span.id < |spans| && log[i].span == Adjusted(spans, log[i].span.id)
    ensures forall t :: t in TopLevel(spans) ==> exists i :: 0 <= i < |log| && log[i].span.pid.Engine? && log[i].span.id == t
  {
    var all := SpansOf(log);
    TopLevelShape(spans);
    RecordIds(spans, TopLevel(spans), smg, all);
    forall t | t in TopLevel(spans)
      ensures exists i :: 0 <= i < |log| && log[i].span.pid.Engine? && log[i].span.id == t
    {
      var i :| 0 <= i < |all| && all[i].pid.Engine? && all[i].id == t;
      assert log[i].span == all[i];
    }
    forall i | 0 <= i < |log| && log[i].span.pid.Engine?
      ensures log[i].span.id < |spans| && log[i].span == Adjusted(spans, log[i].span.id)
      ensures AtDepth(ParentsOf(spans), log[i].span.id, 2)
    {
      assert all[i] == log[i].span;
    }
    forall i, j | 0 <= i < j < |log| && log[i].span.pid.Engine? && log[j].span.pid.Engine?
      ensures log[i].span.id != log[j].span.id
    {
      assert all[i] == log[i].span && all[j] == log[j].span;
    }
  }

  lemma {:induction false} LayableRecords(spans: seq<OtelSpan>, smg: seq<GatewaySpan>)
    requires Separable(spans, smg) && Known(spans, TopLevel(spans))
    ensures Layable(AdjustedAll(spans, TopLevel(spans)) + Gateway(smg))
  {
    var tops, records := TopLevel(spans), AdjustedAll(spans, TopLevel(spans));
    forall r | r in records + Gateway(smg)
      ensures (exists t :: t in tops && t < |spans| && r == Adjusted(spans, t))
           || (exists g :: g in smg && r.start == g.span.start && r.end == g.span.end - 1000)
    {
      if r in records {
        var i :| 0 <= i < |tops| && records[i] == r;
        assert tops[i] in tops;
      } else {
        var i :| 0 <= i < |smg| && Gateway(smg)[i] == r;
        assert smg[i] in smg;
      }
    }
  }

  // What the layout and the gathering rely on once every span is converted.
  ghost predicate Prepared(spans: seq<OtelSpan>, child: seq<seq<nat>>, end: seq<int>, pid: seq<int>, groups: seq<seq<Span>>) {
    && Linked(ParentsOf(spans), child) && |end| == |pid| == |spans|
    && Known(spans, TopLevel(spans)) && Flatten(groups) == AdjustedAll(spans, TopLevel(spans))
    && (forall j: nat :: Drawn(spans, j) ==> j < |spans| && end[j] == spans[j].end - 1000)
    && (forall t, j: nat :: t in TopLevel(spans) && j < |spans| && HasTop(ParentsOf(spans), j, t) ==>
          pid[j] == ThreadPid(spans, t))
  }

  ghost predicate SomeRequestEmpty(spans: seq<OtelSpan>) {
    exists q :: q in Requests(spans, |spans|) && TopsUnder(ParentsOf(spans), q) == []
  }

  method PrepareSpans(spans: seq<OtelSpan>, smg: seq<GatewaySpan>)
    returns (child: seq<seq<nat>>, end: array<int>, pid: array<int>, groups: seq<seq<Span>>, gateway: Result<seq<Span>>)
    ensures fresh(end) && fresh(pid)
    ensures Prepared(spans, child, end[..], pid[..], groups)
    ensures groups == GroupsOf(spans) && ([] in groups <==> SomeRequestEmpty(spans))
    ensures gateway == if SomeUnlisted(smg) then Err("KeyError") else Ok(Gateway(smg))
  {
    var links, roots := BuildOtelSpanTree(spans);
    child := links[..];
    end, pid, gateway := GeneratePerfettoSpan(spans, child, roots, smg);
    ConvertedValues(spans, end[..], pid[..]);
    groups := RequestRecords(spans, child, roots, end, pid);
    assert roots[..|roots|] == roots && GroupsOf(spans)[..|roots|] == GroupsOf(spans);
  }

  // A top-level span's event is drawn on the line the layout put the span on.
  ghost predicate OnItsLine(spans: seq<OtelSpan>, log: seq<Placement>, e: Event) {
    e.id in TopLevel(spans) ==> Placement(Span(e.id, Engine(e.pid), e.start, e.end), e.tid) in log
  }

  lemma {:induction false} TopsOnTheirLines(spans: seq<OtelSpan>, events: seq<Event>, log: seq<Placement>, tid: seq<nat>)
    requires |tid| == |spans| && Stamped(ParentsOf(spans), log, tid)
    requires OneEventEach(spans, events) && FollowTop(spans, events)
    requires forall e :: e in events ==> e.tid == tid[e.id]
    requires forall i :: 0 <= i < |log| && log[i].span.pid.Engine? ==>
      log[i].span.id < |spans| && log[i].span == Adjusted(spans, log[i].span.id)
    requires forall t :: t in TopLevel(spans) ==> exists i :: 0 <= i < |log| && log[i].span.pid.Engine? && log[i].span.id == t
    ensures forall e :: e in events ==> OnItsLine(spans, log, e)
  {
    forall e | e in events ensures OnItsLine(spans, log, e) {
      if e.id in TopLevel(spans) {
        OwnPid(spans, events, e);
        var i := PlacedAs(spans, e, log, tid);
        assert log[i] == Placement(Span(e.id, Engine(e.pid), e.start, e.end), e.tid);
      }
    }
  }

  method FinishEngine(spans: seq<OtelSpan>, child: seq<seq<nat>>, end: array<int>, pid: array<int>,
                      groups: seq<seq<Span>>, log: seq<Placement>, ghost smg: seq<Span>)
    returns (engine: seq<Event>)
    requires Prepared(spans, child, end[..], pid[..], groups)
    requires forall s :: s in smg ==> s.pid == Smg
    requires multiset(SpansOf(log)) == multiset(AdjustedAll(spans, TopLevel(spans))) + multiset(smg)
    ensures OneEventEach(spans, engine) && FollowTop(spans, engine)
    ensures NoOverlap(log) ==> TopsApart(spans, engine)
    ensures forall e :: e in engine ==> OnItsLine(spans, log, e)
  {
    LogShape(spans, smg, log);
    var tid := new nat[|spans|](_ => 0);
    StampLines(child, log, tid, ParentsOf(spans));
    var level := IdsOf(Flatten(EachSorted(groups)));
    GatherLevel(spans, groups, level);
    engine := GatherEvents(spans, child, level, end, pid, tid);
    EventsFollowTop(spans, engine, log, pid[..], tid[..]);
    TopsOnTheirLines(spans, engine, log, tid[..]);
    if NoOverlap(log) { TopsAreApart(spans, engine, log, tid[..]); }
  }

  lemma {:induction false} LayoutOfTrace(spans: seq<OtelSpan>, groups: seq<seq<Span>>, smg: seq<GatewaySpan>, log: seq<Placement>)
    requires Known(spans, TopLevel(spans)) && Flatten(groups) == AdjustedAll(spans, TopLevel(spans))
    requires LaidOut(groups, Gateway(smg), log)
    ensures multiset(SpansOf(log)) == multiset(AdjustedAll(spans, TopLevel(spans))) + multiset(Gateway(smg))
    ensures |smg| <= |log| && multiset(SpansOf(log[|log| - |smg|..])) == multiset(Gateway(smg))
    ensures Separable(spans, smg) ==> NoOverlap(log) && NoOverlap(log[|log| - |smg|..])
  {
    if Separable(spans, smg) {
      LayableRecords(spans, smg);
      NoOverlapTail(log, |log| - |smg|);
    }
  }

  // The exception the conversion raises, if any; the gateway's comes first.
  ghost function Raised(spans: seq<OtelSpan>, smg: seq<GatewaySpan>): Option<string> {
    if SomeUnlisted(smg) then Some("KeyError") else if SomeRequestEmpty(spans) then Some("IndexError") else None
  }

  // The layout the converter computes for its input.
  ghost function LayoutLog(spans: seq<OtelSpan>, smg: seq<GatewaySpan>): seq<Placement> {
    LayTrace(SortRequests(GroupsOf(spans)), SortBy(Gateway(smg), StartKey)).log
  }

  // Top-level spans and gateway spans are drawn on the lines of the layout.
  ghost predicate LinesChosen(spans: seq<OtelSpan>, smg: seq<GatewaySpan>, log: seq<Placement>, trace: Trace) {
    && (forall e :: e in trace.engine ==> OnItsLine(spans, log, e))
    && |smg| <= |log| && trace.gateway == log[|log| - |smg|..]
  }

  // A gateway span is drawn with its own start and its end brought forward once.
  ghost predicate FromGateway(smg: seq<GatewaySpan>, s: Span) {
    && s.pid == Smg && s.id < |smg|
    && s.start == smg[s.id].span.start && s.end == smg[s.id].span.end - 1000
  }

  lemma {:induction false} GatewayDrawn(smg: seq<GatewaySpan>, gateway: seq<Placement>)
    requires multiset(SpansOf(gateway)) == multiset(Gateway(smg))
    ensures forall p :: p in gateway ==> FromGateway(smg, p.span)
  {
    forall p | p in gateway ensures FromGateway(smg, p.span) {
      var i :| 0 <= i < |gateway| && gateway[i] == p;
      assert SpansOf(gateway)[i] == p.span && p.span in multiset(SpansOf(gateway));
      assert p.span in Gateway(smg);
    }
  }

  // What a finished conversion has drawn, given the layout.
  ghost predicate Drawing(spans: seq<OtelSpan>, smg: seq<GatewaySpan>, log: seq<Placement>, trace: Trace) {
    && OneEventEach(spans, trace.engine) && FollowTop(spans, trace.engine) && LinesChosen(spans, smg, log, trace)
    && multiset(SpansOf(trace.gateway)) == multiset(Gateway(smg))
    && (forall p :: p in trace.gateway ==> FromGateway(smg, p.span))
    && (Separable(spans, smg) ==> TopsApart(spans, trace.engine) && NoOverlap(trace.gateway))
  }

  lemma {:induction false} Finished(spans: seq<OtelSpan>, smg: seq<GatewaySpan>, engine: seq<Event>, log: seq<Placement>)
    requires |smg| <= |log| && multiset(SpansOf(log[|log| - |smg|..])) == multiset(Gateway(smg))
    requires Separable(spans, smg) ==> NoOverlap(log) && NoOverlap(log[|log| - |smg|..])
    requires OneEventEach(spans, engine) && FollowTop(spans, engine) && (NoOverlap(log) ==> TopsApart(spans, engine))
    requires forall e :: e in engine ==> OnItsLine(spans, log, e)
    ensures Drawing(spans, smg, log, Trace(engine, log[|log| - |smg|..]))
  {
    GatewayDrawn(smg, log[|log| - |smg|..]);
  }

  // The conversion over any engine spans and any gateway spans, with or without child lists.
  method ConvertListedTrace(spans: seq<OtelSpan>, smg: seq<GatewaySpan>) returns (result: Result<Trace>)
    ensures result.Err? <==> Raised(spans, smg).Some?
    ensures result.Err? ==> result.exception == Raised(spans, smg).value
    ensures result.Ok? ==> Drawing(spans, smg, LayoutLog(spans, smg), result.value)
    ensures result.Ok? ==> LaidInOrder(GroupsOf(spans), Gateway(smg), LayoutLog(spans, smg))
  {
    var child, end, pid, groups, gateway := PrepareSpans(spans, smg);
    if gateway.Err? { return Err(gateway.exception); }
    var laid := GeneratePerfettoSpanLayout(groups, gateway.value);
    if laid.Err? { return Err(laid.exception); }
    var log := laid.value;
    LayoutOfTrace(spans, groups, smg, log);
    var engine := FinishEngine(spans, child, end, pid, groups, log, Gateway(smg));
    Finished(spans, smg, engine, log);
    result := Ok(Trace(engine, log[|log| - |smg|..]));
  }

  // Gateway spans as the converter reads them: child lists are built for engine spans only.
  function AsRead(smg: seq<OtelSpan>): seq<GatewaySpan> {
    seq(|smg|, i requires 0 <= i < |smg| => GatewaySpan(smg[i], false))
  }

  // A single gateway span already ends the conversion, whatever the engine spans are.
  lemma {:induction false} GatewaySpanFails(spans: seq<OtelSpan>, s: OtelSpan)
    ensures Raised(spans, AsRead([s])) == Some("KeyError")
  {
    assert !AsRead([s])[0].listed;
  }

  lemma {:induction false} RaisedIff(spans: seq<OtelSpan>, smg: seq<OtelSpan>)
    ensures Raised(spans, AsRead(smg)).Some? <==> smg != [] || SomeRequestEmpty(spans)
    ensures smg != [] ==> Raised(spans, AsRead(smg)) == Some("KeyError")
    ensures smg == [] && SomeRequestEmpty(spans) ==> Raised(spans, AsRead(smg)) == Some("IndexError")
  {
    if smg != [] { assert !AsRead(smg)[0].listed; }
  }

  // The converter as written.
  method ConvertTrace(spans: seq<OtelSpan>, smg: seq<OtelSpan>) returns (result: Result<Trace>)
    ensures result.Err? <==> smg != [] || SomeRequestEmpty(spans)
    ensures result.Err? ==> result.exception == if smg != [] then "KeyError" else "IndexError"
    ensures result.Ok? ==> Drawing(spans, [], LayoutLog(spans, []), result.value) && result.value.gateway == []
  {
    RaisedIff(spans, smg);
    result := ConvertListedTrace(spans, AsRead(smg));
    if result.Ok? {
      assert AsRead(smg) == [] && Gateway([]) == [];
      assert |multiset(SpansOf(result.value.gateway))| == 0;
    }
  }
}
