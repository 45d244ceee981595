// The layout as the converter runs it: a dictionary of lines per process changed in
// place, requests sorted and laid out one after the other, then the gateway's spans.
module LayoutRun {
  import opened Bags
  import opened Basics
  import opened SpanLine
  import opened SpanLayout
  import opened LayoutOptimality
  import opened LayoutRules

  method ScanLines(lines: seq<Line>, query: Interval) returns (k: nat)
    ensures k == FirstFree(lines, query)
  {
    k := 0;
    while k < |lines|
      invariant 0 <= k <= |lines|
      invariant forall i :: 0 <= i < k ==> Clash(lines[i], query)
    {
      if !Clash(lines[k], query) { return; }
      k := k + 1;
    }
  }

  lemma {:induction false} Sticky(g: Graph, status: map<Pid, nat>, pid: Pid, query: Interval)
    requires StatusFits(g, status) && pid in status && pid in g && 1 <= status[pid] <= |g[pid]|
    requires query.start == query.end || !Clash(g[pid][status[pid] - 1], query)
    ensures ChooseLine(g, status, pid, query) == status[pid] && status[pid := status[pid]] == status
  {
  }

  lemma {:induction false} NotSticky(g: Graph, status: map<Pid, nat>, pid: Pid, query: Interval)
    requires StatusFits(g, status) && !Sticks(g, status, pid, query)
    ensures ChooseLine(g, status, pid, query) == FirstFree(LinesOf(g, pid), query) + 1
  {
  }

  class LayoutGraph {
    var graph: Graph

    constructor ()
      ensures graph == map[]
    {
      graph := map[];
    }

    method OpenLine(pid: Pid)
      modifies this
      ensures graph == old(graph)[pid := LinesOf(old(graph), pid) + [[]]]
    {
      graph := graph[pid := (if pid in graph then graph[pid] else []) + [[]]];
    }

    // Picks the line; opens it when no line is free.
    method FindLine(status: map<Pid, nat>, pid: Pid, start: int, end: int)
      returns (line: nat, status': map<Pid, nat>)
      requires StatusFits(graph, status)
      modifies this
      ensures line == ChooseLine(old(graph), status, pid, Interval(start, end))
      ensures status' == status[pid := line]
      ensures if line <= |LinesOf(old(graph), pid)| then graph == old(graph)
              else graph == old(graph)[pid := LinesOf(old(graph), pid) + [[]]]
    {
      var query := Interval(start, end);
      if pid in status {
        line := status[pid];
        if start == end || !Clash(graph[pid][line - 1], query) {
          Sticky(graph, status, pid, query);
          return line, status;
        }
      }
      NotSticky(graph, status, pid, query);
      line := FirstLine(pid, query);
      status' := status[pid := line];
    }

    // The first line with room, opened if there is none.
    method FirstLine(pid: Pid, query: Interval) returns (line: nat)
      modifies this
      ensures line == FirstFree(LinesOf(old(graph), pid), query) + 1
      ensures if line <= |LinesOf(old(graph), pid)| then graph == old(graph)
              else graph == old(graph)[pid := LinesOf(old(graph), pid) + [[]]]
    {
      line := 1;
      if pid in graph {
        var k := ScanLines(graph[pid], query);
        line := k + 1;
      }
      if pid !in graph || line == |graph[pid]| + 1 {
        OpenLine(pid);
      }
    }

    // One turn of the layout loop: find the line, insert the span there.
    method PlaceSpan(status: map<Pid, nat>, s: Span, log: seq<Placement>)
      returns (status': map<Pid, nat>, log': seq<Placement>)
      requires StatusFits(graph, status)
      modifies this
      ensures Board(graph, status', log') == Step(Board(old(graph), status, log), s)
    {
      var line;
      line, status' := FindLine(status, s.pid, s.start, s.end);
      var lines := graph[s.pid];
      var lines' := lines[line - 1 := Insert(lines[line - 1], s.Times())];
      assert lines' == WithLine(LinesOf(old(graph), s.pid), line, Insert(LineAt(LinesOf(old(graph), s.pid), line), s.Times()));
      graph := graph[s.pid := lines'];
      log' := log + [Placement(s, line)];
    }

    method PlaceNext(status: map<Pid, nat>, s: Span, log: seq<Placement>, ghost start: Board, ghost done: seq<Span>,
                     ghost at: Board)
      returns (status': map<Pid, nat>, log': seq<Placement>, ghost at': Board)
      requires StatusFits(graph, status)
      requires at == Board(graph, status, log) && at == StepAll(start, done)
      modifies this
      ensures StatusFits(graph, status')
      ensures at' == Board(graph, status', log') && at' == StepAll(start, done + [s])
    {
      StepAllSnoc(start, done, s);
      StepFits(at, s);
      status', log' := PlaceSpan(status, s, log);
      at' := Step(at, s);
    }

    method PlaceAll(status: map<Pid, nat>, spans: seq<Span>, log: seq<Placement>)
      returns (status': map<Pid, nat>, log': seq<Placement>)
      requires StatusFits(graph, status)
      modifies this
      ensures Board(graph, status', log') == StepAll(Board(old(graph), status, log), spans)
    {
      ghost var start := Board(graph, status, log);
      ghost var done, at := [], start;
      status', log' := status, log;
      for i := 0 to |spans|
        invariant StatusFits(graph, status')
        invariant done == spans[..i] && at == Board(graph, status', log') && at == StepAll(start, done)
      {
        status', log', at := PlaceNext(status', spans[i], log', start, done, at);
        done := done + [spans[i]];
      }
      assert done == spans;
    }
  }

  function StartKey(s: Span): int { s.start }

  // The key the requests are sorted by; a request without spans has none.
  function FirstStart(r: seq<Span>): int { if r == [] then 0 else r[0].start }

  function EachSorted(roots: seq<seq<Span>>): seq<seq<Span>> {
    seq(|roots|, i requires 0 <= i < |roots| => SortBy(roots[i], StartKey))
  }

  function SortRequests(roots: seq<seq<Span>>): seq<seq<Span>> {
    SortBy(EachSorted(roots), FirstStart)
  }

  // --- Sorting does not change what is laid out ---

  lemma {:induction false} WithoutLast<T>(a: seq<T>, b: seq<T>, j: nat)
    requires multiset(a) == multiset(b) && a != [] && j < |b| && b[j] == a[|a| - 1]
    ensures multiset(a[..|a| - 1]) == multiset(Drop(b, j))
  {
    assert a == a[..|a| - 1] + [a[|a| - 1]];
    assert b == b[..j] + [b[j]] + b[j + 1..];
    assert multiset(b) == multiset(Drop(b, j)) + multiset{b[j]};
    assert multiset(a) == multiset(a[..|a| - 1]) + multiset{b[j]};
    assert multiset(a) - multiset{b[j]} == multiset(a[..|a| - 1]);
  }

  lemma {:induction false} DepthDrop(s: seq<Span>, j: nat, t: int)
    requires j < |s|
    ensures Depth(s, t) == Depth(Drop(s, j), t) + if Covers(s[j].Times(), t) then 1 else 0
  {
    var last := |s| - 1;
    if j == last {
      assert Drop(s, j) == s[..last];
    } else {
      DepthDrop(s[..last], j, t);
      assert Drop(s, j)[..last - 1] == Drop(s[..last], j);
    }
  }

  lemma {:induction false} DepthPermutes(a: seq<Span>, b: seq<Span>, t: int)
    requires multiset(a) == multiset(b)
    ensures Depth(a, t) == Depth(b, t)
  {
    if a == [] {
      assert |multiset(b)| == 0;
    } else {
      assert a[|a| - 1] in multiset(b);
      var j :| 0 <= j < |b| && b[j] == a[|a| - 1];
      WithoutLast(a, b, j);
      DepthDrop(b, j, t);
      DepthPermutes(a[..|a| - 1], Drop(b, j), t);
    }
  }

  // All spans of all groups, as a bag.
  function Pool(rs: seq<seq<Span>>): multiset<Span> {
    if rs == [] then multiset{} else Pool(rs[..|rs| - 1]) + multiset(rs[|rs| - 1])
  }

  lemma {:induction false} FlattenPool(rs: seq<seq<Span>>)
    ensures multiset(Flatten(rs)) == Pool(rs)
  {
    if rs != [] { FlattenPool(rs[..|rs| - 1]); }
  }

  lemma {:induction false} PoolDrop(rs: seq<seq<Span>>, j: nat)
    requires j < |rs|
    ensures Pool(rs) == Pool(Drop(rs, j)) + multiset(rs[j])
  {
    var last := |rs| - 1;
    if j == last {
      DropLast(rs);
    } else {
      PoolDrop(rs[..last], j);
      DropInit(rs, j);
      assert Drop(rs, j)[..last - 1] == Drop(rs[..last], j);
    }
  }

  lemma {:induction false} PoolPermutes(a: seq<seq<Span>>, b: seq<seq<Span>>)
    requires multiset(a) == multiset(b)
    ensures Pool(a) == Pool(b)
  {
    if a == [] {
      assert |multiset(b)| == 0;
    } else {
      assert a[|a| - 1] in multiset(b);
      var j :| 0 <= j < |b| && b[j] == a[|a| - 1];
      WithoutLast(a, b, j);
      PoolDrop(b, j);
      PoolPermutes(a[..|a| - 1], Drop(b, j));
    }
  }

  lemma {:induction false} PoolEqual(a: seq<seq<Span>>, b: seq<seq<Span>>)
    requires |a| == |b| && forall i :: 0 <= i < |a| ==> multiset(a[i]) == multiset(b[i])
    ensures Pool(a) == Pool(b)
  {
    if a != [] { PoolEqual(a[..|a| - 1], b[..|b| - 1]); }
  }

  lemma {:induction false} PoolSortsInside(roots: seq<seq<Span>>)
    ensures Pool(EachSorted(roots)) == Pool(roots)
  {
    var sorted := EachSorted(roots);
    assert forall i :: 0 <= i < |roots| ==> multiset(sorted[i]) == multiset(roots[i]);
    PoolEqual(sorted, roots);
  }

  lemma {:induction false} FlattenSortsInside(roots: seq<seq<Span>>)
    ensures multiset(Flatten(EachSorted(roots))) == multiset(Flatten(roots))
  {
    PoolSortsInside(roots);
    FlattenPool(EachSorted(roots));
    FlattenPool(roots);
  }

  lemma {:induction false} SortKeepsSpans(roots: seq<seq<Span>>)
    ensures multiset(Flatten(SortRequests(roots))) == multiset(Flatten(roots))
  {
    PoolPermutes(SortRequests(roots), EachSorted(roots));
    PoolSortsInside(roots);
    FlattenPool(SortRequests(roots));
    FlattenPool(roots);
  }

  lemma {:induction false} LayablePermutes(a: seq<Span>, b: seq<Span>)
    requires multiset(a) == multiset(b)
    ensures Layable(a) ==> Layable(b)
  {
    forall s | s in b ensures s in a { assert s in multiset(b) && s in multiset(a); }
  }

  // Only the spans of a process put lines on it.
  lemma {:induction false} StepAllElsewhere(b: Board, spans: seq<Span>, pid: Pid)
    requires forall s :: s in spans ==> s.pid != pid
    ensures LinesOf(StepAll(b, spans).graph, pid) == LinesOf(b.graph, pid)
  {
    if spans != [] { StepAllElsewhere(b, spans[..|spans| - 1], pid); }
  }

  lemma {:induction false} LayRequestsElsewhere(b: Board, requests: seq<seq<Span>>, pid: Pid)
    requires forall r, s :: r in requests && s in r ==> s.pid != pid
    ensures LinesOf(LayRequests(b, requests).graph, pid) == LinesOf(b.graph, pid)
  {
    if requests != [] {
      var init, r := requests[..|requests| - 1], requests[|requests| - 1];
      LayRequestsElsewhere(b, init, pid);
      StepAllElsewhere(LayRequests(b, init).(status := map[]), r, pid);
    }
  }

  lemma {:induction false} GatewayUntouched(roots: seq<seq<Span>>)
    requires forall s :: s in Flatten(roots) ==> s.pid.Engine?
    ensures LinesOf(LayRequests(EMPTY_BOARD, SortRequests(roots)).graph, Smg) == []
  {
    var requests := SortRequests(roots);
    SortKeepsSpans(roots);
    forall r, s | r in requests && s in r ensures s.pid != Smg {
      InFlatten(requests, r, s);
      assert s in multiset(Flatten(requests)) && s in multiset(Flatten(roots));
    }
    LayRequestsElsewhere(EMPTY_BOARD, requests, Smg);
  }

  lemma {:induction false} GatewayStream(smg: seq<Span>)
    requires AllPositive(smg) && forall s :: s in smg ==> s.pid == Smg
    ensures var stream := SortBy(smg, StartKey);
      AllPositive(stream) && OrderedByStart(stream) && forall s :: s in stream ==> s.pid == Smg
  {
    var stream := SortBy(smg, StartKey);
    forall s | s in stream ensures Positive(s.Times()) && s.pid == Smg {
      assert s in multiset(stream) && s in multiset(smg);
    }
    forall i, j | 0 <= i < j < |stream| ensures stream[i].start <= stream[j].start {
      assert StartKey(stream[i]) <= StartKey(stream[j]);
    }
  }

  lemma {:induction false} GatewayLines(roots: seq<seq<Span>>, smg: seq<Span>)
    requires AllPositive(smg)
    requires forall s :: s in Flatten(roots) ==> s.pid.Engine?
    requires forall s :: s in smg ==> s.pid == Smg
    ensures var n := |LinesOf(LayTrace(SortRequests(roots), SortBy(smg, StartKey)).graph, Smg)|;
      (forall t :: Depth(smg, t) <= n) && (exists t :: Depth(smg, t) == n)
  {
    var requests, stream := SortRequests(roots), SortBy(smg, StartKey);
    GatewayUntouched(roots);
    GatewayStream(smg);
    var b := LayRequests(EMPTY_BOARD, requests).(status := map[]);
    FirstFitIsOptimal(b, Smg, stream);
    forall t ensures Depth(smg, t) == Depth(stream, t) { DepthPermutes(smg, stream, t); }
    var t :| Depth(stream, t) == |LinesOf(StepAll(b, stream).graph, Smg)|;
    assert Depth(smg, t) == Depth(stream, t);
  }

  // --- Which gateway lengths leave no line to spare ---

  ghost predicate EngineOnly(roots: seq<seq<Span>>) {
    forall s :: s in Flatten(roots) ==> s.pid.Engine?
  }

  ghost predicate GatewayOnly(allowed: int -> bool, smg: seq<Span>) {
    LengthsIn(allowed, smg) && forall s :: s in smg ==> s.pid == Smg
  }

  // Whatever the engine spans are, no overlap-free layout of the gateway's spans has fewer lines.
  ghost predicate GatewayFrugal(allowed: int -> bool) {
    forall roots, smg, rival ::
      EngineOnly(roots) && GatewayOnly(allowed, smg) && RivalOf(SortBy(smg, StartKey), rival) ==>
        |LinesOf(LayTrace(SortRequests(roots), SortBy(smg, StartKey)).graph, Smg)| <= |LinesUsed(rival)|
  }

  lemma {:induction false} SortedGateway(allowed: int -> bool, roots: seq<seq<Span>>, smg: seq<Span>)
    requires EngineOnly(roots) && GatewayOnly(allowed, smg)
    ensures FreshStream(allowed, LayRequests(EMPTY_BOARD, SortRequests(roots)).(status := map[]), Smg, SortBy(smg, StartKey))
  {
    var stream := SortBy(smg, StartKey);
    GatewayUntouched(roots);
    forall s | s in stream ensures allowed(s.end - s.start) && s.pid == Smg {
      assert s in multiset(stream) && s in multiset(smg);
    }
    forall i, j | 0 <= i < j < |stream| ensures stream[i].start <= stream[j].start {
      assert StartKey(stream[i]) <= StartKey(stream[j]);
    }
  }

  lemma {:induction false} FrugalGateway(allowed: int -> bool)
    requires Frugal(allowed)
    ensures GatewayFrugal(allowed)
  {
    forall roots, smg, rival | EngineOnly(roots) && GatewayOnly(allowed, smg) && RivalOf(SortBy(smg, StartKey), rival)
      ensures |LinesOf(LayTrace(SortRequests(roots), SortBy(smg, StartKey)).graph, Smg)| <= |LinesUsed(rival)|
    {
      SortedGateway(allowed, roots, smg);
    }
  }

  lemma {:induction false} WastefulGateway(allowed: int -> bool, spans: seq<Span>, rival: seq<Placement>)
    requires FreshStream(allowed, EMPTY_BOARD, Smg, spans) && Wasted(spans, rival)
    ensures !GatewayFrugal(allowed)
  {
    assert SortedBy(spans, StartKey);
    SortedStays(spans, StartKey);
    NoRequests(spans);
    assert EngineOnly([]) && GatewayOnly(allowed, spans);
  }

  lemma {:induction false} NoRequests(spans: seq<Span>)
    ensures LayTrace(SortRequests([]), spans) == StepAll(EMPTY_BOARD, spans)
  {
    assert EachSorted([]) == [];
    assert SortRequests([]) == [] && LayRequests(EMPTY_BOARD, []) == EMPTY_BOARD;
  }

  // The gateway's lines are as few as possible, for every trace with the allowed gateway
  // lengths, exactly when all of them are positive or none is.
  lemma {:induction false} GatewayExactlyFor(allowed: int -> bool)
    ensures GatewayFrugal(allowed) <==> OnlyPositive(allowed) || OnlyNonpositive(allowed)
  {
    FrugalExactlyFor(allowed);
    if Frugal(allowed) {
      FrugalGateway(allowed);
    } else {
      var spans, rival := MixedIsWasteful(allowed);
      WastefulGateway(allowed, spans, rival);
    }
  }

  lemma {:induction false} LayRequestsSnoc(b: Board, init: seq<seq<Span>>, r: seq<Span>)
    ensures LayRequests(b, init + [r]) == StepAll(LayRequests(b, init).(status := map[]), r)
  {
    assert (init + [r])[..|init|] == init;
  }

  method PlaceRequest(layout: LayoutGraph, r: seq<Span>, log: seq<Placement>, ghost done: seq<seq<Span>>, ghost at: Board)
    returns (log': seq<Placement>, ghost at': Board)
    requires at == LayRequests(EMPTY_BOARD, done) && layout.graph == at.graph && log == at.log
    modifies layout
    ensures at' == LayRequests(EMPTY_BOARD, done + [r]) && layout.graph == at'.graph && log' == at'.log
  {
    LayRequestsSnoc(EMPTY_BOARD, done, r);
    var status;
    status, log' := layout.PlaceAll(map[], r, log);
    at' := StepAll(at.(status := map[]), r);
  }

  method PlaceRequests(layout: LayoutGraph, requests: seq<seq<Span>>) returns (log: seq<Placement>)
    requires layout.graph == map[]
    modifies layout
    ensures layout.graph == LayRequests(EMPTY_BOARD, requests).graph && log == LayRequests(EMPTY_BOARD, requests).log
  {
    log := [];
    ghost var done, at := [], EMPTY_BOARD;
    for i := 0 to |requests|
      invariant done == requests[..i] && at == LayRequests(EMPTY_BOARD, done)
      invariant layout.graph == at.graph && log == at.log
    {
      log, at := PlaceRequest(layout, requests[i], log, done, at);
      done := done + [requests[i]];
    }
    assert done == requests;
  }

  // The gateway's spans are the last ones laid out.
  lemma {:induction false} LogParts(requests: seq<seq<Span>>, smg: seq<Span>, log: seq<Placement>)
    requires SpansOf(log) == Flatten(requests) + smg
    ensures |smg| <= |log| && SpansOf(log[|log| - |smg|..]) == smg
    ensures multiset(SpansOf(log)) == multiset(Flatten(requests)) + multiset(smg)
  {
    var n := |log| - |smg|;
    assert |SpansOf(log)| == |log|;
    forall i | 0 <= i < |smg| ensures SpansOf(log[n..])[i] == smg[i] {
      assert SpansOf(log)[n + i] == smg[i];
    }
  }

  lemma {:induction false} NoOverlapTail(log: seq<Placement>, n: nat)
    requires NoOverlap(log) && n <= |log|
    ensures NoOverlap(log[n..])
  {
    forall i, j | 0 <= i < j < |log[n..]| && SameLine(log[n..][i], log[n..][j])
      ensures !Overlap(log[n..][i].span.Times(), log[n..][j].span.Times())
    {
      assert log[n..][i] == log[n + i] && log[n..][j] == log[n + j];
    }
  }

  // For requests and a gateway stream reordered in any way.
  lemma {:induction false} LayoutSafe(roots: seq<seq<Span>>, smg: seq<Span>, requests: seq<seq<Span>>, stream: seq<Span>)
    requires multiset(Flatten(requests)) == multiset(Flatten(roots)) && multiset(stream) == multiset(smg)
    requires Layable(Flatten(roots) + smg)
    ensures NoOverlap(LayTrace(requests, stream).log)
  {
    LayablePermutes(Flatten(roots) + smg, Flatten(requests) + stream);
    LayTraceNeverOverlaps(requests, stream);
  }

  // Every span is laid out once, the gateway's last, and no two collide.
  ghost predicate LaidOut(roots: seq<seq<Span>>, smg: seq<Span>, log: seq<Placement>) {
    && |smg| <= |log|
    && multiset(SpansOf(log)) == multiset(Flatten(roots)) + multiset(smg)
    && multiset(SpansOf(log[|log| - |smg|..])) == multiset(smg)
    && (Layable(Flatten(roots) + smg) ==> NoOverlap(log))
  }

  lemma {:induction false} LaidOutOnce(roots: seq<seq<Span>>, smg: seq<Span>, requests: seq<seq<Span>>,
                                       stream: seq<Span>, log: seq<Placement>)
    requires multiset(Flatten(requests)) == multiset(Flatten(roots)) && multiset(stream) == multiset(smg)
    requires |stream| == |smg| && SpansOf(log) == Flatten(requests) + stream
    requires Layable(Flatten(roots) + smg) ==> NoOverlap(log)
    ensures LaidOut(roots, smg, log)
  {
    LogParts(requests, stream, log);
  }

  lemma {:induction false} LayoutGuarantees(roots: seq<seq<Span>>, smg: seq<Span>, requests: seq<seq<Span>>, stream: seq<Span>)
    requires multiset(Flatten(requests)) == multiset(Flatten(roots)) && multiset(stream) == multiset(smg)
    requires |stream| == |smg|
    ensures LaidOut(roots, smg, LayTrace(requests, stream).log)
  {
    LayTraceLogs(requests, stream);
    if Layable(Flatten(roots) + smg) { LayoutSafe(roots, smg, requests, stream); }
    LaidOutOnce(roots, smg, requests, stream, LayTrace(requests, stream).log);
  }

  // --- The order of the layout ---

  // `requests` are the roots' spans, each root's in order of start, and the roots in order of
  // their first start; ties stay in the order they came.
  ghost predicate InStartOrder(roots: seq<seq<Span>>, requests: seq<seq<Span>>) {
    exists sorted: seq<seq<Span>> :: Arranged(roots, sorted, requests)
  }

  ghost predicate Arranged(roots: seq<seq<Span>>, sorted: seq<seq<Span>>, requests: seq<seq<Span>>) {
    && |sorted| == |roots| && (forall i :: 0 <= i < |roots| ==> StablySorted(roots[i], sorted[i], StartKey))
    && StablySorted(sorted, requests, FirstStart)
  }

  // The spans laid out are the requests' in that order, then the gateway's in order of start,
  // and each goes on its request's last line or else on the first one with room.
  ghost predicate LaidInOrder(roots: seq<seq<Span>>, smg: seq<Span>, log: seq<Placement>) {
    exists requests: seq<seq<Span>>, stream: seq<Span> ::
      && InStartOrder(roots, requests) && StablySorted(smg, stream, StartKey)
      && SpansOf(log) == Flatten(requests) + stream && RuleHolds(requests + [stream], log)
  }

  lemma {:induction false} RequestsInOrder(roots: seq<seq<Span>>)
    ensures InStartOrder(roots, SortRequests(roots))
  {
    var sorted := EachSorted(roots);
    forall i | 0 <= i < |roots| ensures StablySorted(roots[i], sorted[i], StartKey) { SortMeaning(roots[i], StartKey); }
    SortMeaning(sorted, FirstStart);
    assert Arranged(roots, sorted, SortRequests(roots));
  }

  lemma {:induction false} LayoutInOrder(roots: seq<seq<Span>>, smg: seq<Span>)
    ensures LaidInOrder(roots, smg, LayTrace(SortRequests(roots), SortBy(smg, StartKey)).log)
  {
    RequestsInOrder(roots);
    SortMeaning(smg, StartKey);
    LayTraceLogs(SortRequests(roots), SortBy(smg, StartKey));
    LayTraceRule(SortRequests(roots), SortBy(smg, StartKey));
  }

  // The order is determined: any two arrangements of the same roots agree.
  lemma {:induction false} OrderIsUnique(roots: seq<seq<Span>>, a: seq<seq<Span>>, b: seq<seq<Span>>)
    requires InStartOrder(roots, a) && InStartOrder(roots, b)
    ensures a == b
  {
    var sorted, sorted' :| Arranged(roots, sorted, a) && Arranged(roots, sorted', b);
    forall i | 0 <= i < |roots| ensures sorted[i] == sorted'[i] {
      assert StablySorted(roots[i], sorted[i], StartKey) && StablySorted(roots[i], sorted'[i], StartKey);
      StableIsUnique(sorted[i], sorted'[i], StartKey);
    }
    assert sorted == sorted';
    StableIsUnique(a, b, FirstStart);
  }

  method GeneratePerfettoSpanLayout(roots: seq<seq<Span>>, smg: seq<Span>) returns (result: Result<seq<Placement>>)
    ensures result.Err? <==> [] in roots
    ensures result.Err? ==> result.exception == "IndexError"
    ensures result.Ok? ==> LaidOut(roots, smg, result.value) && LaidInOrder(roots, smg, result.value)
    ensures result.Ok? ==> result.value == LayTrace(SortRequests(roots), SortBy(smg, StartKey)).log
  {
    if [] in roots { return Err("IndexError"); }
    var requests, stream := SortRequests(roots), SortBy(smg, StartKey);
    var layout := new LayoutGraph();
    var log := PlaceRequests(layout, requests);
    var status;
    status, log := layout.PlaceAll(map[], stream, log);
    SortKeepsSpans(roots);
    LayoutGuarantees(roots, smg, requests, stream);
    LayoutInOrder(roots, smg);
    return Ok(log);
  }

  // --- Which lengths are safe ---

  ghost predicate SafeInAnyOrder(allowed: int -> bool) {
    forall requests: seq<seq<Span>>, smg: seq<Span> ::
      LengthsIn(allowed, Flatten(requests) + smg) ==> NoOverlap(LayTrace(requests, smg).log)
  }

  // As the converter sorts them.
  ghost predicate SafeWhenSorted(allowed: int -> bool) {
    forall roots: seq<seq<Span>>, smg: seq<Span> ::
      LengthsIn(allowed, Flatten(roots) + smg) ==> NoOverlap(LayTrace(SortRequests(roots), SortBy(smg, StartKey)).log)
  }

  // Empty spans do not occur, or none covers more than two instants.
  ghost predicate SafeLengths(allowed: int -> bool) {
    !allowed(0) || forall n :: allowed(n) ==> n < 3
  }

  lemma {:induction false} SafeLengthsLayable(allowed: int -> bool, spans: seq<Span>)
    requires SafeLengths(allowed) && LengthsIn(allowed, spans)
    ensures Layable(spans)
  {
    forall s | s in spans ensures Fits(if allowed(0) then Briefs else NoEmpties, s.Times()) {
      assert allowed(s.end - s.start);
    }
  }

  lemma {:induction false} AnyOrderIncludesSorted(allowed: int -> bool)
    requires SafeInAnyOrder(allowed)
    ensures SafeWhenSorted(allowed)
  {
    forall roots: seq<seq<Span>>, smg: seq<Span> | LengthsIn(allowed, Flatten(roots) + smg)
      ensures NoOverlap(LayTrace(SortRequests(roots), SortBy(smg, StartKey)).log)
    {
      SortKeepsSpans(roots);
      var before, after := Flatten(roots) + smg, Flatten(SortRequests(roots)) + SortBy(smg, StartKey);
      assert multiset(before) == multiset(after);
      forall s | s in after ensures allowed(s.end - s.start) {
        assert s in multiset(after) && s in multiset(before);
      }
    }
  }

  lemma {:induction false} OneRequestSorted(r: seq<Span>)
    requires SortBy(r, StartKey) == r
    ensures SortRequests([r]) == [r] && Flatten([r]) == r
  {
    assert EachSorted([r]) == [r] && [r][1..] == [] && [r][..0] == [];
    assert SortBy<seq<Span>>([], FirstStart) == [];
  }

  lemma {:induction false} OneRequestRefutes(allowed: int -> bool, r: seq<Span>)
    requires SortBy(r, StartKey) == r && LengthsIn(allowed, r) && !NoOverlap(LayTrace([r], []).log)
    ensures !SafeWhenSorted(allowed)
  {
    OneRequestSorted(r);
    assert r + [] == r && SortBy<Span>([], StartKey) == [];
    assert LengthsIn(allowed, Flatten([r]) + []);
  }

  lemma {:induction false} LengthsOfThree(allowed: int -> bool, a: Span, b: Span, c: Span)
    requires allowed(a.end - a.start) && allowed(b.end - b.start) && allowed(c.end - c.start)
    ensures LengthsIn(allowed, [a, b, c])
  {
    forall s | s in [a, b, c] ensures allowed(s.end - s.start) { assert s == a || s == b || s == c; }
  }

  // One request, in order of start, of spans with no or n instants, that is laid out wrongly.
  lemma {:induction false} HiddenRequest(allowed: int -> bool, n: int) returns (r: seq<Span>)
    requires allowed(0) && allowed(n) && n >= 3
    ensures |r| == 3 && r[0].start <= r[1].start <= r[2].start && LengthsIn(allowed, r)
    ensures !NoOverlap(LayTrace([r], []).log)
  {
    var a, b, c := Span(0, Engine(0), 0, n), Span(1, Engine(0), 1, 1), Span(2, Engine(0), 2, n + 2);
    LengthsOfThree(allowed, a, b, c);
    ZeroLengthHides(a, b, c, n);
    r := [a, b, c];
  }

  lemma {:induction false} UnsafeLengths(allowed: int -> bool)
    requires !SafeLengths(allowed)
    ensures !SafeWhenSorted(allowed)
  {
    var n :| allowed(n) && n >= 3;
    var r := HiddenRequest(allowed, n);
    SortedStays(r, StartKey);
    OneRequestRefutes(allowed, r);
  }

  // Layouts of spans with the allowed lengths are all free of overlaps, in the converter's
  // order or any other, exactly when no span may be empty or none may cover three instants.
  lemma {:induction false} SafeExactlyFor(allowed: int -> bool)
    ensures SafeInAnyOrder(allowed) <==> SafeLengths(allowed)
    ensures SafeWhenSorted(allowed) <==> SafeLengths(allowed)
  {
    if SafeLengths(allowed) {
      forall requests: seq<seq<Span>>, smg: seq<Span> | LengthsIn(allowed, Flatten(requests) + smg)
        ensures NoOverlap(LayTrace(requests, smg).log)
      {
        SafeLengthsLayable(allowed, Flatten(requests) + smg);
        LayTraceNeverOverlaps(requests, smg);
      }
      AnyOrderIncludesSorted(allowed);
    } else {
      UnsafeLengths(allowed);
      if SafeInAnyOrder(allowed) { AnyOrderIncludesSorted(allowed); }
    }
  }
}
