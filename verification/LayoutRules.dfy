// Where every span goes, said about the finished log alone: on the line its request last used
// on that process if there is room, else on the first line with room.
module LayoutRules {
  import opened Basics
  import opened SpanLine
  import opened SpanLayout

  // What a log has put on a line, in the order the line keeps it.
  ghost function LineSoFar(log: seq<Placement>, pid: Pid, line: nat): Line {
    if log == [] then []
    else
      var before, last := LineSoFar(log[..|log| - 1], pid, line), log[|log| - 1];
      if last.span.pid == pid && last.line == line then Insert(before, last.span.Times()) else before
  }

  // The line last used on a process.
  ghost function LastUsed(log: seq<Placement>, pid: Pid): Option<nat> {
    if log == [] then None
    else if log[|log| - 1].span.pid == pid then Some(log[|log| - 1].line)
    else LastUsed(log[..|log| - 1], pid)
  }

  ghost predicate HasRoom(log: seq<Placement>, s: Span, line: nat) {
    !Clash(LineSoFar(log, s.pid, line), s.Times())
  }

  // `before` is the log so far, `since` its part since the request began.
  ghost predicate ObeysRule(before: seq<Placement>, since: seq<Placement>, p: Placement) {
    var last := LastUsed(since, p.span.pid);
    if last.Some? && (p.span.start == p.span.end || HasRoom(before, p.span, last.value)) then p.line == last.value
    else p.line >= 1 && HasRoom(before, p.span, p.line) && forall line :: 1 <= line < p.line ==> !HasRoom(before, p.span, line)
  }

  // The board knows its lines and the lines last used.
  ghost predicate Tracked(b: Board, since: seq<Placement>) {
    && (forall pid: Pid, line: nat {:trigger LineSoFar(b.log, pid, line)} :: line >= 1 ==>
          LineAt(LinesOf(b.graph, pid), line) == LineSoFar(b.log, pid, line))
    && (forall pid: Pid {:trigger LastUsed(since, pid)} :: LastUsed(since, pid) == if pid in b.status then Some(b.status[pid]) else None)
    && StatusFits(b.graph, b.status)
  }

  lemma {:induction false} LineSoFarSnoc(log: seq<Placement>, p: Placement, pid: Pid, line: nat)
    ensures LineSoFar(log + [p], pid, line) ==
      if p.span.pid == pid && p.line == line then Insert(LineSoFar(log, pid, line), p.span.Times()) else LineSoFar(log, pid, line)
  {
    assert (log + [p])[..|log|] == log;
  }

  lemma {:induction false} LastUsedSnoc(log: seq<Placement>, p: Placement, pid: Pid)
    ensures LastUsed(log + [p], pid) == if p.span.pid == pid then Some(p.line) else LastUsed(log, pid)
  {
    assert (log + [p])[..|log|] == log;
  }

  function PlacedNext(b: Board, s: Span): Placement {
    Placement(s, ChooseLine(b.graph, b.status, s.pid, s.Times()))
  }

  // The lines of one process, as the log has filled them.
  ghost predicate LinesMatch(log: seq<Placement>, pid: Pid, lines: seq<Line>) {
    forall line: nat :: line >= 1 ==> LineAt(lines, line) == LineSoFar(log, pid, line)
  }

  lemma {:induction false} FirstFitObeys(log: seq<Placement>, s: Span, lines: seq<Line>)
    requires LinesMatch(log, s.pid, lines)
    ensures var line := FirstFree(lines, s.Times()) + 1;
      HasRoom(log, s, line) && forall other :: 1 <= other < line ==> !HasRoom(log, s, other)
  {
    var k := FirstFree(lines, s.Times());
    assert LineAt(lines, k + 1) == LineSoFar(log, s.pid, k + 1);
    forall other | 1 <= other < k + 1 ensures !HasRoom(log, s, other) {
      assert lines[other - 1] == LineAt(lines, other) == LineSoFar(log, s.pid, other);
    }
  }

  lemma {:induction false} StepObeys(b: Board, since: seq<Placement>, s: Span)
    requires Tracked(b, since)
    ensures ObeysRule(b.log, since, PlacedNext(b, s))
  {
    var lines := LinesOf(b.graph, s.pid);
    FirstFitObeys(b.log, s, lines);
    if s.pid in b.status { assert LineAt(lines, b.status[s.pid]) == LineSoFar(b.log, s.pid, b.status[s.pid]); }
  }

  lemma {:induction false} StepTracked(b: Board, since: seq<Placement>, s: Span)
    requires Tracked(b, since)
    ensures Step(b, s).log == b.log + [PlacedNext(b, s)] && Tracked(Step(b, s), since + [PlacedNext(b, s)])
  {
    var p, t := PlacedNext(b, s), Step(b, s);
    StepFits(b, s);
    forall pid: Pid, line: nat | line >= 1 ensures LineAt(LinesOf(t.graph, pid), line) == LineSoFar(t.log, pid, line) {
      LineSoFarSnoc(b.log, p, pid, line);
      assert LineAt(LinesOf(b.graph, pid), line) == LineSoFar(b.log, pid, line);
      LineAfterStep(b, s, pid, line);
    }
    forall pid: Pid ensures LastUsed(since + [p], pid) == if pid in t.status then Some(t.status[pid]) else None {
      LastUsedSnoc(since, p, pid);
    }
  }

  lemma {:induction false} LineAfterStep(b: Board, s: Span, pid: Pid, line: nat)
    requires line >= 1
    ensures LineAt(LinesOf(Step(b, s).graph, pid), line) ==
      if s.pid == pid && PlacedNext(b, s).line == line then Insert(LineAt(LinesOf(b.graph, pid), line), s.Times())
      else LineAt(LinesOf(b.graph, pid), line)
  {
  }

  // --- A stream of one request ---

  // The log ends with these spans, from the given place on, each where the rule puts it.
  ghost predicate StreamObeys(log: seq<Placement>, from: nat, spans: seq<Span>)
    decreases |spans|
  {
    if spans == [] then |log| == from
    else
      && |log| == from + |spans| && StreamObeys(log[..|log| - 1], from, spans[..|spans| - 1])
      && log[|log| - 1].span == spans[|spans| - 1]
      && ObeysRule(log[..|log| - 1], log[from..|log| - 1], log[|log| - 1])
  }

  lemma {:induction false} StreamSnoc(log: seq<Placement>, from: nat, spans: seq<Span>, p: Placement)
    requires StreamObeys(log, from, spans) && ObeysRule(log, log[from..], p) && |log| == from + |spans|
    ensures StreamObeys(log + [p], from, spans + [p.span])
  {
    var log' := log + [p];
    assert log'[..|log|] == log && log'[from..|log|] == log[from..] && (spans + [p.span])[..|spans|] == spans;
  }

  lemma {:induction false} StreamAt(log: seq<Placement>, from: nat, spans: seq<Span>, i: nat)
    requires StreamObeys(log, from, spans) && i < |spans|
    ensures |log| == from + |spans| && log[from + i].span == spans[i]
    ensures ObeysRule(log[..from + i], log[from..from + i], log[from + i])
    decreases |spans|
  {
    if i < |spans| - 1 {
      var short := log[..|log| - 1];
      StreamAt(short, from, spans[..|spans| - 1], i);
      assert short[..from + i] == log[..from + i] && short[from..from + i] == log[from..from + i];
    }
  }

  // What laying out a request's spans from a log has come to.
  ghost predicate StreamDone(start: seq<Placement>, spans: seq<Span>, b: Board) {
    start <= b.log && |b.log| == |start| + |spans| && StreamObeys(b.log, |start|, spans) && Tracked(b, b.log[|start|..])
  }

  lemma {:induction false} StreamStart(b: Board)
    requires Tracked(b, [])
    ensures StreamDone(b.log, [], b)
  {
    assert b.log[|b.log|..] == [];
  }

  lemma {:induction false} StreamStep(start: seq<Placement>, spans: seq<Span>, mid: Board, t: Board)
    requires spans != [] && StreamDone(start, spans[..|spans| - 1], mid) && t == Step(mid, spans[|spans| - 1])
    ensures StreamDone(start, spans, t)
  {
    var init, s := spans[..|spans| - 1], spans[|spans| - 1];
    var since, p := mid.log[|start|..], PlacedNext(mid, s);
    StepObeys(mid, since, s);
    StepTracked(mid, since, s);
    StreamSnoc(mid.log, |start|, init, p);
    assert (mid.log + [p])[|start|..] == since + [p] && spans == init + [s];
  }

  lemma {:induction false} StreamRule(b: Board, start: seq<Placement>, spans: seq<Span>) returns (t: Board)
    requires StreamDone(start, [], b)
    ensures t == StepAll(b, spans) && StreamDone(start, spans, t)
  {
    if spans == [] {
      t := b;
    } else {
      var mid := StreamRule(b, start, spans[..|spans| - 1]);
      t := Step(mid, spans[|spans| - 1]);
      StreamStep(start, spans, mid, t);
    }
  }

  // --- Whole layouts ---

  ghost function Offset(groups: seq<seq<Span>>, r: nat): nat
    requires r <= |groups|
  {
    |Flatten(groups[..r])|
  }

  // The i-th span of group r goes where the rule says, given all spans before it.
  ghost predicate RuleAt(groups: seq<seq<Span>>, log: seq<Placement>, r: nat, i: nat)
    requires r < |groups| && i < |groups[r]|
  {
    var from := Offset(groups, r);
    && from + i < |log| && log[from + i].span == groups[r][i]
    && ObeysRule(log[..from + i], log[from..from + i], log[from + i])
  }

  ghost predicate RuleHolds(groups: seq<seq<Span>>, log: seq<Placement>) {
    |log| == Offset(groups, |groups|) && forall r, i :: 0 <= r < |groups| && 0 <= i < |groups[r]| ==> RuleAt(groups, log, r, i)
  }

  // More groups do not disturb the ones before.
  lemma {:induction false} EarlierRule(groups: seq<seq<Span>>, log: seq<Placement>, group: seq<Span>, more: seq<Placement>, r: nat, i: nat)
    requires r < |groups| && i < |groups[r]| && RuleAt(groups, log, r, i) && log <= more
    ensures RuleAt(groups + [group], more, r, i)
  {
    var from := Offset(groups, r);
    assert (groups + [group])[..r] == groups[..r];
    assert more[..from + i] == log[..from + i] && more[from..from + i] == log[from..from + i];
  }

  lemma {:induction false} RuleSnoc(groups: seq<seq<Span>>, log: seq<Placement>, group: seq<Span>, more: seq<Placement>)
    requires RuleHolds(groups, log) && log <= more && |more| == |log| + |group| && StreamObeys(more, |log|, group)
    ensures RuleHolds(groups + [group], more)
  {
    var all := groups + [group];
    assert all[..|groups|] == groups && all[..|all|] == all && groups[..|groups|] == groups;
    forall r, i | 0 <= r < |all| && 0 <= i < |all[r]| ensures RuleAt(all, more, r, i) {
      if r < |groups| {
        EarlierRule(groups, log, group, more, r, i);
      } else {
        StreamAt(more, |log|, group, i);
      }
    }
  }

  lemma {:induction false} FreshTracked(b: Board, since: seq<Placement>)
    requires Tracked(b, since)
    ensures Tracked(b.(status := map[]), [])
  {
  }

  lemma {:induction false} GroupRule(groups: seq<seq<Span>>, done: Board, since: seq<Placement>, group: seq<Span>)
    returns (t: Board, since': seq<Placement>)
    requires RuleHolds(groups, done.log) && Tracked(done, since)
    ensures t == StepAll(done.(status := map[]), group) && RuleHolds(groups + [group], t.log) && Tracked(t, since')
  {
    FreshTracked(done, since);
    StreamStart(done.(status := map[]));
    t := StreamRule(done.(status := map[]), done.log, group);
    RuleSnoc(groups, done.log, group, t.log);
    since' := t.log[|done.log|..];
  }

  lemma {:induction false} RequestsRule(groups: seq<seq<Span>>) returns (t: Board, since: seq<Placement>)
    ensures t == LayRequests(EMPTY_BOARD, groups) && RuleHolds(groups, t.log) && Tracked(t, since)
  {
    if groups == [] {
      t, since := EMPTY_BOARD, [];
    } else {
      var init, group := groups[..|groups| - 1], groups[|groups| - 1];
      t, since := RequestsRule(init);
      t, since := GroupRule(init, t, since, group);
      assert groups == init + [group];
    }
  }

  // Every placement of every layout obeys the rule; the gateway's stream is one more group.
  lemma {:induction false} LayTraceRule(requests: seq<seq<Span>>, smg: seq<Span>)
    ensures RuleHolds(requests + [smg], LayTrace(requests, smg).log)
  {
    var t, since := RequestsRule(requests + [smg]);
    assert (requests + [smg])[..|requests|] == requests;
  }
}
