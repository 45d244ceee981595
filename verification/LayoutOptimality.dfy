// Start-ordered streams, such as the gateway's, use as few lines as any layout could.
module LayoutOptimality {
  import opened SpanLine
  import opened SpanLayout

  // How many spans are running at instant t.
  function Depth(spans: seq<Span>, t: int): nat {
    if spans == [] then 0
    else Depth(spans[..|spans| - 1], t) + if Covers(spans[|spans| - 1].Times(), t) then 1 else 0
  }

  ghost predicate BusyAt(line: Line, t: int) {
    exists i :: 0 <= i < |line| && Covers(line[i], t)
  }

  ghost function BusyLines(lines: seq<Line>, t: int): (n: nat)
    ensures n <= |lines|
  {
    if lines == [] then 0
    else BusyLines(lines[..|lines| - 1], t) + if BusyAt(lines[|lines| - 1], t) then 1 else 0
  }

  predicate OrderedByStart(spans: seq<Span>) {
    forall i, j :: 0 <= i < j < |spans| ==> spans[i].start <= spans[j].start
  }

  ghost predicate AllPositive(spans: seq<Span>) {
    forall s :: s in spans ==> Positive(s.Times())
  }

  ghost predicate AllTidy(lines: seq<Line>) {
    forall k :: 0 <= k < |lines| ==> Tidy(lines[k])
  }

  ghost predicate StartsBy(lines: seq<Line>, t: int) {
    forall k, i :: 0 <= k < |lines| && 0 <= i < |lines[k]| ==> lines[k][i].start <= t
  }

  // Making one idle line busy adds one.
  lemma {:induction false} BusyLinesWith(lines: seq<Line>, line: nat, contents: Line, t: int)
    requires 1 <= line <= |lines| + 1
    requires BusyAt(LineAt(lines, line), t) ==> BusyAt(contents, t)
    ensures BusyLines(WithLine(lines, line, contents), t) ==
            BusyLines(lines, t) + if BusyAt(contents, t) && !BusyAt(LineAt(lines, line), t) then 1 else 0
  {
    var after := WithLine(lines, line, contents);
    var last := |after| - 1;
    if line == |lines| + 1 {
      assert after[..last] == lines;
    } else if line == |lines| {
      assert after[..last] == lines[..|lines| - 1];
    } else {
      BusyLinesWith(lines[..last], line, contents, t);
      assert after[..last] == WithLine(lines[..last], line, contents);
      assert LineAt(lines[..last], line) == LineAt(lines, line);
    }
  }

  lemma {:induction false} AllBusy(lines: seq<Line>, t: int)
    requires forall k :: 0 <= k < |lines| ==> BusyAt(lines[k], t)
    ensures BusyLines(lines, t) == |lines|
  {
    if lines != [] { AllBusy(lines[..|lines| - 1], t); }
  }

  // A clash with a span that starts last is a clash at its very start.
  lemma {:induction false} ClashAtStart(line: Line, a: Interval)
    requires Tidy(line) && Positive(a) && Clash(line, a)
    requires forall i :: 0 <= i < |line| ==> line[i].start <= a.start
    ensures BusyAt(line, a.start)
  {
    ClashIsExact(line, a);
    var i :| 0 <= i < |line| && Overlap(line[i], a);
    OverlapBounds(line[i], a);
    assert Covers(line[i], a.start);
  }

  lemma {:induction false} BusyMember(line: Line, t: int)
    ensures BusyAt(line, t) <==> exists c :: c in line && Covers(c, t)
  {
    if c :| c in line && Covers(c, t) {
      var i :| 0 <= i < |line| && line[i] == c;
    }
    if BusyAt(line, t) {
      var i :| 0 <= i < |line| && Covers(line[i], t);
      assert line[i] in line;
    }
  }

  lemma {:induction false} InsertBusy(line: Line, a: Interval, t: int)
    requires Tidy(line) && Positive(a) && !Clash(line, a)
    ensures BusyAt(Insert(line, a), t) <==> BusyAt(line, t) || Covers(a, t)
    ensures !(BusyAt(line, t) && Covers(a, t))
  {
    InsertContents(line, a);
    ClashIsExact(line, a);
    BusyMember(line, t);
    BusyMember(Insert(line, a), t);
  }

  // Tidy lines that are as busy, at every instant, as the spans laid out so far run at once.
  ghost predicate LinesTrack(lines: seq<Line>, spans: seq<Span>) {
    && AllTidy(lines)
    && (forall t :: Depth(spans, t) == BusyLines(lines, t))
    && (spans != [] ==> StartsBy(lines, spans[|spans| - 1].start))
    && (lines != [] ==> exists t :: Depth(spans, t) == |lines|)
    && (spans == [] <==> lines == [])
  }

  ghost predicate Tracks(b: Board, pid: Pid, spans: seq<Span>) {
    LinesTrack(LinesOf(b.graph, pid), spans)
  }

  function Filled(lines: seq<Line>, line: nat, a: Interval): seq<Line>
    requires 1 <= line <= |lines| + 1
  {
    WithLine(lines, line, Insert(LineAt(lines, line), a))
  }

  lemma {:induction false} StepStartsBy(lines: seq<Line>, line: nat, a: Interval, t: int)
    requires 1 <= line <= |lines| + 1 && StartsBy(lines, t) && t <= a.start
    ensures StartsBy(Filled(lines, line, a), a.start)
  {
    var contents := Insert(LineAt(lines, line), a);
    InsertContents(LineAt(lines, line), a);
    forall i | 0 <= i < |contents| ensures contents[i].start <= a.start {
      assert contents[i] in contents;
    }
  }

  lemma {:induction false} StepDepth(lines: seq<Line>, line: nat, spans: seq<Span>, s: Span, t: int)
    requires 1 <= line <= |lines| + 1 && Depth(spans, t) == BusyLines(lines, t)
    requires Tidy(LineAt(lines, line)) && Positive(s.Times()) && !Clash(LineAt(lines, line), s.Times())
    ensures Depth(spans + [s], t) == BusyLines(Filled(lines, line, s.Times()), t)
    ensures Depth(spans + [s], t) == Depth(spans, t) + if Covers(s.Times(), t) then 1 else 0
  {
    var current := LineAt(lines, line);
    assert (spans + [s])[..|spans|] == spans;
    InsertBusy(current, s.Times(), t);
    BusyLinesWith(lines, line, Insert(current, s.Times()), t);
  }

  // A new line is opened only when every line is busy at the span's start.
  lemma {:induction false} AllBusyAtStart(lines: seq<Line>, a: Interval)
    requires Positive(a) && StartsBy(lines, a.start)
    requires forall k :: 0 <= k < |lines| ==> Tidy(lines[k]) && Clash(lines[k], a)
    ensures BusyLines(lines, a.start) == |lines|
  {
    forall k | 0 <= k < |lines| ensures BusyAt(lines[k], a.start) {
      ClashAtStart(lines[k], a);
    }
    AllBusy(lines, a.start);
  }

  // What one placement means for the lines of its process.
  ghost predicate Placeable(lines: seq<Line>, line: nat, a: Interval) {
    && 1 <= line <= |lines| + 1 && Positive(a)
    && Tidy(LineAt(lines, line)) && !Clash(LineAt(lines, line), a)
    && (line == |lines| + 1 && StartsBy(lines, a.start) ==> BusyLines(lines, a.start) == |lines|)
  }

  lemma {:induction false} PeakReached(lines: seq<Line>, line: nat, spans: seq<Span>, s: Span, t: int)
    requires Placeable(lines, line, s.Times()) && Depth(spans, t) == BusyLines(lines, t) == |lines|
    requires line == |lines| + 1 ==> t == s.start
    ensures Depth(spans + [s], t) == |Filled(lines, line, s.Times())|
  {
    StepDepth(lines, line, spans, s, t);
    BusyAtMost(Filled(lines, line, s.Times()), t);
  }

  lemma {:induction false} FilledTidy(lines: seq<Line>, line: nat, a: Interval)
    requires AllTidy(lines) && Placeable(lines, line, a)
    ensures AllTidy(Filled(lines, line, a))
  {
    InsertKeepsTidy(LineAt(lines, line), a);
  }

  lemma {:induction false} FilledPeak(lines: seq<Line>, line: nat, spans: seq<Span>, s: Span)
    requires LinesTrack(lines, spans) && Placeable(lines, line, s.Times())
    requires spans != [] ==> spans[|spans| - 1].start <= s.start
    ensures exists t :: Depth(spans + [s], t) == |Filled(lines, line, s.Times())|
  {
    var t := s.start;
    if line <= |lines| { t :| Depth(spans, t) == |lines|; }
    PeakReached(lines, line, spans, s, t);
  }

  lemma {:induction false} LineStepTracks(lines: seq<Line>, line: nat, spans: seq<Span>, s: Span)
    requires LinesTrack(lines, spans) && Placeable(lines, line, s.Times())
    requires spans != [] ==> spans[|spans| - 1].start <= s.start
    ensures LinesTrack(Filled(lines, line, s.Times()), spans + [s])
  {
    forall t ensures Depth(spans + [s], t) == BusyLines(Filled(lines, line, s.Times()), t) {
      StepDepth(lines, line, spans, s, t);
    }
    FilledTidy(lines, line, s.Times());
    StepStartsBy(lines, line, s.Times(), if spans == [] then s.start else spans[|spans| - 1].start);
    FilledPeak(lines, line, spans, s);
  }

  lemma {:induction false} BusyAtMost(lines: seq<Line>, t: int)
    ensures BusyLines(lines, t) <= |lines|
  {
    if lines != [] { BusyAtMost(lines[..|lines| - 1], t); }
  }

  lemma {:induction false} ChosenPlaceable(b: Board, s: Span)
    requires AllTidy(LinesOf(b.graph, s.pid)) && Positive(s.Times())
    ensures Placeable(LinesOf(b.graph, s.pid), ChooseLine(b.graph, b.status, s.pid, s.Times()), s.Times())
  {
    var lines := LinesOf(b.graph, s.pid);
    ChosenIsFree(b, s);
    if ChooseLine(b.graph, b.status, s.pid, s.Times()) == |lines| + 1 && StartsBy(lines, s.start) {
      AllBusyAtStart(lines, s.Times());
    }
  }

  lemma {:induction false} StepTracks(b: Board, pid: Pid, spans: seq<Span>, s: Span)
    requires Tracks(b, pid, spans) && s.pid == pid && Positive(s.Times())
    requires spans != [] ==> spans[|spans| - 1].start <= s.start
    ensures Tracks(Step(b, s), pid, spans + [s])
  {
    ChosenPlaceable(b, s);
    LineStepTracks(LinesOf(b.graph, pid), ChooseLine(b.graph, b.status, pid, s.Times()), spans, s);
  }

  lemma {:induction false} StepAllTracks(b: Board, pid: Pid, spans: seq<Span>)
    requires LinesOf(b.graph, pid) == []
    requires AllPositive(spans) && OrderedByStart(spans) && forall s :: s in spans ==> s.pid == pid
    ensures Tracks(StepAll(b, spans), pid, spans)
  {
    if spans != [] {
      var init, s := spans[..|spans| - 1], spans[|spans| - 1];
      assert init + [s] == spans;
      StepAllTracks(b, pid, init);
      var mid := StepAll(b, init);
      assert StepAll(b, spans) == Step(mid, s);
      StepTracks(mid, pid, init, s);
    }
  }

  // The lines occupied at instant t by spans laid out on the given lines.
  ghost function LinesInUse(log: seq<Placement>, t: int): set<nat> {
    set i | 0 <= i < |log| && Covers(log[i].span.Times(), t) :: log[i].line
  }

  lemma {:induction false} LinesInUseSnoc(init: seq<Placement>, p: Placement, t: int)
    ensures LinesInUse(init + [p], t) == LinesInUse(init, t) + if Covers(p.span.Times(), t) then {p.line} else {}
  {
    var log := init + [p];
    forall n | n in LinesInUse(init, t) ensures n in LinesInUse(log, t) {
      var i :| 0 <= i < |init| && Covers(init[i].span.Times(), t) && init[i].line == n;
      assert log[i] == init[i];
    }
    assert log[|init|] == p;
  }

  lemma {:induction false} OwnLine(init: seq<Placement>, p: Placement, pid: Pid, t: int)
    requires NoOverlap(init + [p]) && forall q :: q in init + [p] ==> q.span.pid == pid
    requires Covers(p.span.Times(), t)
    ensures p.line !in LinesInUse(init, t)
  {
    var log := init + [p];
    forall i | 0 <= i < |init| && Covers(init[i].span.Times(), t) ensures init[i].line != p.line {
      assert log[i] == init[i] && log[|init|] == p && log[i] in log && p in log;
      assert !SameLine(log[i], p) || !Overlap(log[i].span.Times(), p.span.Times());
    }
  }

  // Any overlap-free layout of one process needs a line per running span.
  lemma {:induction false} LinesNeeded(log: seq<Placement>, pid: Pid, t: int)
    requires NoOverlap(log) && forall p :: p in log ==> p.span.pid == pid
    ensures |LinesInUse(log, t)| == Depth(SpansOf(log), t)
  {
    if log != [] {
      var init, p := log[..|log| - 1], log[|log| - 1];
      LinesNeeded(init, pid, t);
      assert SpansOf(log)[..|log| - 1] == SpansOf(init) && log == init + [p];
      LinesInUseSnoc(init, p, t);
      if Covers(p.span.Times(), t) { OwnLine(init, p, pid, t); }
    }
  }

  // On a fresh process a start-ordered stream opens exactly as many lines as spans
  // that ever run at once.
  lemma {:induction false} FirstFitIsOptimal(b: Board, pid: Pid, spans: seq<Span>)
    requires LinesOf(b.graph, pid) == []
    requires AllPositive(spans) && OrderedByStart(spans) && forall s :: s in spans ==> s.pid == pid
    ensures var n := |LinesOf(StepAll(b, spans).graph, pid)|;
      && (forall t :: Depth(spans, t) <= n)
      && (exists t :: Depth(spans, t) == n)
  {
    StepAllTracks(b, pid, spans);
    var lines := LinesOf(StepAll(b, spans).graph, pid);
    forall t ensures Depth(spans, t) <= |lines| {
      assert Depth(spans, t) == BusyLines(lines, t);
    }
    if lines == [] { assert Depth(spans, 0) == 0; }
  }

  lemma {:induction false} NoLayoutUsesFewer(b: Board, pid: Pid, spans: seq<Span>, rival: seq<Placement>)
    requires LinesOf(b.graph, pid) == []
    requires AllPositive(spans) && OrderedByStart(spans) && forall s :: s in spans ==> s.pid == pid
    requires NoOverlap(rival) && SpansOf(rival) == spans
    ensures exists t :: |LinesInUse(rival, t)| == |LinesOf(StepAll(b, spans).graph, pid)|
  {
    FirstFitIsOptimal(b, pid, spans);
    var t :| Depth(spans, t) == |LinesOf(StepAll(b, spans).graph, pid)|;
    forall p | p in rival ensures p.span.pid == pid {
      var i :| 0 <= i < |rival| && rival[i] == p;
      assert SpansOf(rival)[i] == p.span && p.span in spans;
    }
    LinesNeeded(rival, pid, t);
  }

  // --- Which lengths leave no line to spare ---

  // All lines a layout uses.
  ghost function LinesUsed(log: seq<Placement>): set<nat> {
    set i | 0 <= i < |log| :: log[i].line
  }

  // A start-ordered stream on a process that has no lines yet.
  ghost predicate FreshStream(allowed: int -> bool, b: Board, pid: Pid, spans: seq<Span>) {
    && LinesOf(b.graph, pid) == [] && OrderedByStart(spans) && LengthsIn(allowed, spans)
    && forall s :: s in spans ==> s.pid == pid
  }

  ghost predicate RivalOf(spans: seq<Span>, rival: seq<Placement>) {
    NoOverlap(rival) && SpansOf(rival) == spans
  }

  ghost predicate Frugal(allowed: int -> bool) {
    forall b, pid, spans, rival :: FreshStream(allowed, b, pid, spans) && RivalOf(spans, rival) ==>
      |LinesOf(StepAll(b, spans).graph, pid)| <= |LinesUsed(rival)|
  }

  // The lines opened are as many as spans ever run at once.
  ghost predicate MeetsPeak(allowed: int -> bool) {
    forall b, pid, spans :: FreshStream(allowed, b, pid, spans) ==>
      exists t :: Depth(spans, t) == |LinesOf(StepAll(b, spans).graph, pid)|
  }

  ghost predicate OnlyPositive(allowed: int -> bool) {
    forall n :: allowed(n) ==> n > 0
  }

  ghost predicate OnlyNonpositive(allowed: int -> bool) {
    forall n :: allowed(n) ==> n <= 0
  }

  lemma {:induction false} PositiveLengths(allowed: int -> bool, spans: seq<Span>)
    requires OnlyPositive(allowed) && LengthsIn(allowed, spans)
    ensures AllPositive(spans)
  {
    forall s | s in spans ensures Positive(s.Times()) { assert allowed(s.end - s.start); }
  }

  lemma {:induction false} InUseIsUsed(log: seq<Placement>, t: int)
    ensures |LinesInUse(log, t)| <= |LinesUsed(log)|
  {
    Subset(LinesInUse(log, t), LinesUsed(log));
  }

  lemma {:induction false} Subset(a: set<nat>, b: set<nat>)
    requires a <= b
    ensures |a| <= |b|
  {
    assert b == a + (b - a);
  }

  lemma {:induction false} PositiveIsFrugal(allowed: int -> bool, b: Board, pid: Pid, spans: seq<Span>, rival: seq<Placement>)
    requires OnlyPositive(allowed) && FreshStream(allowed, b, pid, spans) && RivalOf(spans, rival)
    ensures |LinesOf(StepAll(b, spans).graph, pid)| <= |LinesUsed(rival)|
  {
    PositiveLengths(allowed, spans);
    NoLayoutUsesFewer(b, pid, spans, rival);
    var t :| |LinesInUse(rival, t)| == |LinesOf(StepAll(b, spans).graph, pid)|;
    InUseIsUsed(rival, t);
  }

  // Spans that cover nothing never clash with each other, so they share one line.
  ghost predicate Hollow(line: Line) {
    forall i :: 0 <= i < |line| ==> !Positive(line[i])
  }

  lemma {:induction false} HollowNeverClashes(line: Line, a: Interval)
    requires Hollow(line) && !Positive(a)
    ensures !Clash(line, a) && Hollow(Insert(line, a))
  {
  }

  ghost predicate OneHollowLine(lines: seq<Line>) {
    |lines| <= 1 && forall k :: 0 <= k < |lines| ==> Hollow(lines[k])
  }

  lemma {:induction false} HollowStep(b: Board, s: Span)
    requires OneHollowLine(LinesOf(b.graph, s.pid)) && !Positive(s.Times())
    ensures OneHollowLine(LinesOf(Step(b, s).graph, s.pid))
  {
    var lines := LinesOf(b.graph, s.pid);
    HollowNeverClashes(LineAt(lines, 1), s.Times());
    assert ChooseLine(b.graph, b.status, s.pid, s.Times()) == 1;
  }

  lemma {:induction false} HollowStream(b: Board, pid: Pid, spans: seq<Span>)
    requires LinesOf(b.graph, pid) == [] && forall s :: s in spans ==> s.pid == pid && !Positive(s.Times())
    ensures OneHollowLine(LinesOf(StepAll(b, spans).graph, pid))
  {
    if spans != [] {
      HollowStream(b, pid, spans[..|spans| - 1]);
      HollowStep(StepAll(b, spans[..|spans| - 1]), spans[|spans| - 1]);
    }
  }

  lemma {:induction false} NonpositiveIsFrugal(allowed: int -> bool, b: Board, pid: Pid, spans: seq<Span>, rival: seq<Placement>)
    requires OnlyNonpositive(allowed) && FreshStream(allowed, b, pid, spans) && RivalOf(spans, rival)
    ensures |LinesOf(StepAll(b, spans).graph, pid)| <= |LinesUsed(rival)|
  {
    forall s | s in spans ensures !Positive(s.Times()) { assert allowed(s.end - s.start); }
    HollowStream(b, pid, spans);
    if spans != [] {
      assert |SpansOf(rival)| == |rival|;
      assert rival[0].line in LinesUsed(rival);
    }
  }

  // On an empty board the stream opens more lines than the rival layout.
  ghost predicate Wasted(spans: seq<Span>, rival: seq<Placement>) {
    RivalOf(spans, rival) && |LinesUsed(rival)| < |LinesOf(StepAll(EMPTY_BOARD, spans).graph, Smg)|
  }

  // A span that covers nothing, then one that does, from the same instant: two lines are
  // opened where one is enough.
  lemma {:induction false} HollowThenReal(a: Span, c: Span) returns (rival: seq<Placement>)
    requires a.pid == c.pid == Smg && a.end <= a.start == c.start < c.end
    ensures Wasted([a, c], rival)
  {
    rival := TogetherOnOne(a, c);
    TwoLines(EMPTY_BOARD, a, c);
  }

  lemma {:induction false} TwoLines(b: Board, a: Span, c: Span)
    requires LinesOf(b.graph, Smg) == [] && a.pid == c.pid == Smg && a.end <= a.start == c.start < c.end
    ensures |LinesOf(StepAll(b, [a, c]).graph, Smg)| == 2
  {
    TwoSteps(b, a, c);
    OpensFirst(b, a);
    assert Clash([a.Times()], c.Times());
    ClashOpensLine(Step(b, a), c, [a.Times()]);
  }

  lemma {:induction false} OpensFirst(b: Board, s: Span)
    requires LinesOf(b.graph, s.pid) == []
    ensures LinesOf(Step(b, s).graph, s.pid) == [[s.Times()]]
  {
    assert Insert([], s.Times()) == [s.Times()];
    assert ChooseLine(b.graph, b.status, s.pid, s.Times()) == 1;
    assert WithLine([], 1, [s.Times()]) == [[s.Times()]];
  }

  lemma {:induction false} TwoSteps(b: Board, a: Span, c: Span)
    ensures StepAll(b, [a, c]) == Step(Step(b, a), c)
  {
    StepAllSnoc(b, [], a);
    StepAllSnoc(b, [a], c);
    assert [] + [a] == [a] && [a] + [c] == [a, c];
  }

  // A span that covers nothing can share a line with any other.
  lemma {:induction false} TogetherOnOne(a: Span, c: Span) returns (rival: seq<Placement>)
    requires !Positive(a.Times())
    ensures RivalOf([a, c], rival) && |LinesUsed(rival)| == 1
  {
    rival := [Placement(a, 1), Placement(c, 1)];
    OverlapBounds(a.Times(), c.Times());
    forall n ensures n in LinesUsed(rival) <==> n == 1 {
      assert rival[0].line == 1;
    }
    assert LinesUsed(rival) == {1};
  }

  lemma {:induction false} ClashOpensLine(b: Board, s: Span, line: Line)
    requires LinesOf(b.graph, s.pid) == [line] && Clash(line, s.Times()) && s.start != s.end
    ensures |LinesOf(Step(b, s).graph, s.pid)| == 2
  {
    assert ChooseLine(b.graph, b.status, s.pid, s.Times()) == 2;
  }

  lemma {:induction false} TwoAreFresh(allowed: int -> bool, a: Span, c: Span)
    requires a.pid == c.pid == Smg && a.start <= c.start && allowed(a.end - a.start) && allowed(c.end - c.start)
    ensures FreshStream(allowed, EMPTY_BOARD, Smg, [a, c])
  {
    forall s | s in [a, c] ensures s.pid == Smg && allowed(s.end - s.start) { assert s == a || s == c; }
  }

  lemma {:induction false} MixedIsWasteful(allowed: int -> bool) returns (spans: seq<Span>, rival: seq<Placement>)
    requires !OnlyPositive(allowed) && !OnlyNonpositive(allowed)
    ensures FreshStream(allowed, EMPTY_BOARD, Smg, spans) && Wasted(spans, rival)
  {
    var q, p :| allowed(q) && q <= 0 && allowed(p) && p > 0;
    var a, c := Span(0, Smg, 0, q), Span(1, Smg, 0, p);
    rival := HollowThenReal(a, c);
    TwoAreFresh(allowed, a, c);
    spans := [a, c];
  }

  // First fit uses no more lines than any overlap-free layout, on every start-ordered stream
  // with the allowed lengths, exactly when all of them are positive or none is.
  lemma {:induction false} FrugalExactlyFor(allowed: int -> bool)
    ensures Frugal(allowed) <==> OnlyPositive(allowed) || OnlyNonpositive(allowed)
  {
    if OnlyPositive(allowed) || OnlyNonpositive(allowed) {
      forall b, pid, spans, rival | FreshStream(allowed, b, pid, spans) && RivalOf(spans, rival)
        ensures |LinesOf(StepAll(b, spans).graph, pid)| <= |LinesUsed(rival)|
      {
        if OnlyPositive(allowed) {
          PositiveIsFrugal(allowed, b, pid, spans, rival);
        } else {
          NonpositiveIsFrugal(allowed, b, pid, spans, rival);
        }
      }
    } else {
      var spans, rival := MixedIsWasteful(allowed);
    }
  }

  // A span that covers nothing takes a line although nothing ever runs.
  lemma {:induction false} HollowMissesPeak(allowed: int -> bool, q: int)
    requires allowed(q) && q <= 0
    ensures !MeetsPeak(allowed)
  {
    var a := Span(0, Smg, 0, q);
    HollowAlone(a);
    assert FreshStream(allowed, EMPTY_BOARD, Smg, [a]);
  }

  lemma {:induction false} HollowAlone(a: Span)
    requires !Positive(a.Times())
    ensures |LinesOf(StepAll(EMPTY_BOARD, [a]).graph, a.pid)| == 1 && forall t :: Depth([a], t) == 0
  {
    assert [a][..0] == [] && StepAll(EMPTY_BOARD, [a]) == Step(EMPTY_BOARD, a);
    FirstStep(a);
    forall t ensures Depth([a], t) == 0 { assert Depth([a], t) == Depth([a][..0], t); }
  }

  // The number of lines is the peak, for every such stream, exactly for positive lengths.
  lemma {:induction false} PeakExactlyFor(allowed: int -> bool)
    ensures MeetsPeak(allowed) <==> OnlyPositive(allowed)
  {
    if OnlyPositive(allowed) {
      forall b, pid, spans | FreshStream(allowed, b, pid, spans)
        ensures exists t :: Depth(spans, t) == |LinesOf(StepAll(b, spans).graph, pid)|
      {
        PositiveLengths(allowed, spans);
        FirstFitIsOptimal(b, pid, spans);
      }
    } else {
      var q :| allowed(q) && q <= 0;
      HollowMissesPeak(allowed, q);
    }
  }
}
