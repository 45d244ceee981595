// Placement of spans on the numbered lines of each process: the sticky-then-first-fit
// choice of a line, and its effect over whole layout runs.
module SpanLayout {
  import opened SpanLine

  // Engine processes are numbered; the gateway process is the literal "smg".
  datatype Pid = Engine(number: int) | Smg

  datatype Span = Span(id: nat, pid: Pid, start: int, end: int) {
    function Times(): Interval { Interval(start, end) }
  }

  datatype Placement = Placement(span: Span, line: nat)

  type Graph = map<Pid, seq<Line>>

  // The layout so far: all lines, the line the current request last used on each
  // process, and every span placed with its line number (lines count from 1).
  datatype Board = Board(graph: Graph, status: map<Pid, nat>, log: seq<Placement>)

  function LinesOf(g: Graph, pid: Pid): seq<Line> {
    if pid in g then g[pid] else []
  }

  function FirstFree(lines: seq<Line>, a: Interval): (k: nat)
    ensures k <= |lines|
    ensures forall i :: 0 <= i < k ==> Clash(lines[i], a)
    ensures k < |lines| ==> !Clash(lines[k], a)
  {
    if lines == [] || !Clash(lines[0], a) then 0 else 1 + FirstFree(lines[1..], a)
  }

  // Remembered lines exist; StepFits shows that every step keeps it so.
  predicate StatusFits(g: Graph, status: map<Pid, nat>) {
    forall p :: p in status ==> 1 <= status[p] <= |LinesOf(g, p)|
  }

  predicate Sticks(g: Graph, status: map<Pid, nat>, pid: Pid, a: Interval)
  {
    pid in status && 1 <= status[pid] <= |LinesOf(g, pid)| && (a.start == a.end || !Clash(LinesOf(g, pid)[status[pid] - 1], a))
  }

  function ChooseLine(g: Graph, status: map<Pid, nat>, pid: Pid, a: Interval): (line: nat)
    ensures 1 <= line <= |LinesOf(g, pid)| + 1
  {
    if Sticks(g, status, pid, a) then status[pid] else FirstFree(LinesOf(g, pid), a) + 1
  }

  function LineAt(lines: seq<Line>, line: nat): Line {
    if 1 <= line <= |lines| then lines[line - 1] else []
  }

  // Replaces line `line`, opening it when it is one past the last.
  function WithLine(lines: seq<Line>, line: nat, contents: Line): (lines': seq<Line>)
    requires 1 <= line <= |lines| + 1
    ensures |lines'| == if line <= |lines| then |lines| else line
    ensures lines'[line - 1] == contents
  {
    if line <= |lines| then lines[line - 1 := contents] else lines + [contents]
  }

  function Record(b: Board, s: Span, line: nat, contents: Line): Board
    requires 1 <= line <= |LinesOf(b.graph, s.pid)| + 1
  {
    Board(b.graph[s.pid := WithLine(LinesOf(b.graph, s.pid), line, contents)],
          b.status[s.pid := line],
          b.log + [Placement(s, line)])
  }

  function Step(b: Board, s: Span): Board {
    var line := ChooseLine(b.graph, b.status, s.pid, s.Times());
    var contents := Insert(LineAt(LinesOf(b.graph, s.pid), line), s.Times());
    Record(b, s, line, contents)
  }

  function StepAll(b: Board, spans: seq<Span>): Board {
    if spans == [] then b else Step(StepAll(b, spans[..|spans| - 1]), spans[|spans| - 1])
  }

  // Each request starts with no remembered line.
  function LayRequests(b: Board, requests: seq<seq<Span>>): Board {
    if requests == [] then b
    else
      var done := LayRequests(b, requests[..|requests| - 1]);
      StepAll(done.(status := map[]), requests[|requests| - 1])
  }

  lemma {:induction false} StepFits(b: Board, s: Span)
    requires StatusFits(b.graph, b.status)
    ensures StatusFits(Step(b, s).graph, Step(b, s).status)
  {
  }

  const EMPTY_BOARD := Board(map[], map[], [])

  function LayTrace(requests: seq<seq<Span>>, smg: seq<Span>): Board {
    StepAll(LayRequests(EMPTY_BOARD, requests).(status := map[]), smg)
  }

  // --- What a board means ---

  ghost predicate Holds(g: Graph, p: Placement) {
    && 1 <= p.line <= |LinesOf(g, p.span.pid)|
    && p.span.Times() in LinesOf(g, p.span.pid)[p.line - 1]
  }

  ghost predicate Placed(log: seq<Placement>, pid: Pid, line: nat, a: Interval) {
    exists s: Span :: s.pid == pid && s.Times() == a && Placement(s, line) in log
  }

  // Every placement is stored on its line, and every stored interval comes from a placement.
  ghost predicate Mirrors(b: Board) {
    && (forall p :: p in b.log ==> Holds(b.graph, p))
    && (forall pid, k, a :: 0 <= k < |LinesOf(b.graph, pid)| && a in LinesOf(b.graph, pid)[k] ==>
          Placed(b.log, pid, k + 1, a))
  }

  // Two kinds of streams are laid out without overlaps: those without empty spans, and
  // those whose spans cover at most two instants.
  datatype Kind = NoEmpties | Briefs

  predicate Fits(kind: Kind, a: Interval) {
    match kind
    case NoEmpties => a.start != a.end
    case Briefs => a.end - a.start < 3
  }

  ghost predicate AllFit(kind: Kind, spans: seq<Span>) {
    forall s :: s in spans ==> Fits(kind, s.Times())
  }

  // What every line keeps.
  ghost predicate SoundLine(kind: Kind, line: Line) {
    match kind
    case NoEmpties => Orderly(line)
    case Briefs => Ascending(line) && AllBrief(line)
  }

  ghost predicate AllSound(kind: Kind, g: Graph) {
    forall pid, k :: 0 <= k < |LinesOf(g, pid)| ==> SoundLine(kind, LinesOf(g, pid)[k])
  }

  predicate SameLine(p: Placement, q: Placement) {
    p.span.pid == q.span.pid && p.line == q.line
  }

  ghost predicate NoOverlap(log: seq<Placement>) {
    forall i, j :: 0 <= i < j < |log| && SameLine(log[i], log[j]) ==>
      !Overlap(log[i].span.Times(), log[j].span.Times())
  }

  ghost predicate Good(kind: Kind, b: Board) {
    StatusFits(b.graph, b.status) && Mirrors(b) && AllSound(kind, b.graph) && NoOverlap(b.log)
  }

  lemma {:induction false} RecordMirrors(b: Board, s: Span, line: nat, contents: Line)
    requires Mirrors(b)
    requires 1 <= line <= |LinesOf(b.graph, s.pid)| + 1
    requires forall c :: c in contents <==> c == s.Times() || c in LineAt(LinesOf(b.graph, s.pid), line)
    ensures Mirrors(Record(b, s, line, contents))
  {
    var b' := Record(b, s, line, contents);
    forall pid, k, c | 0 <= k < |LinesOf(b'.graph, pid)| && c in LinesOf(b'.graph, pid)[k]
      ensures Placed(b'.log, pid, k + 1, c)
    {
      if pid == s.pid && k == line - 1 && c == s.Times() {
        assert Placement(s, k + 1) in b'.log;
      } else {
        assert c in LinesOf(b.graph, pid)[k] && Placed(b.log, pid, k + 1, c);
        var s' : Span :| s'.pid == pid && s'.Times() == c && Placement(s', k + 1) in b.log;
        assert Placement(s', k + 1) in b'.log;
      }
    }
    forall p | p in b'.log ensures Holds(b'.graph, p) {
      if p in b.log { assert Holds(b.graph, p); }
    }
  }

  // The line a nonempty span is given has no conflict with it.
  lemma {:induction false} ChosenIsFree(b: Board, s: Span)
    requires s.start != s.end
    ensures var line := ChooseLine(b.graph, b.status, s.pid, s.Times());
      !Clash(LineAt(LinesOf(b.graph, s.pid), line), s.Times())
  {
  }

  lemma {:induction false} EmptyOverlapsNothing(line: Line, a: Interval)
    requires !Positive(a)
    ensures !OverlapsSome(line, a)
  {
    forall i | 0 <= i < |line| ensures !Overlap(line[i], a) { OverlapBounds(line[i], a); }
  }

  lemma {:induction false} InsertBrief(line: Line, a: Interval)
    requires AllBrief(line) && a.end - a.start < 3
    ensures AllBrief(Insert(line, a))
  {
  }

  // The sticky shortcut inserts an empty span without the test; every other span passes it.
  lemma {:induction false} InsertSound(kind: Kind, line: Line, a: Interval)
    requires SoundLine(kind, line) && Fits(kind, a) && (a.start != a.end ==> !Clash(line, a))
    ensures SoundLine(kind, Insert(line, a)) && !OverlapsSome(line, a)
  {
    if a.start == a.end { EmptyOverlapsNothing(line, a); }
    match kind
    case NoEmpties =>
      OrderlyNoOverlap(line, a);
      InsertKeepsOrderly(line, a);
    case Briefs =>
      if a.start != a.end { BriefNoOverlap(line, a); }
      InsertKeepsAscending(line, a);
      InsertBrief(line, a);
  }

  lemma {:induction false} RecordGood(kind: Kind, b: Board, s: Span, line: nat, contents: Line)
    requires Good(kind, b)
    requires 1 <= line <= |LinesOf(b.graph, s.pid)| + 1
    requires forall c :: c in contents <==> c == s.Times() || c in LineAt(LinesOf(b.graph, s.pid), line)
    requires SoundLine(kind, contents) && !OverlapsSome(LineAt(LinesOf(b.graph, s.pid), line), s.Times())
    ensures Good(kind, Record(b, s, line, contents))
  {
    RecordMirrors(b, s, line, contents);
    var b' := Record(b, s, line, contents);
    forall pid, k | 0 <= k < |LinesOf(b'.graph, pid)|
      ensures SoundLine(kind, LinesOf(b'.graph, pid)[k])
    {
      assert (pid == s.pid && k == line - 1) || LinesOf(b'.graph, pid)[k] == LinesOf(b.graph, pid)[k];
    }
    forall i | 0 <= i < |b.log| && SameLine(b.log[i], Placement(s, line))
      ensures !Overlap(b.log[i].span.Times(), s.Times())
    {
      assert b.log[i] in b.log && Holds(b.graph, b.log[i]);
    }
  }

  lemma {:induction false} StepGood(kind: Kind, b: Board, s: Span)
    requires Good(kind, b) && Fits(kind, s.Times())
    ensures Good(kind, Step(b, s))
  {
    var line := ChooseLine(b.graph, b.status, s.pid, s.Times());
    var current := LineAt(LinesOf(b.graph, s.pid), line);
    if s.start != s.end { ChosenIsFree(b, s); }
    assert SoundLine(kind, current);
    InsertSound(kind, current, s.Times());
    InsertContents(current, s.Times());
    RecordGood(kind, b, s, line, Insert(current, s.Times()));
  }

  lemma {:induction false} StepAllGood(kind: Kind, b: Board, spans: seq<Span>)
    requires Good(kind, b) && AllFit(kind, spans)
    ensures Good(kind, StepAll(b, spans))
  {
    if spans != [] {
      StepAllGood(kind, b, spans[..|spans| - 1]);
      StepGood(kind, StepAll(b, spans[..|spans| - 1]), spans[|spans| - 1]);
    }
  }

  lemma {:induction false} LayRequestsGood(kind: Kind, b: Board, requests: seq<seq<Span>>)
    requires Good(kind, b) && forall r :: r in requests ==> AllFit(kind, r)
    ensures Good(kind, LayRequests(b, requests))
  {
    if requests != [] {
      LayRequestsGood(kind, b, requests[..|requests| - 1]);
      var done := LayRequests(b, requests[..|requests| - 1]);
      StepAllGood(kind, done.(status := map[]), requests[|requests| - 1]);
    }
  }

  function Flatten(requests: seq<seq<Span>>): seq<Span> {
    if requests == [] then [] else Flatten(requests[..|requests| - 1]) + requests[|requests| - 1]
  }

  lemma {:induction false} InFlatten(rs: seq<seq<Span>>, r: seq<Span>, s: Span)
    requires r in rs && s in r
    ensures s in Flatten(rs)
  {
    if r != rs[|rs| - 1] { InFlatten(rs[..|rs| - 1], r, s); }
  }

  // No span is empty, or every span covers at most two instants.
  ghost predicate Layable(spans: seq<Span>) {
    AllFit(NoEmpties, spans) || AllFit(Briefs, spans)
  }

  // In whatever order requests and their spans arrive, no two spans that share a process
  // and a line ever cover the same instant; spans that end before they start are no exception.
  lemma {:induction false} LayTraceNeverOverlaps(requests: seq<seq<Span>>, smg: seq<Span>)
    requires Layable(Flatten(requests) + smg)
    ensures NoOverlap(LayTrace(requests, smg).log)
  {
    var kind := if AllFit(NoEmpties, Flatten(requests) + smg) then NoEmpties else Briefs;
    forall r, s | r in requests && s in r ensures Fits(kind, s.Times()) {
      InFlatten(requests, r, s);
      assert s in Flatten(requests) + smg;
    }
    forall s | s in smg ensures Fits(kind, s.Times()) { assert s in Flatten(requests) + smg; }
    LayRequestsGood(kind, EMPTY_BOARD, requests);
    StepAllGood(kind, LayRequests(EMPTY_BOARD, requests).(status := map[]), smg);
  }

  // --- What is placed, and what goes wrong with empty spans ---

  ghost predicate LengthsIn(allowed: int -> bool, spans: seq<Span>) {
    forall s :: s in spans ==> allowed(s.end - s.start)
  }

  function SpansOf(log: seq<Placement>): seq<Span> {
    seq(|log|, i requires 0 <= i < |log| => log[i].span)
  }

  lemma {:induction false} StepLogs(b: Board, s: Span)
    ensures SpansOf(Step(b, s).log) == SpansOf(b.log) + [s]
  {
  }

  lemma {:induction false} Regroup<T>(whole: seq<T>, prefix: seq<T>, init: seq<T>, rest: seq<T>, tail: seq<T>)
    requires whole == prefix + init + tail && rest == init + tail
    ensures whole == prefix + rest
  {
  }

  lemma {:induction false} StepExtends(b: Board, init: seq<Span>, s: Span)
    requires SpansOf(StepAll(b, init).log) == SpansOf(b.log) + init
    ensures SpansOf(StepAll(b, init + [s]).log) == SpansOf(b.log) + (init + [s])
  {
    StepLogs(StepAll(b, init), s);
    StepAllSnoc(b, init, s);
  }

  lemma {:induction false} StepAllLogs(b: Board, spans: seq<Span>)
    ensures SpansOf(StepAll(b, spans).log) == SpansOf(b.log) + spans
  {
    if spans != [] {
      var init, s := spans[..|spans| - 1], spans[|spans| - 1];
      StepAllLogs(b, init);
      StepExtends(b, init, s);
      assert init + [s] == spans;
    }
  }

  lemma {:induction false} LayRequestsLogs(b: Board, requests: seq<seq<Span>>)
    ensures SpansOf(LayRequests(b, requests).log) == SpansOf(b.log) + Flatten(requests)
  {
    if requests != [] {
      var init, r := requests[..|requests| - 1], requests[|requests| - 1];
      LayRequestsLogs(b, init);
      StepAllLogs(LayRequests(b, init).(status := map[]), r);
      Regroup(SpansOf(LayRequests(b, requests).log), SpansOf(b.log), Flatten(init), Flatten(requests), r);
    }
  }

  // Every span is placed exactly once, in the order fed.
  lemma {:induction false} LayTraceLogs(requests: seq<seq<Span>>, smg: seq<Span>)
    ensures SpansOf(LayTrace(requests, smg).log) == Flatten(requests) + smg
  {
    LayRequestsLogs(EMPTY_BOARD, requests);
    var mid := LayRequests(EMPTY_BOARD, requests).(status := map[]);
    StepAllLogs(mid, smg);
    assert SpansOf(EMPTY_BOARD.log) + Flatten(requests) == Flatten(requests);
  }

  // The board holds one line on the given process, and the request last used it.
  predicate OneLine(b: Board, pid: Pid, line: Line) {
    pid in b.graph && b.graph[pid] == [line] && pid in b.status && b.status[pid] == 1
  }

  lemma {:induction false} FirstStep(s: Span)
    ensures OneLine(Step(EMPTY_BOARD, s), s.pid, [s.Times()])
    ensures Step(EMPTY_BOARD, s).log == [Placement(s, 1)]
  {
    assert Insert([], s.Times()) == [s.Times()];
    assert LinesOf(EMPTY_BOARD.graph, s.pid) == [] && !Sticks(EMPTY_BOARD.graph, EMPTY_BOARD.status, s.pid, s.Times());
    assert ChooseLine(EMPTY_BOARD.graph, EMPTY_BOARD.status, s.pid, s.Times()) == 1;
    assert WithLine([], 1, [s.Times()]) == [[s.Times()]];
  }

  lemma {:induction false} StickyStep(b: Board, s: Span, line: Line)
    requires OneLine(b, s.pid, line)
    requires s.start == s.end || !Clash(line, s.Times())
    ensures OneLine(Step(b, s), s.pid, Insert(line, s.Times()))
    ensures Step(b, s).log == b.log + [Placement(s, 1)]
  {
    assert WithLine([line], 1, Insert(line, s.Times())) == [Insert(line, s.Times())];
  }

  lemma {:induction false} InsertLast(x: Interval, y: Interval)
    requires x.start < y.start
    ensures Insert([x], y) == [x, y]
  {
    assert InsertionPoint([x], y) == 1 + InsertionPoint([], y);
  }

  lemma {:induction false} SecondOnlyNeighbour(x: Interval, y: Interval, z: Interval)
    requires x.start < z.start && y.start < z.start && y.end <= z.start
    ensures !Clash([x, y], z)
  {
    assert [x, y][1..] == [y];
    assert StartsBefore([x, y], z.start) == 2;
  }

  lemma {:induction false} HiddenPair(board: Board, a: Span, b: Span, c: Span)
    requires OneLine(board, a.pid, [a.Times()])
    requires a.pid == b.pid == c.pid && a.start < b.start == b.end < c.start && board.log == [Placement(a, 1)]
    ensures Step(Step(board, b), c).log == [Placement(a, 1), Placement(b, 1), Placement(c, 1)]
  {
    StickyStep(board, b, [a.Times()]);
    InsertLast(a.Times(), b.Times());
    SecondOnlyNeighbour(a.Times(), b.Times(), c.Times());
    StickyStep(Step(board, b), c, [a.Times(), b.Times()]);
  }

  lemma {:induction false} StepAllSnoc(b: Board, init: seq<Span>, s: Span)
    ensures StepAll(b, init + [s]) == Step(StepAll(b, init), s)
  {
    assert (init + [s])[..|init|] == init;
  }

  lemma {:induction false} SingleRequest(r: seq<Span>)
    ensures LayTrace([r], []).log == StepAll(EMPTY_BOARD, r).log
  {
    assert [r][..0] == [];
    assert LayRequests(EMPTY_BOARD, [r]) == StepAll(EMPTY_BOARD, r);
  }

  lemma {:induction false} ThreeSteps(board: Board, a: Span, b: Span, c: Span)
    ensures StepAll(board, [a, b, c]) == Step(Step(Step(board, a), b), c)
  {
    assert [a, b, c][..2] == [a, b] && [a, b][..1] == [a] && [a][..0] == [];
    assert StepAll(board, [a]) == Step(board, a);
    assert StepAll(board, [a, b]) == Step(Step(board, a), b);
  }

  lemma {:induction false} ThreeOnOneLine(a: Span, b: Span, c: Span)
    requires a.pid == b.pid == c.pid && a.start < b.start == b.end < c.start
    ensures Step(Step(Step(EMPTY_BOARD, a), b), c).log == [Placement(a, 1), Placement(b, 1), Placement(c, 1)]
  {
    FirstStep(a);
    HiddenPair(Step(EMPTY_BOARD, a), a, b, c);
  }

  // An empty span after one of at least three instants hides it from a third.
  lemma {:induction false} ZeroLengthHides(a: Span, b: Span, c: Span, n: int)
    requires n >= 3
    requires a == Span(0, Engine(0), 0, n) && b == Span(1, Engine(0), 1, 1) && c == Span(2, Engine(0), 2, n + 2)
    ensures !NoOverlap(LayTrace([[a, b, c]], []).log)
  {
    SingleRequest([a, b, c]);
    ThreeSteps(EMPTY_BOARD, a, b, c);
    ThreeOnOneLine(a, b, c);
    OverlapBounds(a.Times(), c.Times());
    var log := [Placement(a, 1), Placement(b, 1), Placement(c, 1)];
    assert SameLine(log[0], log[2]);
  }
}
