// One line of the Perfetto view: the sorted interval list of a SpanLayoutContainer,
// its two-neighbour overlap test and its ordered insertion.
module SpanLine {

  datatype Interval = Interval(start: int, end: int)

  type Line = seq<Interval>

  // --- Reference notions: an interval is the half-open set of its instants ---

  predicate Covers(a: Interval, t: int) {
    a.start <= t < a.end
  }

  ghost predicate Overlap(a: Interval, b: Interval) {
    exists t :: Covers(a, t) && Covers(b, t)
  }

  predicate Positive(a: Interval) {
    a.start < a.end
  }

  lemma {:induction false} OverlapBounds(a: Interval, b: Interval)
    ensures Overlap(a, b) <==> Positive(a) && Positive(b) && a.start < b.end && b.start < a.end
  {
    if Positive(a) && Positive(b) && a.start < b.end && b.start < a.end {
      var t := if a.start < b.start then b.start else a.start;
      assert Covers(a, t) && Covers(b, t);
    }
  }

  // --- Order kept by the container ---

  predicate Before(a: Interval, b: Interval) {
    a.start < b.start || (a.start == b.start && a.end < b.end)
  }

  ghost predicate Sorted(line: Line) {
    forall i, j :: 0 <= i < j < |line| ==> line[i].start <= line[j].start
  }

  // Every stored interval is nonempty and ends before its successor starts.
  ghost predicate Tidy(line: Line) {
    && (forall i :: 0 <= i < |line| ==> Positive(line[i]))
    && (forall i, j :: 0 <= i < j < |line| ==> line[i].end <= line[j].start)
  }

  // bisect_left with key (start, -inf): how many stored intervals start before `start`.
  function StartsBefore(line: Line, start: int): (idx: nat)
    ensures idx <= |line|
    ensures forall k :: 0 <= k < idx ==> line[k].start < start
    ensures idx < |line| ==> line[idx].start >= start
  {
    if line == [] || line[0].start >= start then 0 else 1 + StartsBefore(line[1..], start)
  }

  // bisect_left with the interval itself as key.
  function InsertionPoint(line: Line, a: Interval): (idx: nat)
    ensures idx <= |line|
    ensures forall k :: 0 <= k < idx ==> Before(line[k], a)
    ensures idx < |line| ==> !Before(line[idx], a)
  {
    if line == [] || !Before(line[0], a) then 0 else 1 + InsertionPoint(line[1..], a)
  }

  // The verdict reached by looking at the two neighbours of the query only.
  predicate Clash(line: Line, a: Interval) {
    var idx := StartsBefore(line, a.start);
    || (idx > 0 && line[idx - 1].end > a.start)
    || (idx < |line| && line[idx].start < a.end)
  }

  function Insert(line: Line, a: Interval): Line {
    var idx := InsertionPoint(line, a);
    line[..idx] + [a] + line[idx..]
  }

  ghost predicate OverlapsSome(line: Line, a: Interval) {
    exists i :: 0 <= i < |line| && Overlap(line[i], a)
  }

  // Two neighbours decide for the whole line.
  lemma {:induction false} ClashIsExact(line: Line, a: Interval)
    requires Tidy(line) && Positive(a)
    ensures Clash(line, a) <==> OverlapsSome(line, a)
  {
    var idx := StartsBefore(line, a.start);
    if Clash(line, a) {
      var w := if idx > 0 && line[idx - 1].end > a.start then idx - 1 else idx;
      OverlapBounds(line[w], a);
    }
    if OverlapsSome(line, a) {
      var i :| 0 <= i < |line| && Overlap(line[i], a);
      OverlapBounds(line[i], a);
    }
  }

  // The earliest query start that has line[k] as its left neighbour and is not stopped by it.
  function Gap(line: Line, k: nat): int
    requires k < |line|
  {
    if line[k].start + 1 > line[k].end then line[k].start + 1 else line[k].end
  }

  // Degenerate entries sit under a real one, and no entry reaches past the gap after a later one.
  ghost predicate Honest(line: Line) {
    && (forall i :: 0 <= i < |line| && !Positive(line[i]) ==>
          exists j :: 0 <= j < |line| && Covers(line[j], line[i].start))
    && (forall i, k :: 0 <= i < k < |line| ==>
          line[i].end <= Gap(line, k) || (k + 1 < |line| && line[k + 1].start <= Gap(line, k)))
  }

  ghost predicate AnswersAllQueries(line: Line) {
    forall a :: Positive(a) ==> (Clash(line, a) <==> OverlapsSome(line, a))
  }

  // Without the tidiness the layout maintains, the two-neighbour test is right for
  // every query exactly on the honest lines.
  lemma {:induction false} ClashIsExactIff(line: Line)
    requires Sorted(line)
    ensures AnswersAllQueries(line) <==> Honest(line)
  {
    if Honest(line) {
      forall a | Positive(a) ensures Clash(line, a) <==> OverlapsSome(line, a) {
        HonestAnswers(line, a);
      }
    }
    if AnswersAllQueries(line) {
      forall i | 0 <= i < |line| && !Positive(line[i])
        ensures exists j :: 0 <= j < |line| && Covers(line[j], line[i].start)
      {
        DegenerateIsCovered(line, i);
      }
      forall i, k | 0 <= i < k < |line|
        ensures line[i].end <= Gap(line, k) || (k + 1 < |line| && line[k + 1].start <= Gap(line, k))
      {
        NothingReachesPastGap(line, i, k);
      }
    }
  }

  lemma {:induction false} DegenerateIsCovered(line: Line, i: nat)
    requires Sorted(line) && AnswersAllQueries(line) && i < |line| && !Positive(line[i])
    ensures exists j :: 0 <= j < |line| && Covers(line[j], line[i].start)
  {
    var a := Interval(line[i].start, line[i].start + 1);
    assert Positive(a) && Clash(line, a);
    var j :| 0 <= j < |line| && Overlap(line[j], a);
    OverlapBounds(line[j], a);
    assert Covers(line[j], line[i].start);
  }

  lemma {:induction false} NothingReachesPastGap(line: Line, i: nat, k: nat)
    requires Sorted(line) && AnswersAllQueries(line) && i < k < |line|
    ensures line[i].end <= Gap(line, k) || (k + 1 < |line| && line[k + 1].start <= Gap(line, k))
  {
    var x := Gap(line, k);
    var a := Interval(x, x + 1);
    if line[i].end > x {
      assert Covers(line[i], x) && Covers(a, x);
      assert Positive(a) && Clash(line, a);
    }
  }

  lemma {:induction false} HonestAnswers(line: Line, a: Interval)
    requires Sorted(line) && Honest(line) && Positive(a)
    ensures Clash(line, a) <==> OverlapsSome(line, a)
  {
    var idx := StartsBefore(line, a.start);
    if idx > 0 && line[idx - 1].end > a.start {
      OverlapBounds(line[idx - 1], a);
    } else if idx < |line| && line[idx].start < a.end {
      if Positive(line[idx]) {
        OverlapBounds(line[idx], a);
      } else {
        var j :| 0 <= j < |line| && Covers(line[j], line[idx].start);
        assert Covers(a, line[idx].start);
      }
    } else {
      forall i | 0 <= i < |line| ensures !Overlap(line[i], a) {
        OverlapBounds(line[i], a);
        assert i < idx - 1 ==> line[i].end <= Gap(line, idx - 1) || line[idx].start <= Gap(line, idx - 1);
      }
    }
  }

  lemma {:induction false} InsertContents(line: Line, a: Interval)
    ensures multiset(Insert(line, a)) == multiset(line) + multiset{a}
    ensures forall b :: b in Insert(line, a) <==> b == a || b in line
  {
    var idx := InsertionPoint(line, a);
    assert line == line[..idx] + line[idx..];
    assert multiset(Insert(line, a)) == multiset(line) + multiset{a};
    forall b
      ensures b in Insert(line, a) <==> b == a || b in line
    {
      assert b in Insert(line, a) <==> b in multiset(Insert(line, a));
      assert b in line <==> b in multiset(line);
    }
  }

  // --- Lines that may also hold empty intervals ---

  // Interval b may stand after interval a on an orderly line.
  predicate Follows(b: Interval, a: Interval) {
    a.start <= b.start && (Positive(a) ==> a.end <= b.start)
  }

  // Sorted by start, and every nonempty interval ends before any later one starts.
  ghost predicate Orderly(line: Line) {
    forall i, j :: 0 <= i < j < |line| ==> Follows(line[j], line[i])
  }

  // The order insort keeps whatever is inserted.
  ghost predicate Ascending(line: Line) {
    forall i, j :: 0 <= i < j < |line| ==> !Before(line[j], line[i])
  }

  ghost predicate AllBrief(line: Line) {
    forall i :: 0 <= i < |line| ==> line[i].end - line[i].start < 3
  }

  lemma {:induction false} TidyIsOrderly(line: Line)
    ensures Tidy(line) <==> Orderly(line) && forall i :: 0 <= i < |line| ==> Positive(line[i])
  {
  }

  // On an orderly line a query that passes the test overlaps nothing, of whatever length it is.
  lemma {:induction false} OrderlyNoOverlap(line: Line, a: Interval)
    requires Orderly(line) && !Clash(line, a)
    ensures !OverlapsSome(line, a)
  {
    var idx := StartsBefore(line, a.start);
    forall i | 0 <= i < |line| ensures !Overlap(line[i], a) {
      OverlapBounds(line[i], a);
      assert i + 1 < idx ==> Follows(line[idx - 1], line[i]);
    }
  }

  // Intervals of at most two instants are never hidden by a later one, on any ascending line.
  lemma {:induction false} BriefNoOverlap(line: Line, a: Interval)
    requires Ascending(line) && AllBrief(line) && !Clash(line, a)
    ensures !OverlapsSome(line, a)
  {
    var idx := StartsBefore(line, a.start);
    forall i | 0 <= i < |line| ensures !Overlap(line[i], a) {
      OverlapBounds(line[i], a);
      if i < idx - 1 {
        assert !Before(line[idx - 1], line[i]);
      } else if idx < i {
        assert !Before(line[i], line[idx]);
      }
    }
  }

  lemma {:induction false} Between(left: Line, a: Interval, right: Line)
    requires Ascending(left + right)
    requires (forall i :: 0 <= i < |left| ==> Before(left[i], a)) && (forall i :: 0 <= i < |right| ==> !Before(right[i], a))
    ensures Ascending(left + [a] + right)
  {
    var whole, line := left + right, left + [a] + right;
    forall i, j | 0 <= i < j < |line| ensures !Before(line[j], line[i]) {
      var i', j' := if i < |left| then i else i - 1, if j < |left| then j else j - 1;
      assert i != |left| ==> line[i] == whole[i'];
      assert j != |left| ==> line[j] == whole[j'];
    }
  }

  lemma {:induction false} NoneBeforeFrom(line: Line, a: Interval, k: nat)
    requires Ascending(line) && InsertionPoint(line, a) <= k < |line|
    ensures !Before(line[k], a)
  {
    var idx := InsertionPoint(line, a);
    assert idx < k ==> !Before(line[k], line[idx]);
  }

  lemma {:induction false} InsertKeepsAscending(line: Line, a: Interval)
    requires Ascending(line)
    ensures Ascending(Insert(line, a))
  {
    var idx := InsertionPoint(line, a);
    var left, right := line[..idx], line[idx..];
    forall k | 0 <= k < |right| ensures !Before(right[k], a) { NoneBeforeFrom(line, a, idx + k); }
    assert left + right == line;
    Between(left, a, right);
  }

  // Whatever passes the test fits between the entries before and after it.
  lemma {:induction false} Neighbours(line: Line, a: Interval, k: nat)
    requires Orderly(line) && !Clash(line, a) && k < |line|
    ensures if k < InsertionPoint(line, a) then Follows(a, line[k]) else Follows(line[k], a)
  {
    var idx, first := InsertionPoint(line, a), StartsBefore(line, a.start);
    if k < idx {
      assert k + 1 < first ==> Follows(line[first - 1], line[k]);
      assert first < k ==> Follows(line[k], line[first]);
    } else {
      assert idx < k ==> Follows(line[k], line[idx]);
      assert first < k ==> Follows(line[k], line[first]);
    }
  }

  lemma {:induction false} OrderlyBetween(left: Line, a: Interval, right: Line)
    requires Orderly(left + right)
    requires (forall i :: 0 <= i < |left| ==> Follows(a, left[i])) && (forall i :: 0 <= i < |right| ==> Follows(right[i], a))
    ensures Orderly(left + [a] + right)
  {
    var whole, line := left + right, left + [a] + right;
    forall i, j | 0 <= i < j < |line| ensures Follows(line[j], line[i]) {
      var i', j' := if i < |left| then i else i - 1, if j < |left| then j else j - 1;
      assert i != |left| ==> line[i] == whole[i'];
      assert j != |left| ==> line[j] == whole[j'];
    }
  }

  lemma {:induction false} InsertKeepsOrderly(line: Line, a: Interval)
    requires Orderly(line) && !Clash(line, a)
    ensures Orderly(Insert(line, a))
  {
    var idx := InsertionPoint(line, a);
    var left, right := line[..idx], line[idx..];
    forall k | 0 <= k < |left| ensures Follows(a, left[k]) { Neighbours(line, a, k); }
    forall k | 0 <= k < |right| ensures Follows(right[k], a) { Neighbours(line, a, idx + k); }
    assert left + right == line;
    OrderlyBetween(left, a, right);
  }

  lemma {:induction false} InsertKeepsTidy(line: Line, a: Interval)
    requires Tidy(line) && Positive(a) && !Clash(line, a)
    ensures Tidy(Insert(line, a))
  {
    TidyIsOrderly(line);
    InsertKeepsOrderly(line, a);
    InsertContents(line, a);
    forall i | 0 <= i < |Insert(line, a)| ensures Positive(Insert(line, a)[i]) {
      assert Insert(line, a)[i] in Insert(line, a);
    }
    TidyIsOrderly(Insert(line, a));
  }

  class SpanLayoutContainer {
    var intervals: Line

    constructor ()
      ensures intervals == []
    {
      intervals := [];
    }

    // Right against brute force whenever the stored line is tidy, and never missing an
    // overlap on an orderly line.
    method CheckOverlap(start: int, end: int) returns (clash: bool)
      ensures clash == Clash(intervals, Interval(start, end))
      ensures Tidy(intervals) && start < end ==> clash == OverlapsSome(intervals, Interval(start, end))
      ensures Orderly(intervals) && OverlapsSome(intervals, Interval(start, end)) ==> clash
    {
      ghost var query := Interval(start, end);
      if Tidy(intervals) && start < end { ClashIsExact(intervals, query); }
      if Orderly(intervals) && !Clash(intervals, query) { OrderlyNoOverlap(intervals, query); }
      var idx := StartsBefore(intervals, start);
      if idx > 0 {
        var prev := intervals[idx - 1];
        if prev.end > start { return true; }
      }
      if idx < |intervals| {
        var next := intervals[idx];
        if next.start < end { return true; }
      }
      return false;
    }

    method InsertSpan(start: int, end: int)
      modifies this
      ensures intervals == Insert(old(intervals), Interval(start, end))
      ensures multiset(intervals) == multiset(old(intervals)) + multiset{Interval(start, end)}
      ensures old(Orderly(intervals)) && !Clash(old(intervals), Interval(start, end)) ==> Orderly(intervals)
      ensures old(Tidy(intervals)) && start < end && !Clash(old(intervals), Interval(start, end)) ==> Tidy(intervals)
    {
      var a := Interval(start, end);
      var idx := InsertionPoint(intervals, a);
      InsertContents(intervals, a);
      if Orderly(intervals) && !Clash(intervals, a) { InsertKeepsOrderly(intervals, a); }
      if Tidy(intervals) && start < end && !Clash(intervals, a) { InsertKeepsTidy(intervals, a); }
      intervals := intervals[..idx] + [a] + intervals[idx..];
    }
  }
}
