// Questions asked of the generated lines: which line is asked about, what part of the text
// is shown, and that the shown text is enough to answer.
module LineRetrieval {
  import opened Basics
  import opened RedirectChains
  import opened Ranks

  // One line of text: a value, or a reference to another line by name.
  datatype Line = Holds(name: string, content: string) | SameAs(name: string, target: string)

  datatype LineObject = LineObject(
    lines: seq<Line>, names: seq<string>, values: seq<string>,
    links: seq<Option<seq<nat>>>, groups: map<nat, seq<nat>>, examples: seq<(string, string)>)

  function LineText(r: Redirects, names: seq<string>, contents: seq<string>, i: nat): Line
    requires InRange(r) && |r| == |names| == |contents| && i < |r|
  {
    if r[i].Some? then SameAs(names[i], names[r[i].value]) else Holds(names[i], contents[i])
  }

  ghost predicate Unique(names: seq<string>) {
    forall i, j :: 0 <= i < j < |names| ==> names[i] != names[j]
  }

  // What the generator writes for the given redirects and contents.
  ghost predicate Generated(r: Redirects, contents: seq<string>, obj: LineObject) {
    && InRange(r) && |r| == |contents| == |obj.lines| == |obj.names| == |obj.values| == |obj.links|
    && Unique(obj.names)
    && (forall i :: 0 <= i < |r| ==> obj.lines[i] == LineText(r, obj.names, contents, i))
    && (forall i :: 0 <= i < |r| ==> obj.links[i] == if Resolves(r, i) then Some(Path(r, i)) else None)
    && (forall i :: 0 <= i < |r| && Resolves(r, i) ==> obj.values[i] == contents[Terminal(r, i)])
    && GroupsUpTo(obj.links, obj.groups, |obj.links|) && 1 in obj.groups && 2 in obj.groups
  }

  // --- Reading an answer off a text ---

  function Lookup(body: seq<Line>, name: string): (line: Option<Line>)
    ensures line.Some? ==> line.value in body && line.value.name == name
  {
    if body == [] then None else if body[0].name == name then Some(body[0]) else Lookup(body[1..], name)
  }

  // What a reader finds for a name by following at most `fuel` lines of the text.
  function Answer(body: seq<Line>, name: string, fuel: nat): Option<string>
    decreases fuel
  {
    if fuel == 0 then None
    else match Lookup(body, name)
      case None => None
      case Some(Holds(_, content)) => Some(content)
      case Some(SameAs(_, target)) => Answer(body, target, fuel - 1)
  }

  // The text determines the answer: it is found eventually, and no effort finds another.
  ghost predicate Answers(body: seq<Line>, name: string, content: string) {
    && (exists fuel :: Answer(body, name, fuel) == Some(content))
    && (forall fuel :: Answer(body, name, fuel) == None || Answer(body, name, fuel) == Some(content))
  }

  lemma {:induction false} LookupShown(r: Redirects, contents: seq<string>, obj: LineObject, shown: nat, i: nat)
    requires Generated(r, contents, obj) && i < shown <= |r|
    ensures Lookup(obj.lines[..shown], obj.names[i]) == Some(obj.lines[i])
  {
    LookupFirst(obj.lines[..shown], i, obj.names[i]);
  }

  lemma {:induction false} LookupFirst(body: seq<Line>, i: nat, name: string)
    requires i < |body| && body[i].name == name && forall j :: 0 <= j < i ==> body[j].name != name
    ensures Lookup(body, name) == Some(body[i])
  {
    if i > 0 { LookupFirst(body[1..], i - 1, name); }
  }

  lemma {:induction false} WalkShift(r: Redirects, i: nat, k: nat)
    requires InRange(r) && i < |r| && r[i].Some?
    ensures Walk(r, i, k + 1) == Walk(r, r[i].value, k)
  {
    if k > 0 { WalkShift(r, i, k - 1); }
  }

  // Following a chain of k shown lines to a plain one reads that line's content.
  lemma {:induction false} AnswerAlong(r: Redirects, contents: seq<string>, obj: LineObject, shown: nat, i: nat, k: nat, fuel: nat)
    requires Generated(r, contents, obj) && i < |r| && EndsAt(r, i, k) && shown <= |r|
    requires forall m: nat :: m <= k ==> Walk(r, i, m) < shown
    ensures Answer(obj.lines[..shown], obj.names[i], fuel) == if fuel > k then Some(contents[Walk(r, i, k)]) else None
    decreases k
  {
    assert Walk(r, i, 0) == i;
    LookupShown(r, contents, obj, shown, i);
    if k > 0 && fuel > 0 {
      var j := r[i].value;
      assert r[Walk(r, i, 0)].Some?;
      forall m: nat ensures Walk(r, j, m) == Walk(r, i, m + 1) { WalkShift(r, i, m); }
      assert EndsAt(r, j, k - 1);
      AnswerAlong(r, contents, obj, shown, j, k - 1, fuel - 1);
    }
  }

  lemma {:induction false} ShownChainAnswers(r: Redirects, contents: seq<string>, obj: LineObject, shown: nat, q: nat)
    requires Generated(r, contents, obj) && q < shown <= |r| && Resolves(r, q)
    requires forall l :: l in Path(r, q) ==> l < shown
    ensures Answers(obj.lines[..shown], obj.names[q], obj.values[q])
  {
    var k := Hops(r, q);
    forall m: nat | m <= k ensures Walk(r, q, m) < shown {
      if m > 0 { assert Path(r, q)[m - 1] == Walk(r, q, m) && Walk(r, q, m) in Path(r, q); }
    }
    forall fuel: nat
      ensures Answer(obj.lines[..shown], obj.names[q], fuel) == if fuel > k then Some(obj.values[q]) else None
    {
      AnswerAlong(r, contents, obj, shown, q, k, fuel);
    }
    assert Answer(obj.lines[..shown], obj.names[q], k + 1) == Some(obj.values[q]);
  }

  // --- Generating the lines ---

  // The largest line number on a line's chain.
  function Furthest(c: nat, link: seq<nat>): nat {
    if link == [] then c
    else
      var rest := Furthest(c, link[..|link| - 1]);
      if link[|link| - 1] > rest then link[|link| - 1] else rest
  }

  function ChainKey(links: seq<Option<seq<nat>>>): nat -> int {
    (c: nat) => if c < |links| && links[c].Some? then Furthest(c, links[c].value) else c
  }

  // A plain line and two more: of one hop if there are any such lines, otherwise plain.
  predicate EnoughExamples(plain: nat, oneHop: nat) {
    plain >= 6 && (oneHop >= 2 || (oneHop == 0 && plain >= 11))
  }

  function ExampleLines(plain: seq<nat>, oneHop: seq<nat>): (picked: seq<nat>)
    requires EnoughExamples(|plain|, |oneHop|)
    ensures |picked| == 3 && forall i :: i in picked ==> i in plain || i in oneHop
  {
    if oneHop != [] then [plain[5], oneHop[0], oneHop[1]] else [plain[5], plain[1], plain[10]]
  }

  // The lines that resolve in h - 1 hops.
  ghost function AtHops(r: Redirects, h: nat): set<nat>
    requires InRange(r)
  {
    set i: nat | i < |r| && Resolves(r, i) && Hops(r, i) + 1 == h
  }

  lemma {:induction false} GroupSize(r: Redirects, links: seq<Option<seq<nat>>>, groups: map<nat, seq<nat>>, h: nat)
    requires InRange(r) && |links| == |r| && GroupsUpTo(links, groups, |links|) && h in groups
    requires forall j :: 0 <= j < |r| ==> links[j] == if Resolves(r, j) then Some(Path(r, j)) else None
    ensures |groups[h]| == |AtHops(r, h)| && forall i :: i in groups[h] <==> i in AtHops(r, h)
  {
    forall i: nat ensures i in groups[h] <==> i in AtHops(r, h) {
      if InGroup(groups, h, i) { assert i < |links|; }
      if i < |r| { GroupsPartition(r, links, groups, h, i); }
    }
    DistinctSize(groups[h], AtHops(r, h));
  }

  // Reading a missing group of the default dictionary creates it, empty.
  function Touched(groups: map<nat, seq<nat>>, h: nat): map<nat, seq<nat>> {
    if h in groups then groups else groups[h := []]
  }

  lemma {:induction false} TouchedGroups(links: seq<Option<seq<nat>>>, groups: map<nat, seq<nat>>, h: nat)
    requires GroupsUpTo(links, groups, |links|)
    ensures GroupsUpTo(links, Touched(groups, h), |links|)
  {
    var after := Touched(groups, h);
    forall g, i: nat ensures InGroup(after, g, i) <==> InGroup(groups, g, i) {}
  }

  method WriteLines(r: Redirects, names: seq<string>, contents: seq<string>) returns (lines: seq<Line>)
    requires InRange(r) && |r| == |names| == |contents|
    ensures |lines| == |r| && forall i :: 0 <= i < |r| ==> lines[i] == LineText(r, names, contents, i)
  {
    lines := [];
    for i := 0 to |r|
      invariant |lines| == i && forall j :: 0 <= j < i ==> lines[j] == LineText(r, names, contents, j)
    {
      lines := lines + [if r[i].Some? then SameAs(names[i], names[r[i].value]) else Holds(names[i], contents[i])];
    }
  }

  // The lines, their links and final values, and the groups, examples aside.
  method BuildObject(r: Redirects, names: seq<string>, contents: seq<string>) returns (obj: LineObject)
    requires InRange(r) && |r| == |names| == |contents| && Unique(names)
    ensures Generated(r, contents, obj) && obj.names == names
  {
    var lines := WriteLines(r, names, contents);
    var values := new string[|r|](i requires 0 <= i < |r| => contents[i]);
    var links, rings := BuildLinks(r, values);
    var groups := GroupByHops(links, rings);
    TouchedGroups(links, groups, 1);
    TouchedGroups(links, Touched(groups, 1), 2);
    obj := LineObject(lines, names, values[..], links, Touched(Touched(groups, 1), 2), []);
  }

  lemma {:induction false} GroupMember(r: Redirects, contents: seq<string>, obj: LineObject, h: nat, i: nat)
    requires Generated(r, contents, obj) && h in obj.groups && i in obj.groups[h]
    ensures i < |r| && Resolves(r, i)
  {
    assert InGroup(obj.groups, h, i);
  }

  // The whole text answers every line that resolves.
  lemma {:induction false} WholeTextAnswers(r: Redirects, contents: seq<string>, obj: LineObject, i: nat)
    requires Generated(r, contents, obj) && i < |r| && Resolves(r, i)
    ensures Answers(obj.lines, obj.names[i], obj.values[i])
  {
    forall l | l in Path(r, i) ensures l < |r| {
      var m :| 0 <= m < |Path(r, i)| && Path(r, i)[m] == l;
      assert Path(r, i)[m] == Walk(r, i, m + 1);
    }
    ShownChainAnswers(r, contents, obj, |r|, i);
    assert obj.lines[..|r|] == obj.lines;
  }

  // What an example shows for a line is what the text says.
  ghost predicate Truthful(obj: LineObject, e: (string, string)) {
    Answers(obj.lines, e.0, e.1)
  }

  ghost predicate TrueExamples(obj: LineObject) {
    |obj.examples| == 3 && forall k :: 0 <= k < 3 ==> Truthful(obj, obj.examples[k])
  }

  lemma {:induction false} ExampleIsTrue(r: Redirects, contents: seq<string>, obj: LineObject, h: nat, sorted: seq<nat>, i: nat)
    requires Generated(r, contents, obj) && h in obj.groups && multiset(sorted) == multiset(obj.groups[h]) && i in sorted
    ensures i < |r| && Truthful(obj, (obj.names[i], obj.values[i]))
  {
    assert i in multiset(sorted);
    GroupMember(r, contents, obj, h, i);
    WholeTextAnswers(r, contents, obj, i);
  }

  // A group in order of the furthest line its members' chains touch.
  function InOrder(obj: LineObject, h: nat): (sorted: seq<nat>)
    requires h in obj.groups
    ensures multiset(sorted) == multiset(obj.groups[h]) && |sorted| == |obj.groups[h]|
  {
    SortBy(obj.groups[h], ChainKey(obj.links))
  }

  predicate CanPick(obj: LineObject) {
    1 in obj.groups && 2 in obj.groups && EnoughExamples(|obj.groups[1]|, |obj.groups[2]|)
  }

  function Examples(obj: LineObject): seq<nat>
    requires CanPick(obj)
  {
    ExampleLines(InOrder(obj, 1), InOrder(obj, 2))
  }

  lemma {:induction false} PickedIsTrue(r: Redirects, contents: seq<string>, obj: LineObject, k: nat)
    requires Generated(r, contents, obj) && CanPick(obj) && k < 3
    ensures |Examples(obj)| == 3 && Examples(obj)[k] < |r|
    ensures Truthful(obj, (obj.names[Examples(obj)[k]], obj.values[Examples(obj)[k]]))
  {
    var plain, oneHop := InOrder(obj, 1), InOrder(obj, 2);
    var i := ExampleLines(plain, oneHop)[k];
    assert i in ExampleLines(plain, oneHop);
    if i in plain {
      ExampleIsTrue(r, contents, obj, 1, plain, i);
    } else {
      ExampleIsTrue(r, contents, obj, 2, oneHop, i);
    }
  }

  // The furthest line a line of at most one hop touches.
  function Reach(r: Redirects): nat -> int {
    (c: nat) => if c < |r| && r[c].Some? && r[c].value > c then r[c].value else c
  }

  // Example k shows the line with the given rank among those of h - 1 hops.
  ghost predicate ShowsRank(r: Redirects, obj: LineObject, e: (string, string), h: nat, rank: nat)
    requires InRange(r) && |r| == |obj.names| == |obj.values|
  {
    exists i :: i in AtHops(r, h) && e == (obj.names[i], obj.values[i]) && Rank(AtHops(r, h), Reach(r), i) == rank
  }

  // The sixth plain line, then the two nearest lines of one hop, or else the second and the
  // eleventh plain line.
  ghost predicate ShownExamples(r: Redirects, obj: LineObject, examples: seq<(string, string)>)
    requires InRange(r) && |r| == |obj.names| == |obj.values|
  {
    && |examples| == 3 && ShowsRank(r, obj, examples[0], 1, 5)
    && if AtHops(r, 2) == {} then ShowsRank(r, obj, examples[1], 1, 1) && ShowsRank(r, obj, examples[2], 1, 10)
       else ShowsRank(r, obj, examples[1], 2, 0) && ShowsRank(r, obj, examples[2], 2, 1)
  }

  lemma {:induction false} PathOfOne(r: Redirects, q: nat)
    requires InRange(r) && q < |r| && Resolves(r, q) && Hops(r, q) <= 1
    ensures Path(r, q) == if r[q].Some? then [r[q].value] else []
  {
    assert Walk(r, q, 0) == q;
    assert r[q].None? || Walk(r, q, 1) == r[q].value;
  }

  lemma {:induction false} SameReach(r: Redirects, contents: seq<string>, obj: LineObject, h: nat, q: nat)
    requires Generated(r, contents, obj) && 1 <= h <= 2 && q in AtHops(r, h)
    ensures ChainKey(obj.links)(q) == Reach(r)(q)
  {
    PathOfOne(r, q);
    var link := Path(r, q);
    if link != [] { assert link[..0] == [] && Furthest(q, link[..0]) == q; }
  }

  lemma {:induction false} InOrderRank(r: Redirects, contents: seq<string>, obj: LineObject, h: nat, k: nat)
    requires Generated(r, contents, obj) && 1 <= h <= 2 && k < |obj.groups[h]|
    ensures InOrder(obj, h)[k] in AtHops(r, h) && Rank(AtHops(r, h), Reach(r), InOrder(obj, h)[k]) == k
  {
    var group, sorted := obj.groups[h], InOrder(obj, h);
    GroupSize(r, obj.links, obj.groups, h);
    SortInOrder(group, ChainKey(obj.links));
    forall q ensures q in AtHops(r, h) <==> q in sorted {
      assert q in sorted <==> q in multiset(sorted);
      assert q in group <==> q in multiset(group);
    }
    RankIsIndex(sorted, AtHops(r, h), ChainKey(obj.links), k);
    forall q | q in AtHops(r, h) ensures ChainKey(obj.links)(q) == Reach(r)(q) { SameReach(r, contents, obj, h, q); }
    RankSameKey(AtHops(r, h), ChainKey(obj.links), Reach(r), sorted[k]);
  }

  lemma {:induction false} ShowsInOrder(r: Redirects, contents: seq<string>, obj: LineObject, h: nat, k: nat)
    requires Generated(r, contents, obj) && 1 <= h <= 2 && k < |obj.groups[h]|
    ensures var i := InOrder(obj, h)[k]; i < |r| && ShowsRank(r, obj, (obj.names[i], obj.values[i]), h, k)
  {
    InOrderRank(r, contents, obj, h, k);
    assert InOrder(obj, h)[k] in AtHops(r, h);
  }

  lemma {:induction false} ExamplesShown(r: Redirects, contents: seq<string>, obj: LineObject, examples: seq<(string, string)>)
    requires Generated(r, contents, obj) && CanPick(obj) && |examples| == 3 == |Examples(obj)|
    requires forall k :: 0 <= k < 3 ==>
      Examples(obj)[k] < |r| && examples[k] == (obj.names[Examples(obj)[k]], obj.values[Examples(obj)[k]])
    ensures ShownExamples(r, obj, examples)
  {
    ListShows(r, contents, obj, 1);
    ListShows(r, contents, obj, 2);
    GroupSize(r, obj.links, obj.groups, 2);
    ShownFromLists(r, obj, InOrder(obj, 1), InOrder(obj, 2), examples);
  }

  // Every position of a list shows its rank.
  ghost predicate ShowsRanks(r: Redirects, obj: LineObject, h: nat, list: seq<nat>)
    requires InRange(r) && |r| == |obj.names| == |obj.values|
  {
    forall k :: 0 <= k < |list| ==> list[k] < |r| && ShowsRank(r, obj, (obj.names[list[k]], obj.values[list[k]]), h, k)
  }

  lemma {:induction false} ListShows(r: Redirects, contents: seq<string>, obj: LineObject, h: nat)
    requires Generated(r, contents, obj) && 1 <= h <= 2
    ensures ShowsRanks(r, obj, h, InOrder(obj, h))
  {
    forall k | 0 <= k < |InOrder(obj, h)|
      ensures var i := InOrder(obj, h)[k]; i < |r| && ShowsRank(r, obj, (obj.names[i], obj.values[i]), h, k)
    {
      ShowsInOrder(r, contents, obj, h, k);
    }
  }

  lemma {:induction false} ShownFromLists(r: Redirects, obj: LineObject, plain: seq<nat>, oneHop: seq<nat>,
                                          examples: seq<(string, string)>)
    requires InRange(r) && |r| == |obj.names| == |obj.values| && EnoughExamples(|plain|, |oneHop|) && |examples| == 3
    requires ShowsRanks(r, obj, 1, plain) && ShowsRanks(r, obj, 2, oneHop) && |AtHops(r, 2)| == |oneHop|
    requires var picked := ExampleLines(plain, oneHop);
      forall k :: 0 <= k < 3 ==> picked[k] < |r| && examples[k] == (obj.names[picked[k]], obj.values[picked[k]])
    ensures ShownExamples(r, obj, examples)
  {
    assert AtHops(r, 2) == {} <==> oneHop == [];
    assert ExampleLines(plain, oneHop)[0] == plain[5];
  }

  // The few-shot examples, the nearest lines first.
  method PickExamples(obj: LineObject, ghost r: Redirects, ghost contents: seq<string>) returns (examples: seq<(string, string)>)
    requires Generated(r, contents, obj) && CanPick(obj)
    ensures |examples| == 3 && forall k :: 0 <= k < 3 ==> Truthful(obj, examples[k])
    ensures ShownExamples(r, obj, examples)
  {
    var picked := Examples(obj);
    examples := [];
    for k := 0 to 3
      invariant |examples| == k && forall j :: 0 <= j < k ==> Truthful(obj, examples[j])
      invariant forall j :: 0 <= j < k ==>
        picked[j] < |r| && examples[j] == (obj.names[picked[j]], obj.values[picked[j]])
    {
      PickedIsTrue(r, contents, obj, k);
      examples := examples + [(obj.names[picked[k]], obj.values[picked[k]])];
    }
    ExamplesShown(r, contents, obj, examples);
  }

  // The object with its examples, unless there are too few lines to take them from.
  method AddExamples(obj: LineObject, ghost r: Redirects, ghost contents: seq<string>) returns (result: Result<LineObject>)
    requires Generated(r, contents, obj)
    ensures if CanPick(obj)
      then result.Ok? && result.value == obj.(examples := result.value.examples) && TrueExamples(result.value)
           && ShownExamples(r, obj, result.value.examples)
      else result == Err("IndexError")
  {
    if !CanPick(obj) { return Err("IndexError"); }
    var examples := PickExamples(obj, r, contents);
    result := Ok(WithExamples(obj, examples));
  }

  function WithExamples(obj: LineObject, examples: seq<(string, string)>): (full: LineObject)
    ensures (|examples| == 3 && forall k :: 0 <= k < 3 ==> Truthful(obj, examples[k])) ==> TrueExamples(full)
  {
    obj.(examples := examples)
  }

  // Fails exactly when there are too few lines to take the examples from.
  method GenerateLines(r: Redirects, names: seq<string>, contents: seq<string>) returns (result: Result<LineObject>)
    requires InRange(r) && |r| == |names| == |contents| && Unique(names)
    ensures result.Ok? ==> Generated(r, contents, result.value) && result.value.names == names && TrueExamples(result.value)
    ensures result.Ok? ==> ShownExamples(r, result.value, result.value.examples)
    ensures result.Ok? <==>
      |AtHops(r, 1)| >= 6 && (|AtHops(r, 2)| >= 2 || (|AtHops(r, 2)| == 0 && |AtHops(r, 1)| >= 11))
    ensures result.Err? ==> result.exception == "IndexError"
  {
    var obj := BuildObject(r, names, contents);
    GroupSize(r, obj.links, obj.groups, 1);
    GroupSize(r, obj.links, obj.groups, 2);
    result := AddExamples(obj, r, contents);
  }

  // --- Choosing questions ---

  predicate Usable(obj: LineObject, src: int, q: nat) {
    q < |obj.links| && obj.links[q].Some? && q < src && forall l :: l in obj.links[q].value ==> l <= src
  }

  // The usable members of a group, in group order.
  function Candidates(obj: LineObject, src: int, group: seq<nat>): (qs: seq<nat>)
    ensures forall q :: q in qs <==> q in group && Usable(obj, src, q)
  {
    if group == [] then []
    else
      var init, last := group[..|group| - 1], group[|group| - 1];
      if Usable(obj, src, last) then Candidates(obj, src, init) + [last] else Candidates(obj, src, init)
  }

  // n times x, as a sum.
  function Times(n: nat, x: real): real {
    if n == 0 then 0.0 else Times(n - 1, x) + x
  }

  lemma {:induction false} TimesNonnegative(n: nat, x: real)
    requires x >= 0.0
    ensures Times(n, x) >= 0.0
  {
    if n > 0 { TimesNonnegative(n - 1, x); }
  }

  // int() drops the fraction.
  function Truncate(x: real): int {
    if x >= 0.0 then x.Floor else -((-x).Floor)
  }

  // min(int(n * percent), n - 1) as a Python list index: negative ones count from the end.
  function PickIndex(n: nat, percent: real): Option<nat> {
    var at := Truncate(Times(n, percent));
    var clamped := if at < n - 1 then at else n - 1;
    if 0 <= clamped then Some(clamped) else if clamped + n >= 0 && n > 0 then Some(clamped + n) else None
  }

  lemma {:induction false} TimesBelow(n: nat, x: real)
    requires x < 1.0
    ensures n > 0 ==> Times(n, x) < n as real
  {
    if n > 1 { TimesBelow(n - 1, x); }
  }

  // For a fraction of the list the position is that fraction of its length, rounded down;
  // from the whole list on it is the last one.
  lemma {:induction false} PickInRange(n: nat, percent: real)
    ensures PickIndex(n, percent).Some? ==> PickIndex(n, percent).value < n
    ensures n > 0 && percent >= 0.0 ==> PickIndex(n, percent).Some?
    ensures n > 0 && 0.0 <= percent < 1.0 ==>
      PickIndex(n, percent).value as real <= Times(n, percent) < PickIndex(n, percent).value as real + 1.0
    ensures n > 0 && percent >= 1.0 ==> PickIndex(n, percent).value == n - 1
    ensures PickIndex(n, percent).None? <==> n == 0 || Truncate(Times(n, percent)) + n < 0
  {
    if percent >= 0.0 { TimesNonnegative(n, percent); }
    if percent < 1.0 { TimesBelow(n, percent); } else { TimesAtLeast(n, percent); }
  }

  lemma {:induction false} TimesAtLeast(n: nat, x: real)
    requires x >= 1.0
    ensures Times(n, x) >= n as real
  {
    if n > 0 { TimesAtLeast(n - 1, x); }
  }

  datatype Question = Question(dst: nat, expected: string, name: string, parts: seq<seq<Line>>)

  function Clip(n: int, length: nat): nat {
    if n < 0 then (if n + length < 0 then 0 else n + length) else if n > length then length else n
  }

  // The text shown with a question: lines[: src + 1].
  function Body(obj: LineObject, src: int): seq<Line> {
    obj.lines[..Clip(src + 1, |obj.lines|)]
  }

  // The four parts of the text put together again.
  function Joined(parts: seq<seq<Line>>): seq<Line> {
    if parts == [] then [] else Joined(parts[..|parts| - 1]) + parts[|parts| - 1]
  }

  lemma {:induction false} JoinedFour(a: seq<Line>, b: seq<Line>, c: seq<Line>, d: seq<Line>)
    ensures Joined([a, b, c, d]) == a + b + c + d
  {
    assert [a][..0] == [] && Joined([a]) == a;
    assert [a, b][..1] == [a] && Joined([a, b]) == a + b;
    assert [a, b, c][..2] == [a, b] && Joined([a, b, c]) == a + b + c;
    assert [a, b, c, d][..3] == [a, b, c];
  }

  // The first three parts are a quarter each, rounded down.
  ghost predicate InQuarters(parts: seq<seq<Line>>) {
    |parts| == 4 && |parts[0]| == |parts[1]| == |parts[2]| == |Joined(parts)| / 4
  }

  // A question shows the first src + 1 lines, split in four, and its expected value is what they answer.
  ghost predicate Fair(obj: LineObject, src: int, question: Question) {
    && question.dst < |obj.values| == |obj.names|
    && question.name == obj.names[question.dst] && question.expected == obj.values[question.dst]
    && src >= 0 && |question.parts| == 4
    && Joined(question.parts) == obj.lines[..if src + 1 < |obj.lines| then src + 1 else |obj.lines|]
    && InQuarters(question.parts)
    && Answers(Joined(question.parts), question.name, question.expected)
  }

  lemma {:induction false} UsableIsAnswered(r: Redirects, contents: seq<string>, obj: LineObject, src: int, q: nat)
    requires Generated(r, contents, obj) && Usable(obj, src, q)
    ensures Answers(Body(obj, src), obj.names[q], obj.values[q])
  {
    var shown := Clip(src + 1, |obj.lines|);
    forall l | l in Path(r, q) ensures l < shown {
      var m :| 0 <= m < |Path(r, q)| && Path(r, q)[m] == l;
      assert Path(r, q)[m] == Walk(r, q, m + 1);
    }
    ShownChainAnswers(r, contents, obj, shown, q);
  }

  lemma {:induction false} FairQuestion(r: Redirects, contents: seq<string>, obj: LineObject, src: int, q: nat, parts: seq<seq<Line>>)
    requires Generated(r, contents, obj) && Usable(obj, src, q) && |parts| == 4 && Joined(parts) == Body(obj, src) && InQuarters(parts)
    ensures Fair(obj, src, Question(q, obj.values[q], obj.names[q], parts))
  {
    UsableIsAnswered(r, contents, obj, src, q);
  }

  method SplitBody(body: seq<Line>) returns (parts: seq<seq<Line>>)
    ensures |parts| == 4 && Joined(parts) == body && InQuarters(parts)
  {
    var n := |body| / 4;
    parts := [body[..n], body[n..2 * n], body[2 * n..3 * n], body[3 * n..]];
    JoinedFour(body[..n], body[n..2 * n], body[2 * n..3 * n], body[3 * n..]);
  }

  // The lines of a group that come before the source line and whose chains do not pass it.
  ghost function UsableLines(obj: LineObject, src: int, numHoops: nat): set<nat>
    requires numHoops in obj.groups
  {
    set q | q in obj.groups[numHoops] && q < src && q < |obj.links| && obj.links[q].Some?
            && forall l :: l in obj.links[q].value ==> l <= src
  }

  function ByNumber(): nat -> int {
    (q: nat) => q
  }

  // Which of n lines a percentage picks, counted from the first: that part of n without its
  // fraction, at most the last; negative positions count from the end.
  function PlaceOf(n: nat, percent: real): int {
    var part := n as real * percent;
    var whole := if part >= 0.0 then part.Floor else -((-part).Floor);
    var place := if whole < n - 1 then whole else n - 1;
    if place < 0 then place + n else place
  }

  // There is a line to ask about, and the position picked lies in the list.
  ghost predicate Askable(obj: LineObject, numHoops: nat, cell: (int, real)) {
    numHoops in obj.groups && 0 <= PlaceOf(|UsableLines(obj, cell.0, numHoops)|, cell.1) < |UsableLines(obj, cell.0, numHoops)|
  }

  // The line asked about has that many usable lines before it.
  ghost predicate AtPlace(obj: LineObject, numHoops: nat, cell: (int, real), dst: nat) {
    && numHoops in obj.groups
    && var lines := UsableLines(obj, cell.0, numHoops);
    && dst in lines && Rank(lines, ByNumber(), dst) == PlaceOf(|lines|, cell.1)
  }

  // For a fraction that is not negative: exactly when there is a usable line.
  lemma {:induction false} AskableIff(obj: LineObject, numHoops: nat, cell: (int, real))
    requires cell.1 >= 0.0
    ensures Askable(obj, numHoops, cell) <==> numHoops in obj.groups && UsableLines(obj, cell.0, numHoops) != {}
  {
    if numHoops in obj.groups {
      var n := |UsableLines(obj, cell.0, numHoops)|;
      PickMeaning(n, cell.1);
      PickInRange(n, cell.1);
    }
  }

  lemma {:induction false} TimesIs(n: nat, x: real)
    ensures Times(n, x) == n as real * x
  {
    if n > 0 {
      TimesIs(n - 1, x);
      assert (n - 1) as real * x + x == n as real * x;
    }
  }

  lemma {:induction false} PickMeaning(n: nat, percent: real)
    ensures PickIndex(n, percent).Some? <==> 0 <= PlaceOf(n, percent) < n
    ensures PickIndex(n, percent).Some? ==> PickIndex(n, percent).value == PlaceOf(n, percent)
  {
    TimesIs(n, percent);
  }

  lemma {:induction false} CandidatesAscend(obj: LineObject, src: int, group: seq<nat>)
    requires Increasing(group)
    ensures InKeyOrder(Candidates(obj, src, group), ByNumber())
  {
    if group != [] {
      var init, last := group[..|group| - 1], group[|group| - 1];
      CandidatesAscend(obj, src, init);
      forall q | q in Candidates(obj, src, init) ensures q < last {
        var k :| 0 <= k < |init| && init[k] == q;
        assert group[k] == q;
      }
      LastInOrder(Candidates(obj, src, init), last);
    }
  }

  lemma {:induction false} LastInOrder(s: seq<nat>, x: nat)
    requires InKeyOrder(s, ByNumber()) && forall q :: q in s ==> q < x
    ensures InKeyOrder(s + [x], ByNumber())
  {
    forall i, j | 0 <= i < j < |s + [x]| ensures Precedes(ByNumber(), (s + [x])[i], (s + [x])[j]) {
      if j == |s| { assert s[i] in s; }
    }
  }

  lemma {:induction false} CandidatePlaces(obj: LineObject, src: int, numHoops: nat, k: nat)
    requires numHoops in obj.groups && Increasing(obj.groups[numHoops])
    ensures var qs, lines := Candidates(obj, src, obj.groups[numHoops]), UsableLines(obj, src, numHoops);
      |qs| == |lines| && (k < |qs| ==> qs[k] in lines && Rank(lines, ByNumber(), qs[k]) == k)
  {
    var qs, lines := Candidates(obj, src, obj.groups[numHoops]), UsableLines(obj, src, numHoops);
    CandidatesAscend(obj, src, obj.groups[numHoops]);
    assert forall q :: q in lines <==> q in qs;
    if k < |qs| { RankIsIndex(qs, lines, ByNumber(), k); }
    if qs == [] { assert lines == {}; } else { RankIsIndex(qs, lines, ByNumber(), 0); }
  }

  // One question, or the exception raised: a missing group, or no usable line in it.
  method SelectQuestion(obj: LineObject, numHoops: nat, src: int, percent: real,
                        ghost r: Redirects, ghost contents: seq<string>) returns (result: Result<Question>)
    requires Generated(r, contents, obj)
    ensures result.Ok? ==>
      && Fair(obj, src, result.value)
      && AtPlace(obj, numHoops, (src, percent), result.value.dst)
      && Resolves(r, result.value.dst) && Hops(r, result.value.dst) + 1 == numHoops
    ensures result.Ok? <==> Askable(obj, numHoops, (src, percent))
    ensures result.Err? ==> result.exception == if numHoops in obj.groups then "IndexError" else "KeyError"
  {
    if numHoops !in obj.groups { return Err("KeyError"); }
    var group := obj.groups[numHoops];
    var queries := [];
    for k := 0 to |group|
      invariant queries == Candidates(obj, src, group[..k])
    {
      assert group[..k + 1][..k] == group[..k];
      if Usable(obj, src, group[k]) { queries := queries + [group[k]]; }
    }
    assert group[..|group|] == group;
    var at := PickIndex(|queries|, percent);
    PickInRange(|queries|, percent);
    PickMeaning(|queries|, percent);
    CandidatePlaces(obj, src, numHoops, if at.Some? then at.value else 0);
    if at.None? { return Err("IndexError"); }
    var dst := queries[at.value];
    assert dst in queries && InGroup(obj.groups, numHoops, dst);
    GroupsPartition(r, obj.links, obj.groups, numHoops, dst);
    var parts := SplitBody(Body(obj, src));
    FairQuestion(r, contents, obj, src, dst, parts);
    result := Ok(Question(dst, obj.values[dst], obj.names[dst], parts));
  }

  // The source index and the percentage of each question, in the order asked.
  function Cells(srcs: seq<int>, percents: seq<real>): seq<(int, real)> {
    if srcs == [] then [] else Cells(srcs[..|srcs| - 1], percents) + Row(srcs[|srcs| - 1], percents)
  }

  function Row(src: int, percents: seq<real>): (row: seq<(int, real)>)
    ensures |row| == |percents|
  {
    seq(|percents|, j requires 0 <= j < |percents| => (src, percents[j]))
  }

  // A fair question with the wanted number of hops, about the line at the wanted place.
  ghost predicate Wanted(obj: LineObject, numHoops: nat, r: Redirects, cell: (int, real), question: Question)
    requires InRange(r)
  {
    && Fair(obj, cell.0, question)
    && AtPlace(obj, numHoops, cell, question.dst)
    && question.dst < |r| && Resolves(r, question.dst) && Hops(r, question.dst) + 1 == numHoops
  }

  ghost predicate AllWanted(obj: LineObject, numHoops: nat, r: Redirects, cells: seq<(int, real)>, questions: seq<Question>)
    requires InRange(r)
  {
    |cells| == |questions| && forall k :: 0 <= k < |questions| ==> Wanted(obj, numHoops, r, cells[k], questions[k])
  }

  lemma {:induction false} RowGrows(src: int, percents: seq<real>, j: nat)
    requires j < |percents|
    ensures Row(src, percents[..j + 1]) == Row(src, percents[..j]) + [(src, percents[j])]
  {
  }

  ghost predicate AllAskable(obj: LineObject, numHoops: nat, cells: seq<(int, real)>) {
    forall k :: 0 <= k < |cells| ==> Askable(obj, numHoops, cells[k])
  }

  // The questions for one source index.
  method AskRow(obj: LineObject, numHoops: nat, src: int, percents: seq<real>,
                ghost r: Redirects, ghost contents: seq<string>)
    returns (result: Result<seq<Question>>)
    requires Generated(r, contents, obj)
    ensures result.Ok? ==> AllWanted(obj, numHoops, r, Row(src, percents), result.value)
    ensures result.Ok? <==> AllAskable(obj, numHoops, Row(src, percents))
  {
    var questions := [];
    for j := 0 to |percents|
      invariant AllWanted(obj, numHoops, r, Row(src, percents[..j]), questions)
      invariant AllAskable(obj, numHoops, Row(src, percents[..j]))
    {
      var q := SelectQuestion(obj, numHoops, src, percents[j], r, contents);
      if q.Err? {
        assert Row(src, percents)[j] == (src, percents[j]);
        return Err(q.exception);
      }
      RowGrows(src, percents, j);
      questions := questions + [q.value];
    }
    assert percents[..|percents|] == percents;
    result := Ok(questions);
  }

  // Question i * |percents| + j belongs to source index i and percentage j.
  lemma {:induction false} CellAt(srcs: seq<int>, percents: seq<real>, i: nat, j: nat)
    requires i < |srcs| && j < |percents|
    ensures |Cells(srcs, percents)| == |srcs| * |percents| && i * |percents| + j < |srcs| * |percents|
    ensures Cells(srcs, percents)[i * |percents| + j] == (srcs[i], percents[j])
  {
    var last := |srcs| - 1;
    var init := Cells(srcs[..last], percents);
    CellsSize(srcs[..last], percents);
    CellsSize(srcs, percents);
    if i < last {
      CellAt(srcs[..last], percents, i, j);
      assert Cells(srcs, percents)[i * |percents| + j] == init[i * |percents| + j];
    } else {
      assert Cells(srcs, percents)[|init| + j] == Row(srcs[last], percents)[j];
    }
  }

  lemma {:induction false} CellsSize(srcs: seq<int>, percents: seq<real>)
    ensures |Cells(srcs, percents)| == |srcs| * |percents|
  {
    if srcs != [] {
      CellsSize(srcs[..|srcs| - 1], percents);
      assert (|srcs| - 1) * |percents| + |percents| == |srcs| * |percents|;
    }
  }

  lemma {:induction false} CellsGrow(srcs: seq<int>, percents: seq<real>, i: nat)
    requires i < |srcs|
    ensures Cells(srcs[..i + 1], percents) == Cells(srcs[..i], percents) + Row(srcs[i], percents)
  {
    assert srcs[..i + 1][..i] == srcs[..i];
  }

  lemma {:induction false} WantedConcat(obj: LineObject, numHoops: nat, r: Redirects, cells: seq<(int, real)>,
                                        questions: seq<Question>, cells': seq<(int, real)>, questions': seq<Question>)
    requires InRange(r) && AllWanted(obj, numHoops, r, cells, questions) && AllWanted(obj, numHoops, r, cells', questions')
    ensures AllWanted(obj, numHoops, r, cells + cells', questions + questions')
  {
    forall k | 0 <= k < |questions + questions'|
      ensures Wanted(obj, numHoops, r, (cells + cells')[k], (questions + questions')[k])
    {
      if k < |questions| {
        assert Wanted(obj, numHoops, r, cells[k], questions[k]);
      } else {
        assert Wanted(obj, numHoops, r, cells'[k - |questions|], questions'[k - |questions|]);
      }
    }
  }

  // Every row of the grid is part of it.
  lemma {:induction false} RowWithin(obj: LineObject, numHoops: nat, srcs: seq<int>, percents: seq<real>, i: nat)
    requires i < |srcs| && AllAskable(obj, numHoops, Cells(srcs, percents))
    ensures AllAskable(obj, numHoops, Row(srcs[i], percents))
  {
    var last := |srcs| - 1;
    var init, row := Cells(srcs[..last], percents), Row(srcs[last], percents);
    forall k | 0 <= k < |init| ensures Askable(obj, numHoops, init[k]) { assert Cells(srcs, percents)[k] == init[k]; }
    forall k | 0 <= k < |row| ensures Askable(obj, numHoops, row[k]) { assert Cells(srcs, percents)[|init| + k] == row[k]; }
    if i < last { RowWithin(obj, numHoops, srcs[..last], percents, i); }
  }

  // All questions of a run, one per source index and percentage, or the first exception.
  method EvalModel(obj: LineObject, numHoops: nat, srcs: seq<int>, percents: seq<real>,
                   ghost r: Redirects, ghost contents: seq<string>)
    returns (result: Result<seq<Question>>)
    requires Generated(r, contents, obj)
    ensures result.Ok? ==> AllWanted(obj, numHoops, r, Cells(srcs, percents), result.value)
    ensures result.Ok? <==> AllAskable(obj, numHoops, Cells(srcs, percents))
  {
    var questions := [];
    for i := 0 to |srcs|
      invariant AllWanted(obj, numHoops, r, Cells(srcs[..i], percents), questions)
      invariant AllAskable(obj, numHoops, Cells(srcs[..i], percents))
    {
      var row := AskRow(obj, numHoops, srcs[i], percents, r, contents);
      CellsGrow(srcs, percents, i);
      if row.Err? {
        if AllAskable(obj, numHoops, Cells(srcs, percents)) { RowWithin(obj, numHoops, srcs, percents, i); }
        return Err(row.exception);
      }
      WantedConcat(obj, numHoops, r, Cells(srcs[..i], percents), questions, Row(srcs[i], percents), row.value);
      questions := questions + row.value;
    }
    assert srcs[..|srcs|] == srcs;
    result := Ok(questions);
  }
}
