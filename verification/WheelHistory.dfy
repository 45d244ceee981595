// The wheel index over any sequence of releases.
module WheelHistory {
  import opened Basics
  import opened Text
  import opened WheelIndex

  function Links(r: Release): (links: seq<string>)
    ensures |links| == |r.wheels| && forall i :: 0 <= i < |links| ==> links[i] == Link(r.tag, r.wheels[i])
  {
    seq(|r.wheels|, i requires 0 <= i < |r.wheels| => Link(r.tag, r.wheels[i]))
  }

  // Every link ever published, the latest release first.
  function AllLinks(history: seq<Release>): seq<string> {
    if history == [] then [] else Links(history[|history| - 1]) + AllLinks(history[..|history| - 1])
  }

  ghost predicate SingleLines(r: Release) {
    OneLine(r.tag) && forall w :: w in r.wheels ==> OneLine(w.filename) && OneLine(w.sha256)
  }

  ghost predicate GoodLinks(links: seq<string>) {
    forall l :: l in links ==> IsLink(l) && OneLine(l)
  }

  lemma {:induction false} OneLineConcat(a: string, b: string)
    requires OneLine(a) && OneLine(b)
    ensures OneLine(a + b)
  {
  }

  lemma {:induction false} UrlOneLine()
    ensures OneLine(LINK_START) && OneLine("\"" + BASE_URL + "/")
  {
    BaseUrlOneLine();
    OneLineConcat("\"", BASE_URL);
    OneLineConcat("\"" + BASE_URL, "/");
  }

  lemma {:induction false} BaseUrlOneLine()
    ensures OneLine(BASE_URL)
  {
    OneLineConcat("https://github.com", "/sgl-project/whl");
    OneLineConcat("https://github.com" + "/sgl-project/whl", "/releases/download");
  }

  lemma {:induction false} LinkIsGood(tag: string, w: Wheel)
    requires OneLine(tag) && OneLine(w.filename) && OneLine(w.sha256)
    ensures IsLink(Link(tag, w)) && OneLine(Link(tag, w))
  {
    UrlOneLine();
    OneLineConcat(tag, "/");
    OneLineConcat(LINK_START, "\"" + BASE_URL + "/");
    OneLineConcat(LINK_START + ("\"" + BASE_URL + "/"), tag + "/");
    OneLineConcat("#sha256=", w.sha256);
    OneLineConcat("#sha256=" + w.sha256, "\"");
    OneLineConcat(BeforeName(tag), w.filename);
    OneLineConcat(BeforeName(tag) + w.filename, AfterName(w.sha256));
    OneLineConcat(w.filename, "</a><br>");
    OneLineConcat(LinkHead(tag, w), ">");
    OneLineConcat(LinkHead(tag, w) + ">", w.filename + "</a><br>");
    assert Link(tag, w)[..|LINK_START|] == LINK_START;
  }

  lemma {:induction false} LinksAreGood(r: Release)
    requires SingleLines(r)
    ensures GoodLinks(Links(r))
  {
    forall l | l in Links(r) ensures IsLink(l) && OneLine(l) {
      var i :| 0 <= i < |Links(r)| && Links(r)[i] == l;
      assert r.wheels[i] in r.wheels;
      LinkIsGood(r.tag, r.wheels[i]);
    }
  }

  lemma {:induction false} FreshSubset(links: seq<string>, seen: set<string>)
    ensures forall l :: l in Fresh(links, seen) ==> l in links && FilenameOf(l).Some? && FilenameOf(l).value !in seen
  {
    if links != [] {
      var name := FilenameOf(links[0]);
      FreshSubset(links[1..], seen);
      if name.Some? { FreshSubset(links[1..], seen + {name.value}); }
    }
  }

  method ReleaseLinks(tag: string, dist: seq<Wheel>) returns (links: seq<string>)
    ensures links == Links(Release(tag, dist))
  {
    links := [];
    for i := 0 to |dist|
      invariant links == Links(Release(tag, dist))[..i]
    {
      links := links + [Link(tag, dist[i])];
    }
  }

  // The file starts with the heading of its CUDA version.
  ghost predicate HeadedFor(cuda: string, content: string) {
    var lines := Split(content, "\n");
    |lines| > 2 && lines[0] == "<!DOCTYPE html>" && lines[1] == "<h1>SGLang Nightly Wheels (" + cuda + ")</h1>"
  }

  lemma {:induction false} HeadedFile(cuda: string, links: seq<string>)
    requires OneLine(cuda) && forall l :: l in links ==> OneLine(l)
    ensures HeadedFor(cuda, Print(cuda, links))
  {
    PrintedLines(cuda, links);
  }

  // The package index file of one CUDA directory.
  class PackageIndex {
    const cuda: string
    var content: Option<string>
    ghost var history: seq<Release>

    ghost predicate Valid()
      reads this
    {
      && OneLine(cuda) && (content.None? ==> history == [])
      && (content.Some? ==> Parse(content.value) == Fresh(AllLinks(history), {}) && GoodLinks(Parse(content.value)))
    }

    constructor (cudaVersion: string)
      requires OneLine(cudaVersion)
      ensures Valid() && content == None && history == []
      ensures cuda == if "cu" <= cudaVersion then cudaVersion else "cu" + cudaVersion
    {
      cuda := if "cu" <= cudaVersion then cudaVersion else "cu" + cudaVersion;
      content, history := None, [];
    }

    // `dist` is the directory's sorted wheels, if the directory exists.
    method Update(tag: string, dist: Option<seq<Wheel>>) returns (r: Result<nat>)
      requires Valid() && (dist.Some? ==> SingleLines(Release(tag, dist.value)))
      modifies this
      ensures Valid()
      ensures r.Err? <==> dist.None? || dist.value == []
      ensures r.Err? ==> content == old(content) && history == old(history)
      ensures r.Ok? ==>
        && history == old(history) + [Release(tag, dist.value)]
        && content.Some? && Parse(content.value) == Fresh(AllLinks(history), {})
        && r.value == |Parse(content.value)|
        && HeadedFor(cuda, content.value)
    {
      if dist.None? { return Err("FileNotFoundError"); }
      var existing := if content.Some? then Parse(content.value) else [];
      var newLinks := ReleaseLinks(tag, dist.value);
      ghost var release := Release(tag, dist.value);
      if newLinks == [] { return Err("RuntimeError"); }
      var unique := RemoveDuplicates(newLinks + existing);
      MergeStep(history, release, existing);
      LinksAreGood(release);
      FreshSubset(newLinks + existing, {});
      ParsePrint(cuda, unique);
      HeadedFile(cuda, unique);
      content := Some(Print(cuda, unique));
      history := history + [release];
      return Ok(|unique|);
    }
  }

  lemma {:induction false} MergeStep(history: seq<Release>, r: Release, existing: seq<string>)
    requires existing == Fresh(AllLinks(history), {})
    ensures Fresh(Links(r) + existing, {}) == Fresh(AllLinks(history + [r]), {})
  {
    assert (history + [r])[..|history|] == history;
    MergeIsOnePass(Links(r), AllLinks(history));
  }

  // --- One link per wheel, from the latest release that has it ---

  function Showing(links: seq<string>, name: string): nat {
    if links == [] then 0 else Showing(links[1..], name) + if FilenameOf(links[0]) == Some(name) then 1 else 0
  }

  lemma {:induction false} FreshCounts(links: seq<string>, seen: set<string>, name: string)
    ensures Showing(Fresh(links, seen), name) == if name in NamesOf(links) && name !in seen then 1 else 0
  {
    if links != [] {
      var head := FilenameOf(links[0]);
      if head.Some? && head.value !in seen {
        FreshCounts(links[1..], seen + {head.value}, name);
        assert Fresh(links, seen)[1..] == Fresh(links[1..], seen + {head.value});
      } else {
        FreshCounts(links[1..], seen, name);
      }
    }
  }

  ghost predicate Proper(r: Release) {
    && Clean(r.tag)
    && (forall w :: w in r.wheels ==> Clean(w.filename) && IsWheelName(w.filename) && Clean(w.sha256))
    && (forall i, j :: 0 <= i < j < |r.wheels| ==> r.wheels[i].filename != r.wheels[j].filename)
  }

  ghost predicate Publishes(r: Release, name: string) {
    exists w :: w in r.wheels && w.filename == name
  }

  lemma {:induction false} NamesConcat(a: seq<string>, b: seq<string>)
    ensures NamesOf(a + b) == NamesOf(a) + NamesOf(b)
  {
    if a == [] {
      assert a + b == b;
    } else {
      NamesConcat(a[1..], b);
      assert (a + b)[1..] == a[1..] + b;
    }
  }

  lemma {:induction false} NamesMember(links: seq<string>, name: string)
    ensures name in NamesOf(links) <==> exists i :: 0 <= i < |links| && FilenameOf(links[i]) == Some(name)
  {
    if links != [] {
      NamesMember(links[1..], name);
      if name in NamesOf(links[1..]) {
        var i :| 0 <= i < |links[1..]| && FilenameOf(links[1..][i]) == Some(name);
        assert FilenameOf(links[i + 1]) == Some(name);
      }
      if i :| 0 <= i < |links| && FilenameOf(links[i]) == Some(name) && i > 0 {
        assert FilenameOf(links[1..][i - 1]) == Some(name);
      }
    }
  }

  lemma {:induction false} NamesShown(r: Release)
    requires Proper(r)
    ensures forall i :: 0 <= i < |r.wheels| ==> FilenameOf(Links(r)[i]) == Some(r.wheels[i].filename)
  {
    forall i | 0 <= i < |r.wheels| ensures FilenameOf(Links(r)[i]) == Some(r.wheels[i].filename) {
      assert r.wheels[i] in r.wheels;
      NameShownIff(r.tag, r.wheels[i]);
    }
  }

  lemma {:induction false} NamesOfRelease(r: Release, name: string)
    requires Proper(r)
    ensures name in NamesOf(Links(r)) <==> Publishes(r, name)
    ensures forall i :: 0 <= i < |r.wheels| ==> FilenameOf(Links(r)[i]) == Some(r.wheels[i].filename)
  {
    NamesShown(r);
    NamesMember(Links(r), name);
    if Publishes(r, name) {
      var w :| w in r.wheels && w.filename == name;
      var i :| 0 <= i < |r.wheels| && r.wheels[i] == w;
      assert FilenameOf(Links(r)[i]) == Some(name);
    }
    if name in NamesOf(Links(r)) {
      var i :| 0 <= i < |Links(r)| && FilenameOf(Links(r)[i]) == Some(name);
      assert r.wheels[i] in r.wheels;
    }
  }

  lemma {:induction false} NamesOfHistory(history: seq<Release>, name: string)
    requires forall r :: r in history ==> Proper(r)
    ensures name in NamesOf(AllLinks(history)) <==> exists r :: r in history && Publishes(r, name)
  {
    if history != [] {
      var init, last := history[..|history| - 1], history[|history| - 1];
      NamesOfHistory(init, name);
      NamesOfRelease(last, name);
      NamesConcat(Links(last), AllLinks(init));
      assert forall r :: r in history <==> r in init || r == last;
    }
  }

  // After any releases the index shows each published wheel exactly once, and nothing else.
  lemma {:induction false} OneLinkPerWheel(history: seq<Release>, name: string)
    requires forall r :: r in history ==> Proper(r)
    ensures Showing(Fresh(AllLinks(history), {}), name) == if exists r :: r in history && Publishes(r, name) then 1 else 0
  {
    NamesOfHistory(history, name);
    FreshCounts(AllLinks(history), {}, name);
  }

  lemma {:induction false} AllLinksConcat(a: seq<Release>, b: seq<Release>)
    ensures AllLinks(a + b) == AllLinks(b) + AllLinks(a)
  {
    if b == [] {
      assert a + b == a;
    } else {
      AllLinksConcat(a, b[..|b| - 1]);
      assert (a + b)[..|a + b| - 1] == a + b[..|b| - 1];
      Associate(Links(b[|b| - 1]), AllLinks(b[..|b| - 1]), AllLinks(a));
    }
  }

  lemma {:induction false} Associate(x: seq<string>, y: seq<string>, z: seq<string>)
    ensures x + (y + z) == x + y + z
  {
  }

  lemma {:induction false} FirstIsKept(before: seq<string>, link: string, after: seq<string>)
    requires FilenameOf(link).Some? && FilenameOf(link).value !in NamesOf(before)
    ensures link in Fresh(before + [link] + after, {})
  {
    assert before + [link] + after == before + ([link] + after);
    FreshConcat(before, [link] + after, {});
    var rest := Fresh([link] + after, {} + NamesOf(before));
    assert rest[0] == link;
  }

  lemma {:induction false} FirstOfItsName(before: seq<string>, links: seq<string>, k: nat, after: seq<string>)
    requires k < |links| && FilenameOf(links[k]).Some? && FilenameOf(links[k]).value !in NamesOf(before)
    requires forall i :: 0 <= i < k ==> FilenameOf(links[i]) != FilenameOf(links[k])
    ensures links[k] in Fresh(before + links + after, {})
  {
    var name := FilenameOf(links[k]).value;
    NamesMember(links[..k], name);
    NamesConcat(before, links[..k]);
    assert before + links + after == (before + links[..k]) + [links[k]] + (links[k + 1..] + after);
    FirstIsKept(before + links[..k], links[k], links[k + 1..] + after);
  }

  // The one link shown for a wheel is that of the latest release publishing it.
  lemma {:induction false} LatestReleaseWins(older: seq<Release>, r: Release, newer: seq<Release>, k: nat)
    requires Proper(r) && k < |r.wheels| && forall q :: q in newer ==> Proper(q) && !Publishes(q, r.wheels[k].filename)
    ensures Link(r.tag, r.wheels[k]) in Fresh(AllLinks(older + [r] + newer), {})
  {
    var name := r.wheels[k].filename;
    AllLinksConcat(older + [r], newer);
    assert (older + [r])[..|older|] == older;
    Associate(AllLinks(newer), Links(r), AllLinks(older));
    NamesOfHistory(newer, name);
    NamesOfRelease(r, name);
    FirstOfItsName(AllLinks(newer), Links(r), k, AllLinks(older));
  }

  // A release puts its own links first, in its order, then the survivors in theirs.
  lemma {:induction false} NewestFirst(r: Release, existing: seq<string>)
    requires Proper(r)
    ensures Fresh(Links(r) + existing, {}) == Links(r) + Fresh(existing, NamesOf(Links(r)))
  {
    FreshConcat(Links(r), existing, {});
    NamesOfRelease(r, "");
    AllFresh(r, 0, {});
    assert Links(r)[0..] == Links(r);
    assert {} + NamesOf(Links(r)) == NamesOf(Links(r));
  }

  lemma {:induction false} AllFresh(r: Release, i: nat, seen: set<string>)
    requires Proper(r) && i <= |r.wheels| && forall j :: 0 <= j < |r.wheels| ==> FilenameOf(Links(r)[j]) == Some(r.wheels[j].filename)
    requires forall j :: i <= j < |r.wheels| ==> r.wheels[j].filename !in seen
    ensures Fresh(Links(r)[i..], seen) == Links(r)[i..]
    decreases |r.wheels| - i
  {
    if i < |r.wheels| {
      AllFresh(r, i + 1, seen + {r.wheels[i].filename});
      assert Links(r)[i..][1..] == Links(r)[i + 1..];
    }
  }
}
