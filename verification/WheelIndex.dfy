// The nightly wheel index: a file of links that every release reads back, merges with its
// own links, deduplicates by wheel name and writes again.
module WheelIndex {
  import opened Basics
  import opened Text

  datatype Wheel = Wheel(filename: string, sha256: string)

  datatype Release = Release(tag: string, wheels: seq<Wheel>)

  const BASE_URL := "https://github.com" + "/sgl-project/whl" + "/releases/download"
  const LINK_START := "<a href="
  const SUFFIX := ".whl"
  const END_TAG := "</a>"

  function BeforeName(tag: string): string {
    LINK_START + ("\"" + BASE_URL + "/") + (tag + "/")
  }

  function AfterName(sha256: string): string {
    "#sha256=" + sha256 + "\""
  }

  function LinkHead(tag: string, w: Wheel): string {
    BeforeName(tag) + w.filename + AfterName(w.sha256)
  }

  function Link(tag: string, w: Wheel): string {
    LinkHead(tag, w) + ">" + (w.filename + "</a><br>")
  }

  // --- The file name a link shows: >([^<]+\.whl)</a> ---

  function NextAngle(s: string, from: nat): (e: nat)
    requires from <= |s|
    ensures from <= e <= |s|
    ensures forall k :: from <= k < e ==> s[k] != '<'
    ensures e < |s| ==> s[e] == '<'
    decreases |s| - from
  {
    if from == |s| || s[from] == '<' then from else NextAngle(s, from + 1)
  }

  predicate IsWheelName(name: string) {
    |name| > |SUFFIX| && name[|name| - |SUFFIX|..] == SUFFIX
  }

  predicate MatchAt(link: string, p: nat) {
    && p < |link| && link[p] == '>'
    && var e := NextAngle(link, p + 1); StartsAt(link, END_TAG, e) && IsWheelName(link[p + 1..e])
  }

  // The leftmost match at or after `from`.
  function SearchName(link: string, from: nat): (r: Option<string>)
    requires from <= |link|
    decreases |link| - from
  {
    if from == |link| then None
    else if MatchAt(link, from) then Some(link[from + 1..NextAngle(link, from + 1)])
    else SearchName(link, from + 1)
  }

  function FilenameOf(link: string): Option<string> {
    SearchName(link, 0)
  }

  // --- Reading and writing the file ---

  predicate IsLink(line: string) {
    |line| >= |LINK_START| && line[..|LINK_START|] == LINK_START
  }

  function KeepLinks(lines: seq<string>): seq<string> {
    if lines == [] then []
    else KeepLinks(lines[..|lines| - 1]) + if IsLink(lines[|lines| - 1]) then [lines[|lines| - 1]] else []
  }

  function Parse(content: string): seq<string> {
    KeepLinks(Split(content, "\n"))
  }

  function Header(cuda: string): seq<string> {
    ["<!DOCTYPE html>", "<h1>SGLang Nightly Wheels (" + cuda + ")</h1>"]
  }

  function Print(cuda: string, links: seq<string>): string {
    Join(Header(cuda) + [if links == [] then "" else Join(links, "\n")] + [""], "\n")
  }

  // Text files are read with every line ending taken for a newline.
  ghost predicate OneLine(s: string) {
    '\n' !in s && '\r' !in s
  }

  lemma {:induction false} NewlineSeparator()
    ensures Borderless("\n")
  {
  }

  lemma {:induction false} OneLineFree(s: string)
    requires OneLine(s)
    ensures Free(s, "\n")
  {
    forall i: nat ensures !StartsAt(s, "\n", i) {
      assert i + 1 <= |s| ==> s[i..i + 1][0] == s[i] && s[i] in s;
    }
  }

  lemma {:induction false} JoinConcat(a: seq<string>, b: seq<string>, sep: string)
    requires a != [] && b != []
    ensures Join(a + b, sep) == Join(a, sep) + sep + Join(b, sep)
  {
    if |a| == 1 {
      assert (a + b)[1..] == b;
    } else {
      JoinConcat(a[1..], b, sep);
      assert (a + b)[1..] == a[1..] + b;
    }
  }

  // Nesting one join inside another makes no difference.
  lemma {:induction false} PrintFlat(cuda: string, links: seq<string>)
    ensures Print(cuda, links) == Join(Header(cuda) + (if links == [] then [""] else links) + [""], "\n")
  {
    var body := if links == [] then [""] else links;
    var text := if links == [] then "" else Join(links, "\n");
    assert Join([text], "\n") == Join(body, "\n");
    JoinConcat(Header(cuda) + [text], [""], "\n");
    JoinConcat(Header(cuda), [text], "\n");
    JoinConcat(Header(cuda) + body, [""], "\n");
    JoinConcat(Header(cuda), body, "\n");
  }

  lemma {:induction false} KeepLinksConcat(a: seq<string>, b: seq<string>)
    ensures KeepLinks(a + b) == KeepLinks(a) + KeepLinks(b)
  {
    if b == [] {
      assert a + b == a;
    } else {
      KeepLinksConcat(a, b[..|b| - 1]);
      assert (a + b)[..|a + b| - 1] == a + b[..|b| - 1];
    }
  }

  lemma {:induction false} KeepLinksAll(links: seq<string>)
    requires forall i :: 0 <= i < |links| ==> IsLink(links[i])
    ensures KeepLinks(links) == links
  {
    if links != [] {
      var init, last := links[..|links| - 1], links[|links| - 1];
      KeepLinksAll(init);
      assert IsLink(last) && links == init + [last];
    }
  }

  lemma {:induction false} KeepLinksNone(lines: seq<string>)
    requires forall i :: 0 <= i < |lines| ==> !IsLink(lines[i])
    ensures KeepLinks(lines) == []
  {
    if lines != [] { KeepLinksNone(lines[..|lines| - 1]); }
  }

  lemma {:induction false} NotALink(line: string)
    requires |line| > 1 && line[1] != 'a'
    ensures !IsLink(line)
  {
    assert LINK_START[1] == 'a';
    assert |line| >= |LINK_START| ==> line[..|LINK_START|][1] == line[1];
  }

  lemma {:induction false} HeaderOneLine(cuda: string)
    requires OneLine(cuda)
    ensures OneLine(Header(cuda)[0]) && OneLine(Header(cuda)[1])
  {
  }

  lemma {:induction false} LinesFree(cuda: string, body: seq<string>, k: nat)
    requires OneLine(cuda) && (forall l :: l in body ==> OneLine(l)) && k < |body| + 3
    ensures Free((Header(cuda) + body + [""])[k], "\n")
  {
    var lines := Header(cuda) + body + [""];
    HeaderOneLine(cuda);
    assert 2 <= k < |body| + 2 ==> lines[k] == body[k - 2] && body[k - 2] in body;
    OneLineFree(lines[k]);
  }

  // What is written is what is read back.
  lemma {:induction false} ParsePrint(cuda: string, links: seq<string>)
    requires OneLine(cuda) && forall l :: l in links ==> IsLink(l) && OneLine(l)
    ensures Parse(Print(cuda, links)) == links
  {
    var body := if links == [] then [""] else links;
    var lines := Header(cuda) + body + [""];
    PrintFlat(cuda, links);
    forall k | 0 <= k < |lines| ensures Free(lines[k], "\n") { LinesFree(cuda, body, k); }
    NewlineSeparator();
    SplitJoin(lines, "\n");
    KeepLines(cuda, links);
  }

  // The file's lines: the two heading lines, the links, and an end.
  lemma {:induction false} PrintedLines(cuda: string, links: seq<string>)
    requires OneLine(cuda) && forall l :: l in links ==> OneLine(l)
    ensures Split(Print(cuda, links), "\n") ==
      ["<!DOCTYPE html>", "<h1>SGLang Nightly Wheels (" + cuda + ")</h1>"] + (if links == [] then [""] else links) + [""]
  {
    var body := if links == [] then [""] else links;
    var lines := Header(cuda) + body + [""];
    PrintFlat(cuda, links);
    forall k | 0 <= k < |lines| ensures Free(lines[k], "\n") { LinesFree(cuda, body, k); }
    NewlineSeparator();
    SplitJoin(lines, "\n");
  }

  lemma {:induction false} KeepLines(cuda: string, links: seq<string>)
    requires forall l :: l in links ==> IsLink(l)
    ensures KeepLinks(Header(cuda) + (if links == [] then [""] else links) + [""]) == links
  {
    var body := if links == [] then [""] else links;
    forall l | l in Header(cuda) ensures !IsLink(l) { NotALink(l); }
    KeepLinksNone(Header(cuda));
    KeepLinksNone([""]);
    KeepBody(Header(cuda), body);
    if links != [] { KeepLinksAll(links); }
  }

  lemma {:induction false} KeepBody(header: seq<string>, body: seq<string>)
    requires KeepLinks(header) == [] && KeepLinks([""]) == []
    ensures KeepLinks(header + body + [""]) == KeepLinks(body)
  {
    KeepLinksConcat(header + body, [""]);
    KeepLinksConcat(header, body);
  }

  // --- What a link points to ---

  function IndexOf(s: string, c: char): (i: nat)
    ensures i <= |s|
  {
    if s == [] || s[0] == c then 0 else 1 + IndexOf(s[1..], c)
  }

  lemma {:induction false} IndexOfFirst(a: string, c: char, b: string)
    requires c !in a
    ensures IndexOf(a + [c] + b, c) == |a|
  {
    if a == [] {
      assert (a + [c] + b)[0] == c;
    } else {
      assert (a + [c] + b)[0] == a[0] && (a + [c] + b)[1..] == a[1..] + [c] + b;
      IndexOfFirst(a[1..], c, b);
    }
  }

  // The text before and after the first occurrence of a character.
  function Cut(s: string, c: char): Option<(string, string)> {
    var i := IndexOf(s, c);
    if i < |s| then Some((s[..i], s[i + 1..])) else None
  }

  lemma {:induction false} CutAt(a: string, c: char, b: string)
    requires c !in a
    ensures Cut(a + [c] + b, c) == Some((a, b))
  {
    IndexOfFirst(a, c, b);
    var s := a + [c] + b;
    assert s[..|a|] == a && s[|a| + 1..] == b;
  }

  // How a reader takes an address apart: the release after the base, then the file, then the
  // fragment that gives its hash.
  function ReadAddress(address: string): Option<(string, string, string)> {
    if |address| <= |BASE_URL| || address[..|BASE_URL|] != BASE_URL || address[|BASE_URL|] != '/' then None
    else
      var tag := Cut(address[|BASE_URL| + 1..], '/');
      if tag.None? then None
      else
        var name := Cut(tag.value.1, '#');
        if name.None? then None
        else
          var hash := Cut(name.value.1, '=');
          if hash.None? || hash.value.0 != "sha256" then None
          else Some((tag.value.0, name.value.0, hash.value.1))
  }

  // The address stands between the first two quotation marks.
  function ReadLink(link: string): Option<(string, string, string)> {
    var quoted := Cut(link, '"');
    if quoted.None? then None
    else
      var address := Cut(quoted.value.1, '"');
      if address.None? then None else ReadAddress(address.value.0)
  }

  function Address(tag: string, w: Wheel): string {
    BASE_URL + ['/'] + (tag + ['/'] + (w.filename + ['#'] + ("sha256" + ['='] + w.sha256)))
  }

  lemma {:induction false} AddressReadsBack(tag: string, w: Wheel)
    requires '/' !in tag && '#' !in w.filename
    ensures ReadAddress(Address(tag, w)) == Some((tag, w.filename, w.sha256))
  {
    var rest := tag + ['/'] + (w.filename + ['#'] + ("sha256" + ['='] + w.sha256));
    assert Address(tag, w)[..|BASE_URL|] == BASE_URL && Address(tag, w)[|BASE_URL| + 1..] == rest;
    CutAt(tag, '/', w.filename + ['#'] + ("sha256" + ['='] + w.sha256));
    CutAt(w.filename, '#', "sha256" + ['='] + w.sha256);
    CutAt("sha256", '=', w.sha256);
  }

  ghost predicate Unquoted(s: string) {
    '"' !in s
  }

  lemma {:induction false} UnquotedConcat(a: string, b: string)
    requires Unquoted(a) && Unquoted(b)
    ensures Unquoted(a + b)
  {
  }

  lemma {:induction false} BaseUrlUnquoted()
    ensures Unquoted(BASE_URL)
  {
    UnquotedConcat("https://github.com", "/sgl-project/whl");
    UnquotedConcat("https://github.com" + "/sgl-project/whl", "/releases/download");
  }

  lemma {:induction false} AddressUnquoted(tag: string, w: Wheel)
    requires Unquoted(tag) && Unquoted(w.filename) && Unquoted(w.sha256)
    ensures Unquoted(Address(tag, w))
  {
    BaseUrlUnquoted();
    UnquotedConcat("sha256" + ['='], w.sha256);
    UnquotedConcat(w.filename + ['#'], "sha256" + ['='] + w.sha256);
    UnquotedConcat(tag + ['/'], w.filename + ['#'] + ("sha256" + ['='] + w.sha256));
    UnquotedConcat(BASE_URL + ['/'], tag + ['/'] + (w.filename + ['#'] + ("sha256" + ['='] + w.sha256)));
  }

  lemma {:induction false} LinkParts(tag: string, w: Wheel)
    ensures Link(tag, w) == LINK_START + ['"'] + (Address(tag, w) + ['"'] + (">" + w.filename + "</a><br>"))
  {
    var fragment := "sha256" + ['='] + w.sha256;
    assert AfterName(w.sha256) == ['#'] + fragment + ['"'];
    assert BeforeName(tag) == LINK_START + ['"'] + (BASE_URL + ['/'] + (tag + ['/']));
    assert LinkHead(tag, w) == LINK_START + ['"'] + (Address(tag, w) + ['"']);
  }

  // A link can be read back: release, file name and hash are in its address.
  lemma {:induction false} LinkReadsBack(tag: string, w: Wheel)
    requires Unquoted(tag) && Unquoted(w.filename) && Unquoted(w.sha256) && '/' !in tag && '#' !in w.filename
    ensures ReadLink(Link(tag, w)) == Some((tag, w.filename, w.sha256))
  {
    LinkParts(tag, w);
    AddressUnquoted(tag, w);
    CutAt(LINK_START, '"', Address(tag, w) + ['"'] + (">" + w.filename + "</a><br>"));
    CutAt(Address(tag, w), '"', ">" + w.filename + "</a><br>");
    AddressReadsBack(tag, w);
  }

  // --- Names of links ---

  predicate Clean(s: string) {
    '<' !in s && '>' !in s && '\n' !in s
  }

  lemma {:induction false} SearchSkips(link: string, from: nat, p: nat)
    requires from <= p <= |link| && forall k :: from <= k < p ==> !MatchAt(link, k)
    ensures SearchName(link, from) == SearchName(link, p)
    decreases p - from
  {
    if from < p { SearchSkips(link, from + 1, p); }
  }

  lemma {:induction false} NextAngleAt(s: string, from: nat, e: nat)
    requires from <= e < |s| && s[e] == '<' && forall k :: from <= k < e ==> s[k] != '<'
    ensures NextAngle(s, from) == e
  {
  }

  predicate NoAngles(s: string) {
    '<' !in s && '>' !in s
  }

  lemma {:induction false} NoAnglesConcat(a: string, b: string)
    ensures NoAngles(a + b) <==> NoAngles(a) && NoAngles(b)
  {
    assert forall c :: c in a + b <==> c in a || c in b;
  }

  lemma {:induction false} LiteralsNoAngles()
    ensures NoAngles(LINK_START[1..]) && NoAngles("\"") && NoAngles(BASE_URL) && NoAngles("/") && NoAngles("#sha256=")
  {
    BaseUrlNoAngles();
  }

  lemma {:induction false} BaseUrlNoAngles()
    ensures NoAngles(BASE_URL)
  {
    NoAnglesConcat("https://github.com", "/sgl-project/whl");
    NoAnglesConcat("https://github.com" + "/sgl-project/whl", "/releases/download");
  }

  lemma {:induction false} HeadAngles(tag: string, w: Wheel)
    requires Clean(tag) && Clean(w.sha256)
    ensures NoAngles(AfterName(w.sha256)) && NoAngles(BeforeName(tag)[1..])
    ensures BeforeName(tag)[0] == '<'
  {
    LiteralsNoAngles();
    NoAnglesConcat("#sha256=", w.sha256);
    NoAnglesConcat("#sha256=" + w.sha256, "\"");
    var quoted := "\"" + BASE_URL + "/";
    NoAnglesConcat("\"" + BASE_URL, "/");
    NoAnglesConcat("\"", BASE_URL);
    NoAnglesConcat(tag, "/");
    NoAnglesConcat(LINK_START[1..], quoted);
    NoAnglesConcat(LINK_START[1..] + quoted, tag + "/");
    assert BeforeName(tag)[1..] == LINK_START[1..] + quoted + (tag + "/");
  }

  // The text after the head's closing angle bracket.
  lemma {:induction false} LinkShape(tag: string, w: Wheel)
    ensures var h := |LinkHead(tag, w)|; var link := Link(tag, w);
      && |link| == h + 1 + |w.filename| + 8 && link[h] == '>'
      && (forall k :: 0 <= k < h ==> link[k] == LinkHead(tag, w)[k])
      && link[h + 1..h + 1 + |w.filename|] == w.filename
      && StartsAt(link, END_TAG, h + 1 + |w.filename|) && link[h + 1 + |w.filename|] == '<'
  {
    var h, link := |LinkHead(tag, w)|, Link(tag, w);
    var e := h + 1 + |w.filename|;
    assert link == LinkHead(tag, w) + ">" + w.filename + "</a><br>";
    assert link[e..e + 4] == "</a><br>"[..4] == END_TAG;
  }

  lemma {:induction false} NoMatchBefore(tag: string, w: Wheel, k: nat)
    requires Clean(tag) && Clean(w.sha256) && '>' !in w.filename && k < |LinkHead(tag, w)|
    ensures !MatchAt(Link(tag, w), k)
  {
    LinkShape(tag, w);
    HeadAngles(tag, w);
    var a, f := BeforeName(tag), w.filename;
    var c := LinkHead(tag, w)[k];
    if k == 0 {
      assert c == a[0];
    } else if k < |a| {
      assert c == a[1..][k - 1] && a[1..][k - 1] in a[1..];
    } else if k < |a| + |f| {
      assert c == f[k - |a|] && f[k - |a|] in f;
    } else {
      var b := AfterName(w.sha256);
      assert c == b[k - |a| - |f|] && b[k - |a| - |f|] in b;
    }
  }

  lemma {:induction false} NameOfCleanLink(tag: string, w: Wheel)
    requires Clean(tag) && Clean(w.sha256) && NoAngles(w.filename) && IsWheelName(w.filename)
    ensures FilenameOf(Link(tag, w)) == Some(w.filename)
  {
    var h, link := |LinkHead(tag, w)|, Link(tag, w);
    LinkShape(tag, w);
    forall k | 0 <= k < h ensures !MatchAt(link, k) { NoMatchBefore(tag, w, k); }
    SearchSkips(link, 0, h);
    NameAfterHead(link, h, w.filename);
  }

  lemma {:induction false} NameAfterHead(link: string, h: nat, f: string)
    requires h + 1 + |f| < |link| && link[h] == '>' && link[h + 1..h + 1 + |f|] == f
    requires StartsAt(link, END_TAG, h + 1 + |f|) && link[h + 1 + |f|] == '<'
    requires NoAngles(f) && IsWheelName(f)
    ensures SearchName(link, h) == Some(f)
  {
    forall k | h + 1 <= k < h + 1 + |f| ensures link[k] != '<' {
      assert link[k] == f[k - h - 1] && f[k - h - 1] in f;
    }
    NextAngleAt(link, h + 1, h + 1 + |f|);
  }

  lemma {:induction false} SearchOrigin(link: string, from: nat)
    requires from <= |link| && SearchName(link, from).Some?
    ensures var f := SearchName(link, from).value; '<' !in f && IsWheelName(f)
    decreases |link| - from
  {
    if !MatchAt(link, from) { SearchOrigin(link, from + 1); }
  }

  lemma {:induction false} FirstIndex(s: string, c: char) returns (j: nat)
    requires c in s
    ensures j < |s| && s[j] == c && c !in s[..j]
  {
    if s[0] == c {
      j := 0;
    } else {
      j := FirstIndex(s[1..], c);
      assert s[..j + 1] == [s[0]] + s[1..][..j];
      j := j + 1;
    }
  }

  // A match that starts too early takes more than the name.
  lemma {:induction false} EarlyMatch(link: string, p: nat, e: nat, f: string)
    requires p + 1 + |f| < e < |link| && link[p] == '>' && link[e] == '<' && StartsAt(link, END_TAG, e)
    requires forall k :: 0 <= k < p ==> link[k] != '>'
    requires forall k :: p + 1 <= k < e ==> link[k] != '<'
    requires link[e - |f|..e] == f && IsWheelName(f)
    ensures FilenameOf(link) != Some(f)
  {
    SearchSkips(link, 0, p);
    NextAngleAt(link, p + 1, e);
    var name := link[p + 1..e];
    assert name[|name| - |SUFFIX|..] == link[e - |SUFFIX|..e] == f[|f| - |SUFFIX|..];
    assert MatchAt(link, p);
  }

  lemma {:induction false} NoCloseBefore(tag: string, w: Wheel, j: nat, k: nat)
    requires Clean(tag) && Clean(w.sha256) && j < |w.filename| && '>' !in w.filename[..j] && k < |BeforeName(tag)| + j
    ensures k < |Link(tag, w)| && Link(tag, w)[k] != '>'
  {
    LinkShape(tag, w);
    HeadAngles(tag, w);
    var a, f := BeforeName(tag), w.filename;
    if k == 0 {
      assert Link(tag, w)[k] == a[0];
    } else if k < |a| {
      assert Link(tag, w)[k] == a[1..][k - 1] && a[1..][k - 1] in a[1..];
    } else {
      assert Link(tag, w)[k] == f[..j][k - |a|] && f[..j][k - |a|] in f[..j];
    }
  }

  // An angle bracket in the name is met first inside the address, and swallows what follows.
  lemma {:induction false} AngleInName(tag: string, w: Wheel)
    requires Clean(tag) && Clean(w.sha256) && '<' !in w.filename && '>' in w.filename && IsWheelName(w.filename)
    ensures FilenameOf(Link(tag, w)) != Some(w.filename)
  {
    var f, link := w.filename, Link(tag, w);
    var j := FirstIndex(f, '>');
    var p, e := |BeforeName(tag)| + j, |LinkHead(tag, w)| + 1 + |f|;
    LinkShape(tag, w);
    forall k | 0 <= k < p ensures link[k] != '>' { NoCloseBefore(tag, w, j, k); }
    forall k | p + 1 <= k < e ensures link[k] != '<' { NoAngleUntilEnd(tag, w, k); }
    assert link[p] == LinkHead(tag, w)[p] == f[j];
    EarlyMatch(link, p, e, f);
  }

  lemma {:induction false} NoAngleUntilEnd(tag: string, w: Wheel, k: nat)
    requires Clean(tag) && Clean(w.sha256) && '<' !in w.filename
    requires |BeforeName(tag)| <= k < |LinkHead(tag, w)| + 1 + |w.filename|
    ensures k < |Link(tag, w)| && Link(tag, w)[k] != '<'
  {
    LinkShape(tag, w);
    HeadAngles(tag, w);
    var a, f, b := BeforeName(tag), w.filename, AfterName(w.sha256);
    var h, link := |LinkHead(tag, w)|, Link(tag, w);
    if k < |a| + |f| {
      assert link[k] == f[k - |a|] && f[k - |a|] in f;
    } else if k < h {
      assert link[k] == b[k - |a| - |f|] && b[k - |a| - |f|] in b;
    } else if k > h {
      assert link[k] == link[h + 1..h + 1 + |f|][k - h - 1] == f[k - h - 1] && f[k - h - 1] in f;
    }
  }

  // A link shows its own file name exactly for names with a stem and no angle brackets.
  // The links of other wheels are filed under another name or dropped.
  lemma {:induction false} NameShownIff(tag: string, w: Wheel)
    requires Clean(tag) && Clean(w.sha256)
    ensures FilenameOf(Link(tag, w)) == Some(w.filename) <==> NoAngles(w.filename) && IsWheelName(w.filename)
  {
    if FilenameOf(Link(tag, w)) == Some(w.filename) {
      SearchOrigin(Link(tag, w), 0);
      if '>' in w.filename { AngleInName(tag, w); }
    } else if NoAngles(w.filename) && IsWheelName(w.filename) {
      NameOfCleanLink(tag, w);
    }
  }

  // --- Deduplication ---

  // Links with a name not seen before, in order.
  function Fresh(links: seq<string>, seen: set<string>): seq<string> {
    if links == [] then []
    else
      var name := FilenameOf(links[0]);
      if name.Some? && name.value !in seen then [links[0]] + Fresh(links[1..], seen + {name.value})
      else Fresh(links[1..], seen)
  }

  function NamesOf(links: seq<string>): set<string> {
    if links == [] then {}
    else NamesOf(links[1..]) + if FilenameOf(links[0]).Some? then {FilenameOf(links[0]).value} else {}
  }

  lemma {:induction false} FreshConcat(a: seq<string>, b: seq<string>, seen: set<string>)
    ensures Fresh(a + b, seen) == Fresh(a, seen) + Fresh(b, seen + NamesOf(a))
  {
    if a == [] {
      assert a + b == b && seen + NamesOf(a) == seen;
    } else {
      var name := FilenameOf(a[0]);
      var seen' := if name.Some? then seen + {name.value} else seen;
      FreshConcat(a[1..], b, seen');
      assert (a + b)[1..] == a[1..] + b;
      assert seen' + NamesOf(a[1..]) == seen + NamesOf(a);
      if name.Some? && name.value in seen { assert seen' == seen; }
    }
  }

  // Deduplicating again against more names is deduplicating once.
  lemma {:induction false} FreshFresh(links: seq<string>, few: set<string>, many: set<string>)
    requires few <= many
    ensures Fresh(Fresh(links, few), many) == Fresh(links, many)
  {
    if links != [] {
      var name := FilenameOf(links[0]);
      if name.Some? && name.value !in few {
        FreshFresh(links[1..], few + {name.value}, many + {name.value});
        var inner := Fresh(links[1..], few + {name.value});
        assert Fresh(links, few)[1..] == inner;
        if name.value in many { assert many + {name.value} == many; }
      } else {
        FreshFresh(links[1..], few, many);
      }
    }
  }

  // Merging a release into an already deduplicated index, or deduplicating everything once.
  lemma {:induction false} MergeIsOnePass(a: seq<string>, b: seq<string>)
    ensures Fresh(a + Fresh(b, {}), {}) == Fresh(a + b, {})
  {
    FreshConcat(a, Fresh(b, {}), {});
    FreshConcat(a, b, {});
    FreshFresh(b, {}, {} + NamesOf(a));
  }

  // The loop with its `seen` set.
  method RemoveDuplicates(links: seq<string>) returns (kept: seq<string>)
    ensures kept == Fresh(links, {})
  {
    var seen := {};
    kept := [];
    for i := 0 to |links|
      invariant Fresh(links, {}) == kept + Fresh(links[i..], seen)
    {
      var name := FilenameOf(links[i]);
      assert links[i..][1..] == links[i + 1..];
      if name.Some? {
        if name.value !in seen {
          seen := seen + {name.value};
          kept := kept + [links[i]];
        }
      }
    }
  }
}
