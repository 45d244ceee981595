// Answers taken out of \boxed{...}, and the rewriting of short \frac arguments.
module AnswerExtraction {
  import opened Basics
  import opened Text

  const BOXED := "boxed{"
  const FRAC := "\\frac"

  lemma {:induction false} DistinctHead(sep: string)
    requires sep != [] && forall k :: 0 < k < |sep| ==> sep[k] != sep[0]
    ensures Borderless(sep)
  {
    forall k | 0 < k < |sep| ensures sep[..|sep| - k] != sep[k..] {
      assert sep[..|sep| - k][0] == sep[0] && sep[k..][0] == sep[k];
    }
  }

  lemma {:induction false} SeparatorsBorderless()
    ensures Borderless(BOXED) && Borderless(FRAC)
    ensures '}' !in BOXED && '{' !in FRAC && '}' !in FRAC
  {
    DistinctHead(BOXED);
    DistinctHead(FRAC);
  }

  // A character foreign to the separator keeps the two sides apart.
  lemma {:induction false} FreeAround(x: string, c: char, y: string, sep: string)
    requires sep != [] && Free(x, sep) && Free(y, sep) && c !in sep
    ensures Free(x + [c] + y, sep)
  {
    var s := x + [c] + y;
    forall i: nat ensures !StartsAt(s, sep, i) {
      if i + |sep| <= |x| {
        assert s[i..i + |sep|] == x[i..i + |sep|] && !StartsAt(x, sep, i);
      } else if i > |x| {
        var j := i - |x| - 1;
        assert !StartsAt(y, sep, j);
        assert i + |sep| <= |s| ==> s[i..i + |sep|] == y[j..j + |sep|];
      } else if i + |sep| <= |s| {
        assert s[i..i + |sep|][|x| - i] == c;
      }
    }
  }

  // --- Balanced braces ---

  function Depth(s: string): int {
    if s == [] then 0
    else Depth(s[..|s| - 1]) + if s[|s| - 1] == '{' then 1 else if s[|s| - 1] == '}' then -1 else 0
  }

  ghost predicate NeverNegative(s: string) {
    forall i :: 0 <= i <= |s| ==> Depth(s[..i]) >= 0
  }

  ghost predicate Balanced(s: string) {
    NeverNegative(s) && Depth(s) == 0
  }

  lemma {:induction false} DepthConcat(a: string, b: string)
    ensures Depth(a + b) == Depth(a) + Depth(b)
  {
    if b == [] {
      assert a + b == a;
    } else {
      DepthConcat(a, b[..|b| - 1]);
      assert (a + b)[..|a + b| - 1] == a + b[..|b| - 1];
    }
  }

  // The closing brace of a box: the first one that nothing before it opens.
  ghost predicate Closes(piece: string, i: nat) {
    i < |piece| && piece[i] == '}' && Balanced(piece[..i])
  }

  lemma {:induction false} ClosesOnce(piece: string, i: nat, j: nat)
    requires Closes(piece, i) && Closes(piece, j)
    ensures i == j
  {
    if i < j { NotPast(piece, i, j); } else if j < i { NotPast(piece, j, i); }
  }

  lemma {:induction false} NotPast(piece: string, i: nat, j: nat)
    requires Closes(piece, i) && i < j <= |piece|
    ensures !NeverNegative(piece[..j])
  {
    assert piece[..j][..i + 1] == piece[..i + 1];
    assert piece[..i + 1][..i] == piece[..i];
  }

  // What one piece after "boxed{" contributes, stated without the scan.
  ghost predicate Yields(piece: string, answer: Option<string>) {
    match answer
    case None => forall i: nat :: !Closes(piece, i)
    case Some(a) => exists i: nat :: Closes(piece, i) && a == Taken(piece, i)
  }

  // A closing brace followed by a percent sign is kept.
  function Taken(piece: string, i: nat): string
    requires i < |piece|
  {
    if i + 1 < |piece| && piece[i + 1] == '%' then piece[..i + 1] else piece[..i]
  }

  // The scan of one piece with its depth counter.
  method ScanPiece(piece: string) returns (answer: Option<string>)
    ensures Yields(piece, answer)
  {
    var n := 0;
    for i := 0 to |piece|
      invariant n == Depth(piece[..i]) && NeverNegative(piece[..i])
      invariant forall j: nat :: j < i ==> !Closes(piece, j)
    {
      assert piece[..i + 1][..i] == piece[..i];
      if piece[i] == '{' {
        n := n + 1;
      } else if piece[i] == '}' {
        n := n - 1;
        if n < 0 {
          assert Closes(piece, i);
          if i + 1 < |piece| && piece[i + 1] == '%' { return Some(piece[..i + 1]); }
          return Some(piece[..i]);
        }
      }
      PrefixGrows(piece, i);
    }
    return None;
  }

  lemma {:induction false} PrefixGrows(piece: string, i: nat)
    requires i < |piece| && NeverNegative(piece[..i]) && Depth(piece[..i + 1]) >= 0
    ensures NeverNegative(piece[..i + 1]) && !Closes(piece, i)
  {
    var t := piece[..i + 1];
    forall j | 0 <= j <= |t| ensures Depth(t[..j]) >= 0 {
      if j <= i { assert t[..j] == piece[..i][..j]; } else { assert t[..j] == t; }
    }
    assert t[..i] == piece[..i];
  }

  ghost function AnswerOf(piece: string): (answer: Option<string>)
    ensures Yields(piece, answer)
  {
    if i: nat :| Closes(piece, i) then Some(Taken(piece, i)) else None
  }

  lemma {:induction false} YieldsOnce(piece: string, answer: Option<string>)
    requires Yields(piece, answer)
    ensures answer == AnswerOf(piece)
  {
    if i: nat :| Closes(piece, i) {
      forall j: nat | Closes(piece, j) ensures j == i { ClosesOnce(piece, i, j); }
    }
  }

  ghost function Collect(pieces: seq<string>): seq<string> {
    if pieces == [] then []
    else
      var init, last := Collect(pieces[..|pieces| - 1]), AnswerOf(pieces[|pieces| - 1]);
      if last.Some? then init + [last.value] else init
  }

  ghost function Extracted(text: string): seq<string> {
    Collect(Split(text, BOXED)[1..])
  }

  method ExtractBoxedAnswers(text: string) returns (answers: seq<string>)
    ensures answers == Extracted(text)
  {
    var pieces := Split(text, BOXED)[1..];
    answers := [];
    for k := 0 to |pieces|
      invariant answers == Collect(pieces[..k])
    {
      var answer := ScanPiece(pieces[k]);
      YieldsOnce(pieces[k], answer);
      assert pieces[..k + 1][..k] == pieces[..k];
      if answer.Some? { answers := answers + [answer.value]; }
    }
    assert pieces[..|pieces|] == pieces;
  }

  // --- Round trip ---

  // A box with its body and the text after it.
  datatype Box = Box(body: string, after: string)

  function Piece(b: Box): string { b.body + ['}'] + b.after }

  function Render(before: string, boxes: seq<Box>): string
    decreases boxes
  {
    if boxes == [] then before else before + BOXED + Render(Piece(boxes[0]), boxes[1..])
  }

  ghost predicate Plain(b: Box) {
    Balanced(b.body) && Free(b.body, BOXED) && Free(b.after, BOXED)
  }

  function Content(b: Box): string {
    if b.after != [] && b.after[0] == '%' then b.body + ['}'] else b.body
  }

  function Pieces(boxes: seq<Box>): (r: seq<string>)
    ensures |r| == |boxes| && forall i :: 0 <= i < |boxes| ==> r[i] == Piece(boxes[i])
  {
    seq(|boxes|, i requires 0 <= i < |boxes| => Piece(boxes[i]))
  }

  function Contents(boxes: seq<Box>): (r: seq<string>)
    ensures |r| == |boxes| && forall i :: 0 <= i < |boxes| ==> r[i] == Content(boxes[i])
  {
    seq(|boxes|, i requires 0 <= i < |boxes| => Content(boxes[i]))
  }

  lemma {:induction false} PieceFree(b: Box)
    requires Plain(b)
    ensures Free(Piece(b), BOXED)
  {
    SeparatorsBorderless();
    FreeAround(b.body, '}', b.after, BOXED);
  }

  lemma {:induction false} SplitRendered(before: string, boxes: seq<Box>)
    requires Free(before, BOXED) && forall b :: b in boxes ==> Plain(b)
    ensures Split(Render(before, boxes), BOXED) == [before] + Pieces(boxes)
    decreases boxes
  {
    if boxes == [] {
      SplitFree(before, BOXED);
    } else {
      var first, rest := Piece(boxes[0]), boxes[1..];
      PieceFree(boxes[0]);
      SplitRendered(first, rest);
      SplitFirst(before, Render(first, rest), [first] + Pieces(rest));
      assert Pieces(boxes) == [first] + Pieces(rest);
    }
  }

  lemma {:induction false} SplitFirst(before: string, rest: string, pieces: seq<string>)
    requires Free(before, BOXED) && Split(rest, BOXED) == pieces
    ensures Split(before + BOXED + rest, BOXED) == [before] + pieces
  {
    SeparatorsBorderless();
    SplitAtSeparator(before, BOXED, rest);
  }

  lemma {:induction false} PieceAnswer(b: Box)
    requires Balanced(b.body)
    ensures AnswerOf(Piece(b)) == Some(Content(b))
  {
    var p := Piece(b);
    assert p[..|b.body|] == b.body;
    assert Closes(p, |b.body|);
    assert p[..|b.body| + 1] == b.body + ['}'];
    YieldsOnce(p, Some(Taken(p, |b.body|)));
  }

  lemma {:induction false} CollectPieces(boxes: seq<Box>)
    requires forall b :: b in boxes ==> Plain(b)
    ensures Collect(Pieces(boxes)) == Contents(boxes)
  {
    if boxes != [] {
      var init, last := boxes[..|boxes| - 1], boxes[|boxes| - 1];
      assert last in boxes;
      CollectPieces(init);
      PieceAnswer(last);
      assert Pieces(boxes)[..|boxes| - 1] == Pieces(init);
      assert Contents(boxes) == Contents(init) + [Content(last)];
    }
  }

  // Any number of boxes with balanced contents come back in order.
  lemma {:induction false} ExtractsBoxes(before: string, boxes: seq<Box>)
    requires Free(before, BOXED) && forall b :: b in boxes ==> Plain(b)
    ensures Extracted(Render(before, boxes)) == Contents(boxes)
  {
    SplitRendered(before, boxes);
    assert ([before] + Pieces(boxes))[1..] == Pieces(boxes);
    CollectPieces(boxes);
  }

  // An extracted answer is balanced exactly when no percent sign follows its closing brace.
  lemma {:induction false} AnswerBalancedIff(piece: string, i: nat)
    requires Closes(piece, i)
    ensures AnswerOf(piece) == Some(Taken(piece, i))
    ensures Balanced(Taken(piece, i)) <==> !(i + 1 < |piece| && piece[i + 1] == '%')
  {
    YieldsOnce(piece, Some(Taken(piece, i)));
    assert piece[..i + 1][..i] == piece[..i];
  }

  lemma {:induction false} CollectOrigin(pieces: seq<string>, a: string)
    requires a in Collect(pieces)
    ensures exists k :: 0 <= k < |pieces| && AnswerOf(pieces[k]) == Some(a)
  {
    var last := |pieces| - 1;
    if AnswerOf(pieces[last]) != Some(a) {
      CollectOrigin(pieces[..last], a);
      var k :| 0 <= k < last && AnswerOf(pieces[..last][k]) == Some(a);
      assert pieces[k] == pieces[..last][k];
    }
  }

  // Every answer of every text is the prefix of a piece up to its closing brace.
  lemma {:induction false} AnswersAreBoxContents(text: string, a: string)
    requires a in Extracted(text)
    ensures exists k, i: nat :: 1 <= k < |Split(text, BOXED)| && Closes(Split(text, BOXED)[k], i)
                                && a == Taken(Split(text, BOXED)[k], i)
  {
    var pieces := Split(text, BOXED);
    CollectOrigin(pieces[1..], a);
    var k :| 0 <= k < |pieces| - 1 && AnswerOf(pieces[1..][k]) == Some(a);
    assert pieces[1..][k] == pieces[k + 1] && Yields(pieces[k + 1], Some(a));
    var i: nat :| Closes(pieces[k + 1], i) && a == Taken(pieces[k + 1], i);
  }

  // --- Nested boxes ---

  // A string whose depth goes negative closes the box inside itself.
  lemma {:induction false} ClosesInside(w: string, rest: string, from: nat)
    requires from <= |w| && NeverNegative(w[..from]) && Depth(w) < 0
    ensures exists i: nat :: i < |w| && Closes(w + rest, i)
    decreases |w| - from
  {
    assert w[..|w|] == w;
    if from < |w| {
      assert w[..from + 1][..from] == w[..from] && (w + rest)[..from] == w[..from];
      assert NeverNegative(w[..from]) && Depth(w[..from][..from]) >= 0 && w[..from][..from] == w[..from];
      if Depth(w[..from + 1]) < 0 {
        assert Closes(w + rest, from);
      } else {
        PrefixGrows(w, from);
        ClosesInside(w, rest, from + 1);
      }
    }
  }

  lemma {:induction false} TakenShort(piece: string, i: nat, n: nat)
    requires Closes(piece, i) && i < n
    ensures AnswerOf(piece).Some? && |AnswerOf(piece).value| <= n
  {
    AnswerBalancedIff(piece, i);
  }

  ghost predicate AllShort(answers: seq<string>, n: nat) {
    forall k :: 0 <= k < |answers| ==> |answers[k]| <= n
  }

  lemma {:induction false} CollectHead(piece: string, pieces: seq<string>)
    ensures Collect([piece] + pieces) == (if AnswerOf(piece).Some? then [AnswerOf(piece).value] else []) + Collect(pieces)
  {
    if pieces == [] {
      assert ([piece] + pieces)[..0] == [] && [piece] + pieces == [piece];
    } else {
      CollectHead(piece, pieces[..|pieces| - 1]);
      assert ([piece] + pieces)[..|pieces|] == [piece] + pieces[..|pieces| - 1];
    }
  }

  lemma {:induction false} AnswerWithin(piece: string)
    ensures AnswerOf(piece).Some? ==> |AnswerOf(piece).value| <= |piece|
  {
  }

  lemma {:induction false} LastPieceShort(w: string, after: string)
    requires Depth(w) < 0 && Free(w, BOXED) && Free(after, BOXED)
    ensures AllShort(Collect(Split(w + ['}'] + after, BOXED)), |w|)
  {
    SeparatorsBorderless();
    var piece := w + ['}'] + after;
    FreeAround(w, '}', after, BOXED);
    SplitFree(piece, BOXED);
    assert NeverNegative(w[..0]);
    ClosesInside(w, ['}'] + after, 0);
    assert w + (['}'] + after) == piece;
    var c: nat :| c < |w| && Closes(piece, c);
    TakenShort(piece, c, |w|);
    assert [piece][..0] == [];
  }

  lemma {:induction false} FirstPieceShort(piece: string, rest: string, n: nat)
    requires Free(piece, BOXED) && |piece| <= n && AllShort(Collect(Split(rest, BOXED)), n)
    ensures AllShort(Collect(Split(piece + BOXED + rest, BOXED)), n)
  {
    SeparatorsBorderless();
    SplitAtSeparator(piece, BOXED, rest);
    CollectHead(piece, Split(rest, BOXED));
    AnswerWithin(piece);
  }

  lemma {:induction false} FindNone(w: string)
    requires Find(w, BOXED, 0) == |w|
    ensures Free(w, BOXED)
  {
    assert forall j: nat :: StartsAt(w, BOXED, j) ==> j < |w|;
  }

  // Past a nested opening, every answer is shorter than what is left of the body.
  lemma {:induction false} NestedAnswersShort(s: string, p: nat, after: string)
    requires Balanced(s) && p <= |s| && Depth(s[..p]) >= 1 && Free(after, BOXED)
    ensures AllShort(Collect(Split(s[p..] + ['}'] + after, BOXED)), |s| - p)
    decreases |s| - p
  {
    var i := Find(s[p..], BOXED, 0);
    if i == |s[p..]| {
      NestedEnd(s, p, after);
    } else {
      NestedOpening(s, p, i);
      NestedAnswersShort(s, p + i + |BOXED|, after);
      NestedBox(s, p, i, after);
    }
  }

  lemma {:induction false} NestedOpening(s: string, p: nat, i: nat)
    requires NeverNegative(s) && p <= |s| && StartsAt(s[p..], BOXED, i)
    ensures p + i + |BOXED| <= |s| && Depth(s[..p + i + |BOXED|]) >= 1
  {
    BoxWithin(s, p, i);
    DeeperAfterBox(s, p + i);
  }

  lemma {:induction false} NestedEnd(s: string, p: nat, after: string)
    requires Balanced(s) && p <= |s| && Depth(s[..p]) >= 1 && Free(after, BOXED) && Find(s[p..], BOXED, 0) == |s[p..]|
    ensures AllShort(Collect(Split(s[p..] + ['}'] + after, BOXED)), |s| - p)
  {
    assert s == s[..p] + s[p..];
    DepthConcat(s[..p], s[p..]);
    FindNone(s[p..]);
    LastPieceShort(s[p..], after);
  }

  lemma {:induction false} NestedBox(s: string, p: nat, i: nat, after: string)
    requires p <= |s| && i == Find(s[p..], BOXED, 0) < |s[p..]| && p + i + |BOXED| <= |s|
    requires AllShort(Collect(Split(s[p + i + |BOXED|..] + ['}'] + after, BOXED)), |s| - (p + i + |BOXED|))
    ensures AllShort(Collect(Split(s[p..] + ['}'] + after, BOXED)), |s| - p)
  {
    BoxWithin(s, p, i);
    FreeBefore(s[p..], BOXED, i);
    NestedStep(s[p..], i, s[p + i + |BOXED|..], after);
  }

  lemma {:induction false} NestedStep(w: string, i: nat, v: string, after: string)
    requires i <= |w| && w == w[..i] + BOXED + v && Free(w[..i], BOXED)
    requires AllShort(Collect(Split(v + ['}'] + after, BOXED)), |v|)
    ensures AllShort(Collect(Split(w + ['}'] + after, BOXED)), |w|)
  {
    var rest := v + ['}'] + after;
    assert w + ['}'] + after == w[..i] + BOXED + rest;
    FirstPieceShort(w[..i], rest, |w|);
  }

  lemma {:induction false} BoxWithin(s: string, p: nat, i: nat)
    requires p <= |s| && StartsAt(s[p..], BOXED, i)
    ensures StartsAt(s, BOXED, p + i)
    ensures s[p..] == s[p..][..i] + BOXED + s[p + i + |BOXED|..]
  {
    assert s[p..][i..i + |BOXED|] == s[p + i..p + i + |BOXED|];
  }

  lemma {:induction false} DeeperAfterBox(s: string, i: nat)
    requires NeverNegative(s) && StartsAt(s, BOXED, i)
    ensures Depth(s[..i + |BOXED|]) >= 1
  {
    assert s[..i + |BOXED|] == s[..i] + BOXED;
    DepthConcat(s[..i], BOXED);
    assert BOXED == "boxed" + "{";
    DepthConcat("boxed", "{");
    assert Depth("{") == 1 by { assert "{"[..0] == ""; }
    NoBraces("boxed");
  }

  lemma {:induction false} NoBraces(t: string)
    requires '{' !in t && '}' !in t
    ensures Depth(t) == 0
  {
    if t != [] { NoBraces(t[..|t| - 1]); }
  }

  // One balanced box round-trips exactly when no box opens inside it.
  lemma {:induction false} RoundTripIffNotNested(before: string, b: Box)
    requires Free(before, BOXED) && Free(b.after, BOXED) && Balanced(b.body)
    ensures Extracted(Render(before, [b])) == [Content(b)] <==> Free(b.body, BOXED)
  {
    if Free(b.body, BOXED) {
      ExtractsBoxes(before, [b]);
      assert Contents([b]) == [Content(b)];
    } else {
      NestedLoses(before, b);
    }
  }

  lemma {:induction false} FirstOpening(s: string) returns (i: nat)
    requires NeverNegative(s) && !Free(s, BOXED)
    ensures i + |BOXED| <= |s| && s == s[..i] + BOXED + s[i + |BOXED|..]
    ensures Free(s[..i], BOXED) && Depth(s[..i + |BOXED|]) >= 1
  {
    i := Find(s, BOXED, 0);
    if i == |s| { FindNone(s); }
    DeeperAfterBox(s, i);
    FreeBefore(s, BOXED, i);
  }

  lemma {:induction false} NestedPieceShort(b: Box)
    requires Free(b.after, BOXED) && Balanced(b.body) && !Free(b.body, BOXED)
    ensures AllShort(Collect(Split(Piece(b), BOXED)), |b.body| - 1)
  {
    var s := b.body;
    var i := FirstOpening(s);
    var rest := s[i + |BOXED|..] + ['}'] + b.after;
    NestedAnswersShort(s, i + |BOXED|, b.after);
    FirstPieceShort(s[..i], rest, |s| - 1);
    assert Piece(b) == s[..i] + BOXED + rest;
  }

  lemma {:induction false} NestedLoses(before: string, b: Box)
    requires Free(before, BOXED) && Free(b.after, BOXED) && Balanced(b.body) && !Free(b.body, BOXED)
    ensures Extracted(Render(before, [b])) != [Content(b)]
  {
    NestedPieceShort(b);
    RenderOne(before, b);
    var answers := Extracted(Render(before, [b]));
    assert |answers| == 1 ==> |answers[0]| < |Content(b)|;
  }

  lemma {:induction false} RenderOne(before: string, b: Box)
    requires Free(before, BOXED)
    ensures Extracted(Render(before, [b])) == Collect(Split(Piece(b), BOXED))
  {
    SeparatorsBorderless();
    assert [b][1..] == [] && Render(before, [b]) == before + BOXED + Piece(b);
    SplitAtSeparator(before, BOXED, Piece(b));
    assert ([before] + Split(Piece(b), BOXED))[1..] == Split(Piece(b), BOXED);
  }
}
