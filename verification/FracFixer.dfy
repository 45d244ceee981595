// The rewriting of \frac arguments written without braces.
module FracFixer {
  import opened Basics
  import opened Text
  import opened AnswerExtraction

  // One piece after "\frac"; None stands for the early return.
  function FixPiece(sub: string): Option<string> {
    if sub != [] && sub[0] == '{' then Some(sub)
    else if |sub| < 2 then None
    else if sub[1] != '{' then Some(['{', sub[0], '}', '{', sub[1], '}'] + sub[2..])
    else Some(['{', sub[0], '}', '{'] + sub[2..])
  }

  predicate Fixable(sub: string) {
    (sub != [] && sub[0] == '{') || |sub| >= 2
  }

  function FixPieces(subs: seq<string>): (fixed: Option<seq<string>>)
    ensures fixed.Some? <==> forall k :: 0 <= k < |subs| ==> Fixable(subs[k])
    ensures fixed.Some? ==> |fixed.value| == |subs|
    ensures fixed.Some? ==> forall k :: 0 <= k < |subs| ==> FixPiece(subs[k]) == Some(fixed.value[k])
  {
    if subs == [] then Some([])
    else
      var front := subs[..|subs| - 1];
      assert forall k :: 0 <= k < |front| ==> front[k] == subs[k];
      var init, last := FixPieces(front), FixPiece(subs[|subs| - 1]);
      if init.Some? && last.Some? then Some(init.value + [last.value]) else None
  }

  // All pieces after the first, glued back with the separator in front of each.
  function Glue(head: string, subs: seq<string>): string {
    if subs == [] then head else Glue(head, subs[..|subs| - 1]) + FRAC + subs[|subs| - 1]
  }

  function FixFracs(s: string): string {
    var pieces := Split(s, FRAC);
    var fixed := FixPieces(pieces[1..]);
    if fixed.None? then s else Glue(pieces[0], fixed.value)
  }

  method FixFracsLoop(s: string) returns (t: string)
    ensures t == FixFracs(s)
  {
    var substrs := Split(s, FRAC);
    t := substrs[0];
    if |substrs| > 1 {
      var subs := substrs[1..];
      for k := 0 to |subs|
        invariant FixPieces(subs[..k]).Some? && t == Glue(substrs[0], FixPieces(subs[..k]).value)
      {
        assert subs[..k + 1][..k] == subs[..k];
        var sub := subs[k];
        t := t + FRAC;
        if |sub| > 0 && sub[0] == '{' {
          t := t + sub;
        } else {
          if |sub| < 2 {
            assert !Fixable(subs[k]);
            return s;
          }
          var a, b := sub[0], sub[1];
          if b != '{' {
            t := t + (['{', a, '}', '{', b, '}'] + sub[2..]);
          } else {
            t := t + (['{', a, '}', '{'] + sub[2..]);
          }
        }
      }
      assert subs[..|subs|] == subs;
    } else {
      assert substrs[1..] == [];
    }
  }

  // --- Splitting what was glued ---

  lemma {:induction false} GlueIsJoin(head: string, subs: seq<string>)
    ensures Glue(head, subs) == Join([head] + subs, FRAC)
  {
    if subs != [] {
      var init, last := subs[..|subs| - 1], subs[|subs| - 1];
      GlueIsJoin(head, init);
      JoinSnoc([head] + init, last);
      assert [head] + init + [last] == [head] + subs;
    }
  }

  lemma {:induction false} JoinSnoc(pieces: seq<string>, last: string)
    requires pieces != []
    ensures Join(pieces + [last], FRAC) == Join(pieces, FRAC) + FRAC + last
  {
    if |pieces| == 1 {
      assert (pieces + [last])[1..] == [last];
    } else {
      JoinSnoc(pieces[1..], last);
      assert (pieces + [last])[1..] == pieces[1..] + [last];
    }
  }

  lemma {:induction false} FreeSuffix(sub: string, n: nat)
    requires n <= |sub| && Free(sub, FRAC)
    ensures Free(sub[n..], FRAC)
  {
    forall i: nat ensures !StartsAt(sub[n..], FRAC, i) {
      assert !StartsAt(sub, FRAC, n + i);
      assert n + i + |FRAC| <= |sub| ==> sub[n..][i..i + |FRAC|] == sub[n + i..n + i + |FRAC|];
    }
  }

  // Braces neither join nor split occurrences of the separator.
  lemma {:induction false} FixedPieceFree(sub: string)
    requires Free(sub, FRAC) && Fixable(sub)
    ensures Free(FixPiece(sub).value, FRAC)
  {
    SeparatorsBorderless();
    if sub[0] != '{' {
      var rest := sub[2..];
      FreeSuffix(sub, 2);
      if sub[1] != '{' {
        var front := ['{', sub[0], '}', '{', sub[1]];
        FreeAround(['{', sub[0]], '}', ['{', sub[1]], FRAC);
        assert ['{', sub[0]] + ['}'] + ['{', sub[1]] == front;
        FreeAround(front, '}', rest, FRAC);
        assert front + ['}'] + rest == FixPiece(sub).value;
      } else {
        FreeAround(['{', sub[0], '}'], '{', rest, FRAC);
        assert ['{', sub[0], '}'] + ['{'] + rest == FixPiece(sub).value;
      }
    }
  }

  lemma {:induction false} SplitFixed(s: string)
    requires FixPieces(Split(s, FRAC)[1..]).Some?
    ensures Split(FixFracs(s), FRAC) == [Split(s, FRAC)[0]] + FixPieces(Split(s, FRAC)[1..]).value
  {
    SeparatorsBorderless();
    var pieces := Split(s, FRAC);
    var subs := pieces[1..];
    var fixed := FixPieces(subs).value;
    var all := [pieces[0]] + fixed;
    forall k | 0 <= k < |all| ensures Free(all[k], FRAC) {
      PiecesAreFree(s, FRAC, k);
      if k > 0 {
        assert pieces[k] == subs[k - 1] && Fixable(subs[k - 1]);
        FixedPieceFree(subs[k - 1]);
      }
    }
    GlueIsJoin(pieces[0], fixed);
    SplitJoin(all, FRAC);
  }

  // --- What becomes of a fraction ---

  // What a piece after "\frac" becomes: braced first arguments stay; otherwise the first
  // character gets braces, and so does the second unless it opens a brace itself.
  ghost predicate Rewritten(piece: string, fixed: string) {
    && (piece != [] && piece[0] == '{' ==> fixed == piece)
    && (|piece| >= 2 && piece[0] != '{' && piece[1] == '{' ==> fixed == "{" + [piece[0]] + "}" + piece[1..])
    && (|piece| >= 2 && piece[0] != '{' && piece[1] != '{' ==> fixed == "{" + [piece[0]] + "}{" + [piece[1]] + "}" + piece[2..])
  }

  lemma {:induction false} FixedPieceMeaning(sub: string)
    requires Fixable(sub)
    ensures Rewritten(sub, FixPiece(sub).value)
  {
  }

  lemma {:induction false} PiecesRewritten(head: string, subs: seq<string>, fixed: seq<string>)
    requires |fixed| == |subs| && forall k :: 0 <= k < |subs| ==> Fixable(subs[k]) && FixPiece(subs[k]) == Some(fixed[k])
    ensures forall k :: 1 <= k < |subs| + 1 ==> Rewritten(([head] + subs)[k], ([head] + fixed)[k])
  {
    forall k | 1 <= k < |subs| + 1 ensures Rewritten(([head] + subs)[k], ([head] + fixed)[k]) {
      FixedPieceMeaning(subs[k - 1]);
    }
  }

  // Every fraction's arguments are rewritten so and the text between stays, or, if some
  // piece is too short, nothing changes at all.
  lemma {:induction false} FixFracsMeaning(s: string)
    ensures var before, after := Split(s, FRAC), Split(FixFracs(s), FRAC);
      if forall k :: 1 <= k < |before| ==> Fixable(before[k])
      then |after| == |before| && after[0] == before[0] && forall k :: 1 <= k < |before| ==> Rewritten(before[k], after[k])
      else FixFracs(s) == s
  {
    var before := Split(s, FRAC);
    var subs := before[1..];
    if forall k :: 1 <= k < |before| ==> Fixable(before[k]) {
      forall k | 0 <= k < |subs| ensures Fixable(subs[k]) { assert subs[k] == before[k + 1]; }
      SplitFixed(s);
      PiecesRewritten(before[0], subs, FixPieces(subs).value);
      assert before == [before[0]] + subs;
    } else {
      var k :| 1 <= k < |before| && !Fixable(before[k]);
      assert subs[k - 1] == before[k];
    }
  }

  // --- Idempotence ---

  lemma {:induction false} FixingTwice(subs: seq<string>)
    requires FixPieces(subs).Some?
    ensures FixPieces(FixPieces(subs).value) == Some(FixPieces(subs).value)
  {
    var fixed := FixPieces(subs).value;
    forall k | 0 <= k < |fixed| ensures FixPiece(fixed[k]) == Some(fixed[k]) && Fixable(fixed[k]) {
      assert Fixable(subs[k]);
    }
    assert FixPieces(fixed).Some?;
    assert FixPieces(fixed).value == fixed;
  }

  lemma {:induction false} FixFracsIdempotent(s: string)
    ensures FixFracs(FixFracs(s)) == FixFracs(s)
  {
    var pieces := Split(s, FRAC);
    if FixPieces(pieces[1..]).Some? {
      SplitFixed(s);
      FixingTwice(pieces[1..]);
      var fixed := FixPieces(pieces[1..]).value;
      assert ([pieces[0]] + fixed)[1..] == fixed;
    }
  }

  // --- Only braces are added ---

  function WithoutBraces(s: string): string {
    if s == [] then []
    else WithoutBraces(s[..|s| - 1]) + if s[|s| - 1] == '{' || s[|s| - 1] == '}' then [] else [s[|s| - 1]]
  }

  lemma {:induction false} WithoutBracesConcat(a: string, b: string)
    ensures WithoutBraces(a + b) == WithoutBraces(a) + WithoutBraces(b)
  {
    if b == [] {
      assert a + b == a;
    } else {
      WithoutBracesConcat(a, b[..|b| - 1]);
      assert (a + b)[..|a + b| - 1] == a + b[..|b| - 1];
    }
  }

  lemma {:induction false} OneChar(c: char)
    ensures WithoutBraces([c]) == if c == '{' || c == '}' then [] else [c]
  {
    assert [c][..0] == [];
  }

  lemma {:induction false} BracedChar(c: char)
    ensures WithoutBraces(['{', c, '}']) == WithoutBraces([c])
  {
    assert ['{'] + [c] + ['}'] == ['{', c, '}'];
    WithoutBracesConcat(['{'] + [c], ['}']);
    WithoutBracesConcat(['{'], [c]);
    OneChar('{');
    OneChar('}');
  }

  lemma {:induction false} FixedPieceText(sub: string)
    requires Fixable(sub)
    ensures WithoutBraces(FixPiece(sub).value) == WithoutBraces(sub)
  {
    if sub[0] != '{' {
      var a, b, rest := sub[0], sub[1], sub[2..];
      assert sub == [a] + [b] + rest;
      WithoutBracesConcat([a] + [b], rest);
      WithoutBracesConcat([a], [b]);
      BracedChar(a);
      if b != '{' {
        assert FixPiece(sub).value == ['{', a, '}'] + ['{', b, '}'] + rest;
        WithoutBracesConcat(['{', a, '}'] + ['{', b, '}'], rest);
        WithoutBracesConcat(['{', a, '}'], ['{', b, '}']);
        BracedChar(b);
      } else {
        assert FixPiece(sub).value == ['{', a, '}'] + [b] + rest;
        WithoutBracesConcat(['{', a, '}'] + [b], rest);
        WithoutBracesConcat(['{', a, '}'], [b]);
      }
    }
  }

  lemma {:induction false} GlueText(head: string, subs: seq<string>, fixed: seq<string>)
    requires |subs| == |fixed| && forall k :: 0 <= k < |subs| ==> WithoutBraces(subs[k]) == WithoutBraces(fixed[k])
    ensures WithoutBraces(Glue(head, subs)) == WithoutBraces(Glue(head, fixed))
  {
    if subs != [] {
      var last := |subs| - 1;
      GlueText(head, subs[..last], fixed[..last]);
      WithoutBracesConcat(Glue(head, subs[..last]) + FRAC, subs[last]);
      WithoutBracesConcat(Glue(head, subs[..last]), FRAC);
      WithoutBracesConcat(Glue(head, fixed[..last]) + FRAC, fixed[last]);
      WithoutBracesConcat(Glue(head, fixed[..last]), FRAC);
    }
  }

  lemma {:induction false} FixFracsAddsOnlyBraces(s: string)
    ensures WithoutBraces(FixFracs(s)) == WithoutBraces(s)
  {
    var pieces := Split(s, FRAC);
    var subs := pieces[1..];
    if FixPieces(subs).Some? {
      var fixed := FixPieces(subs).value;
      forall k | 0 <= k < |subs| ensures WithoutBraces(subs[k]) == WithoutBraces(fixed[k]) {
        assert Fixable(subs[k]);
        FixedPieceText(subs[k]);
      }
      GlueText(pieces[0], subs, fixed);
      GlueIsJoin(pieces[0], subs);
      JoinSplit(s, FRAC);
      assert [pieces[0]] + subs == pieces;
    }
  }

  // --- When every \frac ends up braced ---

  // Every occurrence of \frac is followed by an opening brace.
  ghost predicate Braced(s: string) {
    forall i: nat :: StartsAt(s, FRAC, i) ==> i + |FRAC| < |s| && s[i + |FRAC|] == '{'
  }

  ghost predicate PiecesBraced(pieces: seq<string>) {
    forall k :: 1 <= k < |pieces| ==> pieces[k] != [] && pieces[k][0] == '{'
  }

  lemma {:induction false} PiecesBracedCons(head: string, tail: seq<string>)
    requires tail != []
    ensures PiecesBraced([head] + tail) <==> tail[0] != [] && tail[0][0] == '{' && PiecesBraced(tail)
  {
    var all := [head] + tail;
    assert forall k :: 0 <= k < |tail| ==> all[k + 1] == tail[k];
    assert forall k :: 1 <= k < |all| ==> all[k] == tail[k - 1];
  }

  lemma {:induction false} FirstPieceHead(t: string)
    ensures Split(t, FRAC)[0] != [] && Split(t, FRAC)[0][0] == '{' <==> t != [] && t[0] == '{'
  {
    var j := Find(t, FRAC, 0);
    if t != [] && j == 0 { assert t[0] == t[0..|FRAC|][0]; }
  }

  lemma {:induction false} PiecesBracedRest(s: string, i: nat, rest: string)
    requires i == Find(s, FRAC, 0) < |s| && rest == s[i + |FRAC|..]
    ensures PiecesBraced(Split(s, FRAC)) <==>
      i + |FRAC| < |s| && s[i + |FRAC|] == '{' && PiecesBraced(Split(rest, FRAC))
  {
    PiecesBracedCons(s[..i], Split(rest, FRAC));
    FirstPieceHead(rest);
  }

  lemma {:induction false} AroundFirst(s: string, i: nat, rest: string, j: nat)
    requires i == Find(s, FRAC, 0) < |s| && rest == s[i + |FRAC|..]
    ensures StartsAt(s, FRAC, j) <==> j == i || (j >= i + |FRAC| && StartsAt(rest, FRAC, j - i - |FRAC|))
  {
    SeparatorsBorderless();
    FreeBefore(s, FRAC, i);
    assert s == s[..i] + FRAC + rest;
    Occurrences(s[..i], FRAC, rest, j);
  }

  // Read off the pieces of a split.
  lemma {:induction false} BracedPieces(s: string)
    ensures Braced(s) <==> PiecesBraced(Split(s, FRAC))
    decreases |s|
  {
    var i := Find(s, FRAC, 0);
    if i == |s| {
      assert forall j: nat :: StartsAt(s, FRAC, j) ==> j < |s|;
    } else {
      var rest := s[i + |FRAC|..];
      BracedPieces(rest);
      PiecesBracedRest(s, i, rest);
      forall j: nat { AroundFirst(s, i, rest, j); }
      BracedRest(s, i, rest);
    }
  }

  lemma {:induction false} BracedRest(s: string, i: nat, rest: string)
    requires i + |FRAC| <= |s| && rest == s[i + |FRAC|..]
    requires forall j: nat :: StartsAt(s, FRAC, j) <==> j == i || (j >= i + |FRAC| && StartsAt(rest, FRAC, j - i - |FRAC|))
    ensures Braced(s) <==> i + |FRAC| < |s| && s[i + |FRAC|] == '{' && Braced(rest)
  {
    if Braced(s) {
      assert StartsAt(s, FRAC, i);
      forall j: nat | StartsAt(rest, FRAC, j) ensures j + |FRAC| < |rest| && rest[j + |FRAC|] == '{' {
        assert StartsAt(s, FRAC, j + i + |FRAC|);
      }
    }
  }

  // Every \frac of the result is followed by an opening brace exactly when every piece of
  // the input already is, or has two characters to wrap.
  lemma {:induction false} BracedIffFixable(s: string)
    ensures Braced(FixFracs(s)) <==> forall k :: 1 <= k < |Split(s, FRAC)| ==> Fixable(Split(s, FRAC)[k])
  {
    var pieces := Split(s, FRAC);
    if FixPieces(pieces[1..]).Some? {
      FixedIsBraced(s);
    } else {
      BracedPieces(s);
      var k :| 0 <= k < |pieces[1..]| && !Fixable(pieces[1..][k]);
      assert !Fixable(pieces[k + 1]);
    }
  }

  lemma {:induction false} FixedIsBraced(s: string)
    requires FixPieces(Split(s, FRAC)[1..]).Some?
    ensures Braced(FixFracs(s)) && forall k :: 1 <= k < |Split(s, FRAC)| ==> Fixable(Split(s, FRAC)[k])
  {
    var pieces := Split(s, FRAC);
    var subs := pieces[1..];
    BracedPieces(FixFracs(s));
    SplitFixed(s);
    var fixed := FixPieces(subs).value;
    forall k | 1 <= k < |pieces| ensures Fixable(pieces[k]) { assert pieces[k] == subs[k - 1] && Fixable(subs[k - 1]); }
    forall k | 0 <= k < |fixed| ensures fixed[k] != [] && fixed[k][0] == '{' { assert Fixable(subs[k]); }
  }
}
