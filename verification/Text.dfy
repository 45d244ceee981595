// Python's str.split with a separator: pieces between its leftmost, non-overlapping
// occurrences. Separators here have no border, so occurrences never overlap.
module Text {

  predicate StartsAt(s: string, sep: string, i: nat) {
    i + |sep| <= |s| && s[i..i + |sep|] == sep
  }

  ghost predicate Free(s: string, sep: string) {
    forall i: nat :: !StartsAt(s, sep, i)
  }

  // No proper nonempty prefix is also a suffix.
  ghost predicate Borderless(sep: string) {
    sep != [] && forall k :: 0 < k < |sep| ==> sep[..|sep| - k] != sep[k..]
  }

  // The position of the first occurrence, or |s|.
  function Find(s: string, sep: string, from: nat): (i: nat)
    requires from <= |s| && sep != []
    ensures from <= i <= |s|
    ensures forall j: nat :: from <= j < i ==> !StartsAt(s, sep, j)
    ensures i < |s| ==> StartsAt(s, sep, i)
    decreases |s| - from
  {
    if from == |s| || StartsAt(s, sep, from) then from else Find(s, sep, from + 1)
  }

  function Split(s: string, sep: string): (pieces: seq<string>)
    requires sep != []
    ensures pieces != []
    decreases |s|
  {
    var i := Find(s, sep, 0);
    if i == |s| then [s] else [s[..i]] + Split(s[i + |sep|..], sep)
  }

  function Join(pieces: seq<string>, sep: string): string
    requires pieces != []
  {
    if |pieces| == 1 then pieces[0] else pieces[0] + sep + Join(pieces[1..], sep)
  }

  lemma {:induction false} JoinCons(p: string, rest: seq<string>, sep: string)
    requires rest != []
    ensures Join([p] + rest, sep) == p + sep + Join(rest, sep)
  {
    assert ([p] + rest)[1..] == rest;
  }

  lemma {:induction false} JoinSplit(s: string, sep: string)
    requires sep != []
    ensures Join(Split(s, sep), sep) == s
    decreases |s|
  {
    var i := Find(s, sep, 0);
    if i < |s| {
      JoinSplit(s[i + |sep|..], sep);
      JoinCons(s[..i], Split(s[i + |sep|..], sep), sep);
      assert s == s[..i] + sep + s[i + |sep|..];
    }
  }

  lemma {:induction false} SplitFree(s: string, sep: string)
    requires sep != [] && Free(s, sep)
    ensures Split(s, sep) == [s]
  {
    assert !StartsAt(s, sep, Find(s, sep, 0));
  }

  lemma {:induction false} FreeBefore(s: string, sep: string, i: nat)
    requires sep != [] && i <= |s| && forall j: nat :: j < i ==> !StartsAt(s, sep, j)
    ensures Free(s[..i], sep)
  {
    forall j: nat ensures !StartsAt(s[..i], sep, j) {
      if j + |sep| <= i {
        assert s[..i][j..j + |sep|] == s[j..j + |sep|];
        assert !StartsAt(s, sep, j);
      }
    }
  }

  lemma {:induction false} PiecesAreFree(s: string, sep: string, k: nat)
    requires sep != [] && k < |Split(s, sep)|
    ensures Free(Split(s, sep)[k], sep)
    decreases |s|
  {
    var i := Find(s, sep, 0);
    if k == 0 {
      FreeBefore(s, sep, i);
      assert s[..|s|] == s;
      assert Split(s, sep)[0] == s[..i];
    } else {
      var rest := s[i + |sep|..];
      PiecesAreFree(rest, sep, k - 1);
      assert Split(s, sep)[k] == Split(rest, sep)[k - 1];
    }
  }

  // Before a separator in front of which none occurs, splitting stops exactly there.
  lemma {:induction false} SplitAtSeparator(p: string, sep: string, rest: string)
    requires Borderless(sep) && Free(p, sep)
    ensures Split(p + sep + rest, sep) == [p] + Split(rest, sep)
  {
    var s := p + sep + rest;
    forall j: nat | j < |p| ensures !StartsAt(s, sep, j) { NoEarlierStart(p, sep, rest, j); }
    assert s[|p|..|p| + |sep|] == sep;
    assert StartsAt(s, sep, |p|);
    assert Find(s, sep, 0) == |p|;
    assert s[..|p|] == p && s[|p| + |sep|..] == rest;
  }

  lemma {:induction false} NoEarlierStart(p: string, sep: string, rest: string, j: nat)
    requires Borderless(sep) && Free(p, sep) && j < |p|
    ensures !StartsAt(p + sep + rest, sep, j)
  {
    var s := p + sep + rest;
    if j + |sep| <= |p| {
      assert s[j..j + |sep|] == p[j..j + |sep|] && !StartsAt(p, sep, j);
    } else {
      var k := |p| - j;
      assert s[j..j + |sep|][k..] == sep[..|sep| - k];
      assert sep[..|sep| - k] != sep[k..];
    }
  }

  // Around a separator, the occurrences are the separator itself and those in the rest.
  lemma {:induction false} Occurrences(p: string, sep: string, rest: string, j: nat)
    requires Borderless(sep) && Free(p, sep)
    ensures StartsAt(p + sep + rest, sep, j) <==>
      j == |p| || (j >= |p| + |sep| && StartsAt(rest, sep, j - |p| - |sep|))
  {
    var s := p + sep + rest;
    if j < |p| {
      NoEarlierStart(p, sep, rest, j);
    } else if j < |p| + |sep| {
      var k := j - |p|;
      if k > 0 && j + |sep| <= |s| {
        assert s[|p|..|p| + |sep|] == sep && s[j..|p| + |sep|] == sep[k..];
        assert s[j..j + |sep|][..|sep| - k] == s[j..|p| + |sep|];
        assert sep[..|sep| - k] != sep[k..];
      } else if k == 0 {
        assert s[j..j + |sep|] == sep;
      }
    } else {
      var i := j - |p| - |sep|;
      if i + |sep| <= |rest| { Shifted(p + sep, rest, i, |sep|); }
    }
  }

  lemma {:induction false} Shifted(front: string, rest: string, i: nat, n: nat)
    requires i + n <= |rest|
    ensures (front + rest)[|front| + i..|front| + i + n] == rest[i..i + n]
  {
  }

  // Splitting undoes joining: pieces without the separator come back as they were.
  lemma {:induction false} SplitJoin(pieces: seq<string>, sep: string)
    requires Borderless(sep) && pieces != [] && forall k :: 0 <= k < |pieces| ==> Free(pieces[k], sep)
    ensures Split(Join(pieces, sep), sep) == pieces
  {
    if |pieces| == 1 {
      SplitFree(pieces[0], sep);
    } else {
      SplitJoin(pieces[1..], sep);
      SplitAtSeparator(pieces[0], sep, Join(pieces[1..], sep));
    }
  }
}
