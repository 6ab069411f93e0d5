/**
  The few Python `str` operations the preprocessors and the nodes rely on:
  `str.isspace`, `str.find`, `w in s`, `str.split(sep)`, `str.split()` and
  `str.strip()`. Characters are Unicode scalar values, as Python's are, so
  lengths and indices agree with Python's.
 */
module PyStrings {

  /** Python's `str.isspace()`; `\s` in `re`, `str.split()` and `str.strip()`
      use the same set of characters. */
  predicate IsSpace(c: char) {
    ('\t' <= c <= '\r') || ('\U{1C}' <= c <= '\U{1F}') || c == ' '
    || c == '\U{85}' || c == '\U{A0}' || c == '\U{1680}'
    || ('\U{2000}' <= c <= '\U{200A}') || c == '\U{2028}' || c == '\U{2029}'
    || c == '\U{202F}' || c == '\U{205F}' || c == '\U{3000}'
  }

  predicate HasPrefix(s: string, p: string) {
    |p| <= |s| && s[..|p|] == p
  }

  /** `w` occurs in `s` starting at index `k`. */
  predicate OccursAt(s: string, w: string, k: int) {
    0 <= k && k + |w| <= |s| && s[k..k + |w|] == w
  }

  /** Python's `w in s`. */
  ghost predicate IsSubstring(w: string, s: string) {
    exists k :: OccursAt(s, w, k)
  }

  lemma {:induction false} OccursAtShift(s: string, w: string, k: int)
    requires |s| > 0 && k >= 0
    ensures OccursAt(s, w, k + 1) <==> OccursAt(s[1..], w, k)
  {
    if k + 1 + |w| <= |s| {
      assert s[1..][k..k + |w|] == s[k + 1..k + 1 + |w|];
    }
  }

  /** Python's `s.find(w)`: the first index where `w` occurs, or -1. */
  function Find(s: string, w: string): (r: int)
    ensures -1 <= r <= |s|
    ensures r == -1 ==> forall k :: !OccursAt(s, w, k)
    ensures r >= 0 ==> OccursAt(s, w, r)
    ensures r >= 0 ==> forall k :: 0 <= k < r ==> !OccursAt(s, w, k)
    decreases |s|
  {
    if HasPrefix(s, w) then 0
    else if |s| == 0 then -1
    else
      var r' := Find(s[1..], w);
      assert forall k :: k >= 0 ==> (OccursAt(s, w, k + 1) <==> OccursAt(s[1..], w, k)) by {
        forall k | k >= 0 ensures OccursAt(s, w, k + 1) <==> OccursAt(s[1..], w, k) {
          OccursAtShift(s, w, k);
        }
      }
      assert !OccursAt(s, w, 0);
      assert forall k :: k > 0 ==> (OccursAt(s, w, k) <==> OccursAt(s[1..], w, k - 1)) by {
        forall k | k > 0 ensures OccursAt(s, w, k) <==> OccursAt(s[1..], w, k - 1) {
          OccursAtShift(s, w, k - 1);
        }
      }
      if r' == -1 then -1 else r' + 1
  }

  lemma FindIsSubstring(s: string, w: string)
    ensures Find(s, w) != -1 <==> IsSubstring(w, s)
  {
    if Find(s, w) != -1 {
      assert OccursAt(s, w, Find(s, w));
    }
  }

  /** A prefix of `s` is found at index 0. */
  lemma FindPrefix(s: string, n: nat)
    requires n <= |s|
    ensures Find(s, s[..n]) == 0
  {
    assert HasPrefix(s, s[..n]);
  }

  /** If `line` occurs in `w` at `q` and `kw` occurs in `line` at `t`,
      then `kw` occurs in `w` at `q + t`. */
  lemma {:induction false} OccursAtCompose(w: string, line: string, kw: string, q: int, t: int)
    requires OccursAt(w, line, q) && OccursAt(line, kw, t)
    ensures OccursAt(w, kw, q + t)
  {
    forall i | 0 <= i < |kw| ensures w[q + t + i] == kw[i] {
      assert w[q..q + |line|][t + i] == line[t + i];
      assert line[t..t + |kw|][i] == kw[i];
    }
    assert w[q + t..q + t + |kw|] == kw;
  }

  /** Where `line` is found in `w` and `kw` in `line`, `kw` occurs in `w`
      at the sum of the two positions. */
  lemma FindCompose(w: string, line: string, kw: string)
    requires Find(w, line) >= 0 && Find(line, kw) >= 0
    ensures OccursAt(w, kw, Find(w, line) + Find(line, kw))
  {
    OccursAtCompose(w, line, kw, Find(w, line), Find(line, kw));
  }

  /** The index of the first `c` in `s`, or `|s|` when there is none. */
  function IndexOf(s: string, c: char): (i: nat)
    ensures i <= |s|
    ensures i < |s| ==> s[i] == c
    ensures forall j :: 0 <= j < i ==> s[j] != c
    decreases |s|
  {
    if |s| == 0 then 0
    else if s[0] == c then 0
    else 1 + IndexOf(s[1..], c)
  }

  /** Python's `s.split(sep)` for a one-character separator. */
  function SplitOn(s: string, sep: char): (parts: seq<string>)
    ensures |parts| >= 1
    ensures forall i :: 0 <= i < |parts| ==> sep !in parts[i]
    decreases |s|
  {
    var i := IndexOf(s, sep);
    if i == |s| then [s] else [s[..i]] + SplitOn(s[i + 1..], sep)
  }

  /** Python's `sep.join(parts)`. */
  function Join(parts: seq<string>, sep: char): string
    decreases |parts|
  {
    if |parts| == 0 then ""
    else if |parts| == 1 then parts[0]
    else parts[0] + [sep] + Join(parts[1..], sep)
  }

  /** Splitting on a separator and joining with it gives the string back. */
  lemma {:induction false} JoinSplitOn(s: string, sep: char)
    ensures Join(SplitOn(s, sep), sep) == s
    decreases |s|
  {
    var i := IndexOf(s, sep);
    if i < |s| {
      var rest := SplitOn(s[i + 1..], sep);
      var parts := [s[..i]] + rest;
      SplitOnStep(s, sep);
      assert parts[1..] == rest;
      assert Join(parts, sep) == s[..i] + [sep] + Join(rest, sep);
      JoinSplitOn(s[i + 1..], sep);
      assert s == s[..i] + [sep] + s[i + 1..];
    }
  }

  /** An occurrence in a suffix of `s` is an occurrence in `s`. */
  lemma OccursInSuffix(s: string, off: nat, w: string, k: int)
    requires off <= |s| && OccursAt(s[off..], w, k)
    ensures OccursAt(s, w, off + k)
  {
    assert s[off..][k..k + |w|] == s[off + k..off + k + |w|];
  }

  /** One step of `SplitOn`. */
  lemma SplitOnStep(s: string, sep: char)
    requires IndexOf(s, sep) < |s|
    ensures SplitOn(s, sep) == [s[..IndexOf(s, sep)]] + SplitOn(s[IndexOf(s, sep) + 1..], sep)
  {
  }

  /** Every piece of `s.split(sep)` occurs in `s`; `k` is one place. */
  lemma {:induction false} SplitOnPieceAt(s: string, sep: char, n: nat) returns (k: nat)
    requires n < |SplitOn(s, sep)|
    ensures OccursAt(s, SplitOn(s, sep)[n], k)
    decreases |s|
  {
    var i := IndexOf(s, sep);
    if i == |s| {
      k := 0;
      assert s[0..|s|] == s;
    } else {
      SplitOnStep(s, sep);
      if n == 0 {
        k := 0;
      } else {
        var t := s[i + 1..];
        var w := SplitOn(t, sep)[n - 1];
        var k' := SplitOnPieceAt(t, sep, n - 1);
        OccursInSuffix(s, i + 1, w, k');
        k := i + 1 + k';
      }
    }
  }

  /** So `s.find(piece)` never returns -1 for a piece of `s.split(sep)`. */
  lemma SplitOnPiecesFound(s: string, sep: char, n: nat)
    requires n < |SplitOn(s, sep)|
    ensures Find(s, SplitOn(s, sep)[n]) >= 0
  {
    var k := SplitOnPieceAt(s, sep, n);
  }

  /** Length of the longest prefix of `s` that holds no whitespace. */
  function NonSpaceRun(s: string): (n: nat)
    ensures n <= |s|
    ensures forall i :: 0 <= i < n ==> !IsSpace(s[i])
    ensures n < |s| ==> IsSpace(s[n])
    decreases |s|
  {
    if |s| == 0 || IsSpace(s[0]) then 0 else 1 + NonSpaceRun(s[1..])
  }

  /** Length of the longest prefix of `s` that holds only whitespace. */
  function SpaceRun(s: string): (n: nat)
    ensures n <= |s|
    ensures forall i :: 0 <= i < n ==> IsSpace(s[i])
    ensures n < |s| ==> !IsSpace(s[n])
    decreases |s|
  {
    if |s| == 0 || !IsSpace(s[0]) then 0 else 1 + SpaceRun(s[1..])
  }

  /** Python's `s.split()`: the maximal runs of non-whitespace, in order. */
  function SplitWhitespace(s: string): (words: seq<string>)
    decreases |s|
  {
    var t := s[SpaceRun(s)..];
    if |t| == 0 then []
    else
      var n := NonSpaceRun(t);
      [t[..n]] + SplitWhitespace(t[n..])
  }

  /** A non-empty run of non-whitespace. */
  predicate IsWord(w: string) {
    |w| > 0 && forall j :: 0 <= j < |w| ==> !IsSpace(w[j])
  }

  /** Every word of `s.split()` is non-empty and holds no whitespace. */
  lemma {:induction false} SplitWhitespaceWords(s: string)
    ensures forall i :: 0 <= i < |SplitWhitespace(s)| ==> IsWord(SplitWhitespace(s)[i])
    decreases |s|
  {
    var t := s[SpaceRun(s)..];
    if |t| > 0 {
      var n := NonSpaceRun(t);
      var rest := SplitWhitespace(t[n..]);
      SplitWhitespaceWords(t[n..]);
      assert IsWord(t[..n]);
      assert SplitWhitespace(s) == [t[..n]] + rest;
    }
  }

  /** A string that starts with a non-whitespace character splits into at
      least one word, and the first word is the run at its start. */
  lemma FirstWord(s: string)
    requires |s| > 0 && !IsSpace(s[0])
    ensures |SplitWhitespace(s)| > 0
    ensures SplitWhitespace(s)[0] == s[..NonSpaceRun(s)]
  {
    assert SpaceRun(s) == 0;
  }

  /** The first word of `s.split()` is the run after the leading
      whitespace, so it occurs in `s` there. */
  lemma FirstWordAt(s: string)
    requires |SplitWhitespace(s)| > 0
    ensures OccursAt(s, SplitWhitespace(s)[0], SpaceRun(s))
  {
    var k := SpaceRun(s);
    var t := s[k..];
    var n := NonSpaceRun(t);
    assert SplitWhitespace(s)[0] == t[..n];
    assert s[k..k + n] == t[..n];
  }

  /** `s.split()` is empty exactly when `s` is all whitespace. */
  lemma {:induction false} SplitWhitespaceEmpty(s: string)
    ensures |SplitWhitespace(s)| == 0 <==> forall i :: 0 <= i < |s| ==> IsSpace(s[i])
  {
    var k := SpaceRun(s);
    if k < |s| {
      assert !IsSpace(s[k]);
    }
  }

  /** Python's `s.lstrip()`. */
  function LStrip(s: string): (r: string)
    ensures |r| <= |s| && r == s[|s| - |r|..]
    ensures |r| > 0 ==> !IsSpace(r[0])
    ensures forall i :: 0 <= i < |s| - |r| ==> IsSpace(s[i])
  {
    s[SpaceRun(s)..]
  }

  /** Python's `s.rstrip()`. */
  function RStrip(s: string): (r: string)
    ensures |r| <= |s| && r == s[..|r|]
    ensures |r| > 0 ==> !IsSpace(r[|r| - 1])
    ensures forall i :: |r| <= i < |s| ==> IsSpace(s[i])
    decreases |s|
  {
    if |s| > 0 && IsSpace(s[|s| - 1]) then RStrip(s[..|s| - 1]) else s
  }

  /** Python's `s.strip()`: no whitespace at either end, and only
      whitespace was removed. */
  function Strip(s: string): (r: string)
    ensures |r| <= |s|
    ensures |r| > 0 ==> !IsSpace(r[0]) && !IsSpace(r[|r| - 1])
    ensures IsSubstring(r, s)
    ensures SpaceRun(s) + |r| <= |s| && r == s[SpaceRun(s)..SpaceRun(s) + |r|]
    ensures forall i :: 0 <= i < SpaceRun(s) ==> IsSpace(s[i])
    ensures forall i :: SpaceRun(s) + |r| <= i < |s| ==> IsSpace(s[i])
  {
    var l := LStrip(s);
    var r := RStrip(l);
    var a := |s| - |l|;
    assert OccursAt(s, r, a);
    forall i | a + |r| <= i < |s| ensures IsSpace(s[i]) {
      assert l[i - a] == s[i];
    }
    r
  }
}
