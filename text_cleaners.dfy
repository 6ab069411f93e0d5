/**
  The text normaliser `clean_text` (src/preprocessors/text_cleaners.py):
  a chain of whole-string rewrites. Each regular-expression substitution
  is a function written out over characters; `\s` is Python's whitespace,
  `IsSpace`.
 */
module TextCleaners {
  import opened PyStrings

  // ---------------------------------------------------------------------
  // Step 1: `re.sub(r'http\S+|www\S+|https\S+', '', text)`

  /** A URL match starts here: "http" or "www" followed by at least one
      non-whitespace character. The third alternative, "https" followed by
      non-whitespace, is already a match of the first. */
  predicate UrlAt(s: string) {
    (HasPrefix(s, "http") && |s| > 4 && !IsSpace(s[4]))
    || (HasPrefix(s, "www") && |s| > 3 && !IsSpace(s[3]))
  }

  /** No URL match starts anywhere in `s`. */
  predicate UrlFree(s: string) {
    forall k :: 0 <= k <= |s| ==> !UrlAt(s[k..])
  }

  /** Scanning left to right, a URL match takes the whole whitespace-free
      run it starts (`\S+` is greedy) and scanning resumes after it; any
      other character is kept. */
  function RemoveUrls(s: string): (r: string)
    ensures |r| <= |s|
    decreases |s|
  {
    if |s| == 0 then ""
    else if UrlAt(s) then RemoveUrls(s[NonSpaceRun(s)..])
    else [s[0]] + RemoveUrls(s[1..])
  }

  /** A URL start lies inside the whitespace-free run it begins, so any
      string that shares that run starts with a URL too. */
  lemma UrlAtShared(r: string, s: string)
    requires UrlAt(r)
    requires NonSpaceRun(r) <= |s| && r[..NonSpaceRun(r)] == s[..NonSpaceRun(r)]
    ensures UrlAt(s)
  {
    var m := NonSpaceRun(r);
    if HasPrefix(r, "http") && |r| > 4 && !IsSpace(r[4]) {
      assert !IsSpace(r[0]) && !IsSpace(r[1]) && !IsSpace(r[2]) && !IsSpace(r[3]);
      assert m >= 5;
      assert s[..5] == r[..5] by { assert s[..m][..5] == r[..m][..5]; }
      assert s[..4] == s[..5][..4];
    } else {
      assert !IsSpace(r[0]) && !IsSpace(r[1]) && !IsSpace(r[2]);
      assert m >= 4;
      assert s[..4] == r[..4] by { assert s[..m][..4] == r[..m][..4]; }
      assert s[..3] == s[..4][..3];
    }
  }

  /** After a removed URL the output starts with whitespace or ends. */
  lemma AfterUrl(s: string)
    requires |s| > 0 && UrlAt(s)
    ensures var r := RemoveUrls(s); |r| == 0 || IsSpace(r[0])
  {
    var rest := s[NonSpaceRun(s)..];
    if |rest| > 0 {
      assert IsSpace(rest[0]);
      assert rest[0] != 'h' && rest[0] != 'w';
    }
  }

  /** The whitespace-free run at the start of the output is a prefix of
      the input: nothing that follows a removed URL can join a kept run. */
  lemma {:induction false} LeadingRunKept(s: string)
    ensures var r := RemoveUrls(s);
      NonSpaceRun(r) <= |s| && r[..NonSpaceRun(r)] == s[..NonSpaceRun(r)]
    decreases |s|
  {
    if |s| > 0 {
      if UrlAt(s) {
        AfterUrl(s);
      } else {
        var r := RemoveUrls(s);
        var tail := RemoveUrls(s[1..]);
        assert r == [s[0]] + tail;
        if !IsSpace(s[0]) {
          LeadingRunKept(s[1..]);
          var m := NonSpaceRun(tail);
          assert r[1..] == tail;
          assert NonSpaceRun(r) == 1 + m;
          assert r[..1 + m] == [s[0]] + tail[..m];
          assert s[..1 + m] == [s[0]] + s[1..][..m];
        }
      }
    }
  }

  /** No URL match starts anywhere in the output. */
  lemma {:induction false} NoUrlLeft(s: string)
    ensures UrlFree(RemoveUrls(s))
    decreases |s|
  {
    var r := RemoveUrls(s);
    if |s| > 0 {
      if UrlAt(s) {
        NoUrlLeft(s[NonSpaceRun(s)..]);
      } else {
        var tail := RemoveUrls(s[1..]);
        NoUrlLeft(s[1..]);
        assert r == [s[0]] + tail;
        forall k | 0 <= k <= |r| ensures !UrlAt(r[k..]) {
          if k > 0 {
            assert r[k..] == tail[k - 1..];
          } else {
            assert r[0..] == r;
            if UrlAt(r) {
              LeadingRunKept(s);
              UrlAtShared(r, s);
              assert false;
            }
          }
        }
      }
    }
  }

  /** Text without a URL comes back unchanged. */
  lemma {:induction false} RemoveUrlsNoUrl(s: string)
    requires UrlFree(s)
    ensures RemoveUrls(s) == s
    decreases |s|
  {
    if |s| > 0 {
      assert s[0..] == s;
      forall k | 0 <= k <= |s[1..]| ensures !UrlAt(s[1..][k..]) {
        assert s[1..][k..] == s[k + 1..];
      }
      RemoveUrlsNoUrl(s[1..]);
    }
  }

  /** Removing URLs twice removes nothing more. */
  lemma RemoveUrlsIdempotent(s: string)
    ensures RemoveUrls(RemoveUrls(s)) == RemoveUrls(s)
  {
    NoUrlLeft(s);
    RemoveUrlsNoUrl(RemoveUrls(s));
  }

  /** Whitespace ends every URL match: whether a URL starts at the front
      of `a + [c] + b` depends on `a` alone. */
  lemma UrlAtBeforeSpace(a: string, c: char, b: string)
    requires IsSpace(c)
    ensures UrlAt(a + [c] + b) == UrlAt(a)
  {
    var s := a + [c] + b;
    assert forall i :: 0 <= i < |a| ==> s[i] == a[i];
    assert s[|a|] == c;
    if |a| >= 4 {
      assert s[..4] == a[..4] && s[..3] == a[..3];
    }
  }

  /** The whitespace-free run at the front of `a + [c] + b` lies in `a`. */
  lemma {:induction false} NonSpaceRunBeforeSpace(a: string, c: char, b: string)
    requires IsSpace(c)
    ensures NonSpaceRun(a + [c] + b) == NonSpaceRun(a)
    decreases |a|
  {
    if |a| == 0 {
      assert (a + [c] + b)[0] == c;
    } else if !IsSpace(a[0]) {
      assert (a + [c] + b)[1..] == a[1..] + [c] + b;
      NonSpaceRunBeforeSpace(a[1..], c, b);
    }
  }

  /** Whitespace is never removed and splits the pass: the text on each
      side of a whitespace character is cleaned of URLs on its own. */
  lemma {:induction false} RemoveUrlsAroundSpace(a: string, c: char, b: string)
    requires IsSpace(c)
    ensures RemoveUrls(a + [c] + b) == RemoveUrls(a) + [c] + RemoveUrls(b)
    decreases |a|
  {
    if |a| == 0 {
      RemoveUrlsSpaceFirst(c, b);
      assert a + [c] + b == [c] + b;
    } else if UrlAt(a) {
      var n := RemoveUrlsUrlFirst(a, c, b);
      RemoveUrlsAroundSpace(a[n..], c, b);
    } else {
      RemoveUrlsKeptFirst(a, c, b);
      RemoveUrlsAroundSpace(a[1..], c, b);
      var x, y := RemoveUrls(a[1..]), RemoveUrls(b);
      assert [a[0]] + (x + [c] + y) == ([a[0]] + x) + [c] + y;
    }
  }

  /** A leading whitespace character is always kept. */
  lemma RemoveUrlsSpaceFirst(c: char, b: string)
    requires IsSpace(c)
    ensures RemoveUrls([c] + b) == [c] + RemoveUrls(b)
  {
    var s := [c] + b;
    assert !UrlAt(s) by { UrlAtBeforeSpace("", c, b); }
    RemoveUrlsStep(s);
    assert s[1..] == b;
  }

  /** A URL at the front of `a` is dropped both from `a` and from
      `a + [c] + b`, and it is not empty. */
  lemma RemoveUrlsUrlFirst(a: string, c: char, b: string) returns (n: nat)
    requires IsSpace(c) && |a| > 0 && UrlAt(a)
    ensures 0 < n <= |a|
    ensures RemoveUrls(a + [c] + b) == RemoveUrls(a[n..] + [c] + b)
    ensures RemoveUrls(a) == RemoveUrls(a[n..])
  {
    var s := a + [c] + b;
    n := NonSpaceRun(a);
    assert n > 0 by { assert !IsSpace(a[0]); }
    UrlAtBeforeSpace(a, c, b);
    NonSpaceRunBeforeSpace(a, c, b);
    assert s[n..] == a[n..] + [c] + b;
    RemoveUrlsStep(s);
    RemoveUrlsStep(a);
  }

  /** A character of `a` that starts no URL is kept in front of the rest,
      both in `a` and in `a + [c] + b`. */
  lemma RemoveUrlsKeptFirst(a: string, c: char, b: string)
    requires IsSpace(c) && |a| > 0 && !UrlAt(a)
    ensures RemoveUrls(a + [c] + b) == [a[0]] + RemoveUrls(a[1..] + [c] + b)
    ensures RemoveUrls(a) == [a[0]] + RemoveUrls(a[1..])
  {
    var s := a + [c] + b;
    UrlAtBeforeSpace(a, c, b);
    assert s[0] == a[0] && s[1..] == a[1..] + [c] + b;
    RemoveUrlsStep(s);
    RemoveUrlsStep(a);
  }

  /** One step of the pass on a non-empty text. */
  lemma RemoveUrlsStep(s: string)
    requires |s| > 0
    ensures UrlAt(s) ==> RemoveUrls(s) == RemoveUrls(s[NonSpaceRun(s)..])
    ensures !UrlAt(s) ==> RemoveUrls(s) == [s[0]] + RemoveUrls(s[1..])
  {
  }

  /** Within a whitespace-free word the pass keeps the word up to its
      first URL start and drops the rest. */
  lemma {:induction false} RemoveUrlsInWord(w: string, k: nat)
    requires forall i :: 0 <= i < |w| ==> !IsSpace(w[i])
    requires k <= |w| && forall j :: 0 <= j < k ==> !UrlAt(w[j..])
    requires k == |w| || UrlAt(w[k..])
    ensures RemoveUrls(w) == w[..k]
    decreases k
  {
    if k == 0 {
      if |w| > 0 {
        assert w[0..] == w;
        assert NonSpaceRun(w) == |w| by { NonSpaceRunWhole(w); }
      }
    } else {
      assert w[0..] == w;
      var t := w[1..];
      forall j | 0 <= j < k - 1 ensures !UrlAt(t[j..]) {
        assert t[j..] == w[j + 1..];
      }
      assert k - 1 < |t| ==> t[k - 1..] == w[k..];
      RemoveUrlsInWord(t, k - 1);
      assert w[..k] == [w[0]] + t[..k - 1];
    }
  }

  lemma {:induction false} NonSpaceRunWhole(w: string)
    requires forall i :: 0 <= i < |w| ==> !IsSpace(w[i])
    ensures NonSpaceRun(w) == |w|
    decreases |w|
  {
    if |w| > 0 {
      NonSpaceRunWhole(w[1..]);
    }
  }

  // ---------------------------------------------------------------------
  // Step 2: `re.sub(r'\s+', ' ', text).strip()`

  /** Every maximal whitespace run becomes one space. */
  function CollapseWhitespace(s: string): (r: string)
    ensures |r| <= |s|
    ensures forall i :: 0 <= i < |r| && IsSpace(r[i]) ==> r[i] == ' '
    ensures forall i :: 0 <= i < |r| - 1 ==> !(IsSpace(r[i]) && IsSpace(r[i + 1]))
    ensures |r| == 0 <==> |s| == 0
    ensures |r| > 0 ==> (IsSpace(r[0]) <==> IsSpace(s[0]))
    ensures |r| > 0 ==> (IsSpace(r[|r| - 1]) <==> IsSpace(s[|s| - 1]))
    decreases |s|
  {
    if |s| == 0 then ""
    else if IsSpace(s[0]) then
      var k := SpaceRun(s);
      var rest := CollapseWhitespace(s[k..]);
      assert k < |s| ==> |rest| > 0 ==> !IsSpace(rest[0]);
      assert |rest| > 0 ==> s[k..][|s[k..]| - 1] == s[|s| - 1];
      " " + rest
    else
      var rest := CollapseWhitespace(s[1..]);
      assert |rest| > 0 ==> s[1..][|s[1..]| - 1] == s[|s| - 1];
      [s[0]] + rest
  }

  /** Collapsing keeps the run of non-whitespace at the front. */
  lemma {:induction false} CollapseWord(w: string, x: string)
    requires forall i :: 0 <= i < |w| ==> !IsSpace(w[i])
    ensures CollapseWhitespace(w + x) == w + CollapseWhitespace(x)
    decreases |w|
  {
    if |w| > 0 {
      assert w + x == [w[0]] + (w[1..] + x);
      CollapseNonSpaceCons(w[0], w[1..] + x);
      CollapseWord(w[1..], x);
      assert w == [w[0]] + w[1..];
    } else {
      assert w + x == x;
    }
  }

  lemma CollapseNonSpaceCons(c: char, y: string)
    requires !IsSpace(c)
    ensures CollapseWhitespace([c] + y) == [c] + CollapseWhitespace(y)
  {
    assert ([c] + y)[1..] == y;
  }

  /** A leading whitespace character does not change `split()`. */
  lemma SplitWhitespaceSpaceCons(c: char, x: string)
    requires IsSpace(c)
    ensures SplitWhitespace([c] + x) == SplitWhitespace(x)
  {
    var s := [c] + x;
    assert s[1..] == x;
    assert SpaceRun(s) == 1 + SpaceRun(x);
    assert s[SpaceRun(s)..] == x[SpaceRun(x)..];
  }

  /** `split()` skips the leading whitespace run. */
  lemma SplitWhitespaceSkip(s: string)
    ensures SplitWhitespace(s) == SplitWhitespace(s[SpaceRun(s)..])
  {
    var t := s[SpaceRun(s)..];
    assert SpaceRun(t) == 0;
    assert t[0..] == t;
  }

  /** A word followed by nothing or by whitespace is the first word of
      `split()`. */
  lemma {:induction false} SplitWhitespaceWordCons(w: string, x: string)
    requires |w| > 0 && forall i :: 0 <= i < |w| ==> !IsSpace(w[i])
    requires |x| == 0 || IsSpace(x[0])
    ensures SplitWhitespace(w + x) == [w] + SplitWhitespace(x)
  {
    var s := w + x;
    NonSpaceRunWord(w, x);
    assert SpaceRun(s) == 0;
    assert s[0..] == s;
    assert s[..|w|] == w && s[|w|..] == x;
  }

  lemma {:induction false} NonSpaceRunWord(w: string, x: string)
    requires forall i :: 0 <= i < |w| ==> !IsSpace(w[i])
    requires |x| == 0 || IsSpace(x[0])
    ensures NonSpaceRun(w + x) == |w|
    decreases |w|
  {
    if |w| > 0 {
      assert (w + x)[1..] == w[1..] + x;
      NonSpaceRunWord(w[1..], x);
    } else {
      assert w + x == x;
    }
  }

  /** Collapsing whitespace keeps the words: `split()` sees the same words,
      in order, before and after. */
  lemma {:induction false} CollapseKeepsWords(s: string)
    ensures SplitWhitespace(CollapseWhitespace(s)) == SplitWhitespace(s)
    decreases |s|
  {
    if |s| > 0 {
      if IsSpace(s[0]) {
        var k := SpaceRun(s);
        var rest := CollapseWhitespace(s[k..]);
        assert CollapseWhitespace(s) == [' '] + rest;
        SplitWhitespaceSpaceCons(' ', rest);
        CollapseKeepsWords(s[k..]);
        SplitWhitespaceSkip(s);
      } else {
        var n := NonSpaceRun(s);
        var w, x := s[..n], s[n..];
        assert s == w + x;
        CollapseWord(w, x);
        var rest := CollapseWhitespace(x);
        SplitWhitespaceWordCons(w, rest);
        SplitWhitespaceWordCons(w, x);
        CollapseKeepsWords(x);
      }
    }
  }

  /** The non-whitespace characters of `s`, in order. */
  function NonSpaces(s: string): string
    decreases |s|
  {
    if |s| == 0 then ""
    else if IsSpace(s[0]) then NonSpaces(s[1..])
    else [s[0]] + NonSpaces(s[1..])
  }

  lemma {:induction false} NonSpacesSkip(s: string, k: nat)
    requires k <= |s| && forall i :: 0 <= i < k ==> IsSpace(s[i])
    ensures NonSpaces(s) == NonSpaces(s[k..])
    decreases k
  {
    if k > 0 {
      NonSpacesSkip(s[1..], k - 1);
      assert s[1..][k - 1..] == s[k..];
    }
  }

  /** Collapsing only rewrites whitespace: the other characters stay, in
      order. */
  lemma {:induction false} CollapseKeepsNonSpaces(s: string)
    ensures NonSpaces(CollapseWhitespace(s)) == NonSpaces(s)
    decreases |s|
  {
    if |s| > 0 {
      if IsSpace(s[0]) {
        var k := SpaceRun(s);
        CollapseKeepsNonSpaces(s[k..]);
        NonSpacesSkip(s, k);
        var rest := CollapseWhitespace(s[k..]);
        assert (" " + rest)[1..] == rest;
      } else {
        CollapseKeepsNonSpaces(s[1..]);
        var rest := CollapseWhitespace(s[1..]);
        assert ([s[0]] + rest)[1..] == rest;
      }
    }
  }

  // ---------------------------------------------------------------------
  // Steps 4 to 6: deletions and one-for-one maps

  /** Arabic diacritics, U+064B to U+0652. */
  predicate IsHaraka(c: char) {
    'ً' <= c <= 'ْ'
  }

  /** The Arabic block, U+0600 to U+06FF. */
  predicate IsArabic(c: char) {
    '؀' <= c <= 'ۿ'
  }

  /** `re.sub(r'[ً-ْ]', '', text)`. */
  function RemoveHarakat(s: string): (r: string)
    ensures |r| <= |s|
    decreases |s|
  {
    if |s| == 0 then ""
    else if IsHaraka(s[0]) then RemoveHarakat(s[1..])
    else [s[0]] + RemoveHarakat(s[1..])
  }

  /** A character is left exactly when it was there and is not a
      diacritic. */
  lemma {:induction false} RemoveHarakatChars(s: string)
    ensures forall c :: c in RemoveHarakat(s) <==> c in s && !IsHaraka(c)
    decreases |s|
  {
    if |s| > 0 {
      RemoveHarakatChars(s[1..]);
      assert s == [s[0]] + s[1..];
    }
  }

  /** `re.sub(r'[^؀-ۿ\s]', '', text)`. */
  function KeepArabicOrSpace(s: string): (r: string)
    ensures |r| <= |s|
    decreases |s|
  {
    if |s| == 0 then ""
    else if IsArabic(s[0]) || IsSpace(s[0]) then [s[0]] + KeepArabicOrSpace(s[1..])
    else KeepArabicOrSpace(s[1..])
  }

  /** A character is left exactly when it was there and is Arabic or
      whitespace. */
  lemma {:induction false} KeepArabicOrSpaceChars(s: string)
    ensures forall c :: c in KeepArabicOrSpace(s) <==> c in s && (IsArabic(c) || IsSpace(c))
    decreases |s|
  {
    if |s| > 0 {
      KeepArabicOrSpaceChars(s[1..]);
      assert s == [s[0]] + s[1..];
    }
  }

  /** Removing diacritics works character by character: the text around
      a character is filtered on its own, and the character stays exactly
      when it is not a diacritic. */
  lemma {:induction false} RemoveHarakatAround(a: string, c: char, b: string)
    ensures RemoveHarakat(a + [c] + b)
      == RemoveHarakat(a) + (if IsHaraka(c) then "" else [c]) + RemoveHarakat(b)
    decreases |a|
  {
    if |a| == 0 {
      assert a + [c] + b == [c] + b;
      RemoveHarakatCons(c, b);
    } else {
      var a1 := a[1..];
      assert a + [c] + b == [a[0]] + (a1 + [c] + b);
      assert a == [a[0]] + a1;
      RemoveHarakatCons(a[0], a1 + [c] + b);
      RemoveHarakatCons(a[0], a1);
      RemoveHarakatAround(a1, c, b);
      var p, k := (if IsHaraka(a[0]) then "" else [a[0]]), (if IsHaraka(c) then "" else [c]);
      var x, y := RemoveHarakat(a1), RemoveHarakat(b);
      assert p + (x + k + y) == (p + x) + k + y;
    }
  }

  lemma RemoveHarakatCons(x: char, y: string)
    ensures RemoveHarakat([x] + y) == (if IsHaraka(x) then "" else [x]) + RemoveHarakat(y)
  {
    assert ([x] + y)[1..] == y;
  }

  /** The same for the filter that keeps Arabic and whitespace. */
  lemma {:induction false} KeepArabicOrSpaceAround(a: string, c: char, b: string)
    ensures KeepArabicOrSpace(a + [c] + b)
      == KeepArabicOrSpace(a) + (if IsArabic(c) || IsSpace(c) then [c] else "") + KeepArabicOrSpace(b)
    decreases |a|
  {
    if |a| == 0 {
      assert a + [c] + b == [c] + b;
      KeepArabicOrSpaceCons(c, b);
    } else {
      var a1 := a[1..];
      assert a + [c] + b == [a[0]] + (a1 + [c] + b);
      assert a == [a[0]] + a1;
      KeepArabicOrSpaceCons(a[0], a1 + [c] + b);
      KeepArabicOrSpaceCons(a[0], a1);
      KeepArabicOrSpaceAround(a1, c, b);
      var p, k := (if IsArabic(a[0]) || IsSpace(a[0]) then [a[0]] else ""), (if IsArabic(c) || IsSpace(c) then [c] else "");
      var x, y := KeepArabicOrSpace(a1), KeepArabicOrSpace(b);
      assert p + (x + k + y) == (p + x) + k + y;
    }
  }

  lemma KeepArabicOrSpaceCons(x: char, y: string)
    ensures KeepArabicOrSpace([x] + y) == (if IsArabic(x) || IsSpace(x) then [x] else "") + KeepArabicOrSpace(y)
  {
    assert ([x] + y)[1..] == y;
  }

  /** Alef with madda, hamza above and hamza below become bare alef
      (U+0622, U+0623, U+0625 to U+0627); alef maqsura becomes ya
      (U+0649 to U+064A); every other character stays. */
  function NormalizeChar(c: char): (d: char)
    ensures d != 'آ' && d != 'أ' && d != 'إ' && d != 'ى'
    ensures c != 'آ' && c != 'أ' && c != 'إ' && c != 'ى' ==> d == c
    ensures IsArabic(c) ==> IsArabic(d)
  {
    if c == 'آ' || c == 'أ' || c == 'إ' then 'ا'
    else if c == 'ى' then 'ي'
    else c
  }

  /** The two normalising substitutions, character by character. */
  function Normalize(s: string): (r: string)
    ensures |r| == |s|
    ensures forall i :: 0 <= i < |s| ==> r[i] == NormalizeChar(s[i])
    decreases |s|
  {
    if |s| == 0 then "" else [NormalizeChar(s[0])] + Normalize(s[1..])
  }

  /** `clean_text`. */
  function CleanText(s: string): string {
    Normalize(KeepArabicOrSpace(RemoveHarakat(Strip(CollapseWhitespace(RemoveUrls(s))))))
  }

  /** `strip()` only removes characters. */
  lemma StripChars(s: string)
    ensures forall c :: c in Strip(s) ==> c in s
  {
    var r := Strip(s);
    var k :| OccursAt(s, r, k);
    forall c | c in r ensures c in s {
      var i :| 0 <= i < |r| && r[i] == c;
      assert s[k..k + |r|][i] == c;
    }
  }

  /** A character that survives the deletions, from text whose only
      whitespace is U+0020, is normalised to one the cleaner promises. */
  lemma CleanChar(a: string, x: char)
    requires forall i :: 0 <= i < |a| && IsSpace(a[i]) ==> a[i] == ' '
    requires x in KeepArabicOrSpace(RemoveHarakat(Strip(a)))
    ensures var y := NormalizeChar(x);
      !IsHaraka(y) && (IsArabic(y) || y == ' ')
  {
    StripChars(a);
    KeepArabicOrSpaceChars(RemoveHarakat(Strip(a)));
    RemoveHarakatChars(Strip(a));
    assert x in a && !IsHaraka(x);
    if IsSpace(x) {
      var j :| 0 <= j < |a| && a[j] == x;
    }
  }

  /** What the normaliser leaves: no diacritic, nothing outside the Arabic
      block but spaces, no whitespace other than U+0020, none of the
      normalised alef or ya forms, and no more characters than it got. */
  lemma CleanTextResult(s: string)
    ensures var r := CleanText(s);
      && |r| <= |s|
      && (forall i :: 0 <= i < |r| ==> !IsHaraka(r[i]))
      && (forall i :: 0 <= i < |r| ==> IsArabic(r[i]) || r[i] == ' ')
      && (forall i :: 0 <= i < |r| ==> r[i] != 'آ' && r[i] != 'أ' && r[i] != 'إ' && r[i] != 'ى')
  {
    var a := CollapseWhitespace(RemoveUrls(s));
    var d := KeepArabicOrSpace(RemoveHarakat(Strip(a)));
    forall i | 0 <= i < |d|
      ensures !IsHaraka(NormalizeChar(d[i])) && (IsArabic(NormalizeChar(d[i])) || NormalizeChar(d[i]) == ' ')
    {
      CleanChar(a, d[i]);
    }
  }
}

module TextCleanersExamples {
  import opened PyStrings
  import opened TextCleaners

  lemma UrlStageExample()
    ensures RemoveUrls("a م") == "a م"
  {
    assert RemoveUrls("م") == "م" by { assert "م"[1..] == ""; }
    assert RemoveUrls(" م") == " م" by { assert " م"[1..] == "م"; }
    assert "a م"[1..] == " م";
  }

  lemma WhitespaceStageExample()
    ensures Strip(CollapseWhitespace("a م")) == "a م"
  {
    assert CollapseWhitespace("م") == "م" by { assert "م"[1..] == ""; }
    assert SpaceRun(" م") == 1 by { assert SpaceRun("م") == 0; assert " م"[1..] == "م"; }
    assert CollapseWhitespace(" م") == " م" by { assert " م"[1..] == "م"; }
    assert CollapseWhitespace("a م") == "a م" by { assert "a م"[1..] == " م"; }
    assert LStrip("a م") == "a م";
    assert RStrip("a م") == "a م";
  }

  lemma DeletionStageExample()
    ensures Normalize(KeepArabicOrSpace(RemoveHarakat("a م"))) == " م"
  {
    assert RemoveHarakat("م") == "م" by { assert "م"[1..] == ""; }
    assert RemoveHarakat(" م") == " م" by { assert " م"[1..] == "م"; }
    assert RemoveHarakat("a م") == "a م" by { assert "a م"[1..] == " م"; }
    assert KeepArabicOrSpace("م") == "م" by { assert "م"[1..] == ""; }
    assert KeepArabicOrSpace(" م") == " م" by { assert " م"[1..] == "م"; }
    assert KeepArabicOrSpace("a م") == " م" by { assert "a م"[1..] == " م"; }
    assert Normalize(" م") == " م";
  }

  /** Whitespace is stripped before the non-Arabic characters are deleted,
      so a deleted Latin word can leave a space at the edge: "a م" cleans
      to " م". */
  lemma EdgeSpaceSurvives()
    ensures CleanText("a م") == " م"
  {
    UrlStageExample();
    WhitespaceStageExample();
    DeletionStageExample();
  }
}
