/**
  The front-matter stripper (`remove_book_metadata`,
  src/preprocessors/metadata_remover.py). It looks at the first 2000
  characters. When a chapter marker occurs there, the text is cut at the
  earliest marker. Otherwise, when a metadata keyword occurs on a short
  line, the text is cut just after the word that starts at the last such
  keyword. Otherwise the text is returned whole.
 */
module MetadataRemover {
  import opened PyStrings

  const SearchWindowSize: nat := 2000
  const MaxMetadataLineLength: nat := 80

  /** Words of a title page, in the source's order (two appear twice). */
  const MetadataKeywords: seq<string> := [
    "نشر", "ترجمة", "شركة", "صحافة", "طباعة", "توزيع", "موافقة",
    "ناشر", "غلاف", "تأليف", "مركز", "دار", "حقوق", "محفوظة",
    "كاتب", "أديب", "مؤلف", "رقم", "تاريخ", "رواية", "كتاب",
    "نسخة", "غلاف", "قانون", "شركة", "مترجم", "طبعة", "تحرير",
    "محرر", "إهداء", "فاكس"
  ]

  /** Markers of the start of the story: "chapter", "first", "part". */
  const StartKeywords: seq<string> := ["فصل", "أول", "جزء"]

  /** `text[:2000]`. */
  function Window(text: string): (w: string)
    ensures |w| <= SearchWindowSize && |w| <= |text| && w == text[..|w|]
    ensures |text| >= SearchWindowSize ==> |w| == SearchWindowSize
    ensures |text| < SearchWindowSize ==> w == text
  {
    if |text| <= SearchWindowSize then text else text[..SearchWindowSize]
  }

  function Min(a: int, b: int): int { if a <= b then a else b }
  function Max(a: int, b: int): int { if a >= b then a else b }

  /** `first_start_pos` after scanning `kws` in order: the least first
      occurrence of any of them in `w`, or -1. */
  function EarliestOf(w: string, kws: seq<string>): int
    decreases |kws|
  {
    if |kws| == 0 then -1
    else
      var before := EarliestOf(w, kws[..|kws| - 1]);
      var pos := Find(w, kws[|kws| - 1]);
      if pos == -1 then before
      else if before == -1 then pos
      else Min(before, pos)
  }

  /** What one metadata keyword on one line contributes to
      `last_metadata_pos`: the keyword's offset in the line plus the
      line's first occurrence in the window, when the line holds the
      keyword and is short once stripped; -1 otherwise. */
  function Candidate(w: string, line: string, kw: string): int {
    if Find(line, kw) != -1 && |Strip(line)| <= MaxMetadataLineLength
    then Find(w, line) + Find(line, kw)
    else -1
  }

  /** `Candidate` for the window `w`, as a function of line and keyword. */
  function CandidateIn(w: string): (string, string) -> int {
    (line, kw) => Candidate(w, line, kw)
  }

  /** The largest candidate of `line` over `kws`, at least -1. */
  function LineMax(line: string, kws: seq<string>, cand: (string, string) -> int): int
    decreases |kws|
  {
    if |kws| == 0 then -1
    else Max(LineMax(line, kws[..|kws| - 1], cand), cand(line, kws[|kws| - 1]))
  }

  /** `last_metadata_pos` after scanning `lines` in order, each against
      `kws`. */
  function MetaMaxOf(lines: seq<string>, kws: seq<string>, cand: (string, string) -> int): int
    decreases |lines|
  {
    if |lines| == 0 then -1
    else Max(MetaMaxOf(lines[..|lines| - 1], kws, cand), LineMax(lines[|lines| - 1], kws, cand))
  }

  /** `last_metadata_pos` for the whole window. */
  function MetaMax(w: string): int {
    MetaMaxOf(SplitOn(w, '\n'), MetadataKeywords, CandidateIn(w))
  }

  /** `final_slice_index` for the window `w`, given `first_start_pos` and
      `last_metadata_pos`, or 0 when the text is returned whole. */
  function CutAt(w: string, first: int, last: int): int
    requires -1 <= last < |w|
  {
    if first != -1 then first
    else if last != -1 then
      var remaining := w[last..];
      var words := SplitWhitespace(remaining);
      if |words| > 0 then last + Find(remaining, words[0]) + |words[0]|
      else last + 1
    else 0
  }

  /** The cut `remove_book_metadata` makes in `text`. */
  function Cut(text: string): int {
    var w := Window(text);
    MetaMaxInWindow(w);
    CutAt(w, EarliestOf(w, StartKeywords), MetaMax(w))
  }

  // ---------------------------------------------------------------------
  // Facts about the scans

  /** The start-marker scan finds the earliest occurrence of any marker,
      and -1 exactly when none occurs. */
  lemma {:induction false} EarliestOfFound(w: string, kws: seq<string>)
    ensures EarliestOf(w, kws) == -1 <==>
      forall j, k :: 0 <= j < |kws| ==> !OccursAt(w, kws[j], k)
    ensures EarliestOf(w, kws) != -1 ==>
      && 0 <= EarliestOf(w, kws) < |w| + 1
      && (exists j :: 0 <= j < |kws| && OccursAt(w, kws[j], EarliestOf(w, kws)))
      && forall j, k :: 0 <= j < |kws| && OccursAt(w, kws[j], k) ==> EarliestOf(w, kws) <= k
    decreases |kws|
  {
    if |kws| > 0 {
      var n := |kws| - 1;
      var init := kws[..n];
      EarliestOfFound(w, init);
      assert forall j :: 0 <= j < n ==> init[j] == kws[j];
      var before := EarliestOf(w, init);
      var pos := Find(w, kws[n]);
      if before != -1 {
        var j :| 0 <= j < n && OccursAt(w, init[j], before);
        assert OccursAt(w, kws[j], before);
      }
      if pos != -1 {
        assert OccursAt(w, kws[n], pos);
      }
    }
  }

  /** A line's largest candidate is one of its candidates and bounds them
      all. */
  lemma {:induction false} LineMaxAttained(line: string, kws: seq<string>, cand: (string, string) -> int)
    returns (j: int)
    ensures -1 <= LineMax(line, kws, cand)
    ensures forall k :: 0 <= k < |kws| ==> cand(line, kws[k]) <= LineMax(line, kws, cand)
    ensures LineMax(line, kws, cand) != -1 ==>
      0 <= j < |kws| && cand(line, kws[j]) == LineMax(line, kws, cand)
    decreases |kws|
  {
    j := -1;
    if |kws| > 0 {
      var n := |kws| - 1;
      var init := kws[..n];
      var j' := LineMaxAttained(line, init, cand);
      assert forall k :: 0 <= k < n ==> init[k] == kws[k];
      if cand(line, kws[n]) >= LineMax(line, init, cand) {
        j := n;
      } else {
        j := j';
      }
    }
  }

  /** The window's largest candidate is one of its candidates and bounds
      them all. */
  lemma {:induction false} MetaMaxAttained(lines: seq<string>, kws: seq<string>, cand: (string, string) -> int)
    returns (i: int, j: int)
    ensures -1 <= MetaMaxOf(lines, kws, cand)
    ensures forall a, b :: 0 <= a < |lines| && 0 <= b < |kws| ==>
      cand(lines[a], kws[b]) <= MetaMaxOf(lines, kws, cand)
    ensures MetaMaxOf(lines, kws, cand) != -1 ==>
      && 0 <= i < |lines| && 0 <= j < |kws|
      && cand(lines[i], kws[j]) == MetaMaxOf(lines, kws, cand)
    decreases |lines|
  {
    i, j := -1, -1;
    if |lines| > 0 {
      var n := |lines| - 1;
      var init := lines[..n];
      var i', j' := MetaMaxAttained(init, kws, cand);
      var jn := LineMaxAttained(lines[n], kws, cand);
      forall a, b | 0 <= a < |lines| && 0 <= b < |kws|
        ensures cand(lines[a], kws[b]) <= MetaMaxOf(lines, kws, cand)
      {
        if a < n {
          assert init[a] == lines[a];
        }
      }
      if LineMax(lines[n], kws, cand) >= MetaMaxOf(init, kws, cand) {
        i, j := n, jn;
      } else {
        i, j := i', j';
      }
    }
  }

  /** Every metadata keyword is a word that starts with a letter. */
  lemma KeywordsStartWithLetter()
    ensures forall k :: 0 <= k < |MetadataKeywords| ==>
      |MetadataKeywords[k]| > 0 && !IsSpace(MetadataKeywords[k][0])
  {
  }

  /** Where `last_metadata_pos` is not -1, a metadata keyword occurs there:
      it comes from a short line of the window holding that keyword. */
  lemma MetaMaxOccurs(w: string) returns (b: int)
    ensures -1 <= MetaMax(w)
    ensures MetaMax(w) != -1 ==>
      0 <= b < |MetadataKeywords| && OccursAt(w, MetadataKeywords[b], MetaMax(w))
  {
    b := MetaMaxOfOccurs(w, MetadataKeywords);
  }

  /** `MetaMaxOccurs` for any keyword list. */
  lemma MetaMaxOfOccurs(w: string, kws: seq<string>) returns (b: int)
    ensures var m := MetaMaxOf(SplitOn(w, '\n'), kws, CandidateIn(w));
      -1 <= m && (m != -1 ==> 0 <= b < |kws| && OccursAt(w, kws[b], m))
  {
    var lines := SplitOn(w, '\n');
    var i, j := MetaMaxAttained(lines, kws, CandidateIn(w));
    b := j;
    if MetaMaxOf(lines, kws, CandidateIn(w)) != -1 {
      SplitOnPiecesFound(w, '\n', i);
      CandidateOccurs(w, lines[i], kws[j]);
    }
  }

  /** A candidate that is not -1 is where the keyword occurs in the
      window, when the line does. */
  lemma CandidateOccurs(w: string, line: string, kw: string)
    requires Find(w, line) >= 0
    ensures Candidate(w, line, kw) != -1 ==> OccursAt(w, kw, Candidate(w, line, kw))
  {
    if Candidate(w, line, kw) != -1 {
      FindCompose(w, line, kw);
    }
  }

  /** So `last_metadata_pos` is -1 or an index into the window. */
  lemma MetaMaxInWindow(w: string)
    ensures -1 <= MetaMax(w) < |w|
  {
    var b := MetaMaxOccurs(w);
    KeywordsStartWithLetter();
  }

  /** `last_metadata_pos` is -1 exactly when no short line of the window
      holds a metadata keyword. */
  lemma MetaMaxNone(w: string)
    ensures var lines := SplitOn(w, '\n');
      MetaMax(w) == -1 <==>
        forall a, b :: 0 <= a < |lines| && 0 <= b < |MetadataKeywords| ==>
          !(Find(lines[a], MetadataKeywords[b]) != -1 && |Strip(lines[a])| <= MaxMetadataLineLength)
  {
    var lines := SplitOn(w, '\n');
    var i, j := MetaMaxAttained(lines, MetadataKeywords, CandidateIn(w));
    if MetaMax(w) != -1 {
      assert Candidate(w, lines[i], MetadataKeywords[j]) != -1;
      assert Find(lines[i], MetadataKeywords[j]) != -1 && |Strip(lines[i])| <= MaxMetadataLineLength;
    } else {
      forall a, c | 0 <= a < |lines| && 0 <= c < |MetadataKeywords|
        ensures !(Find(lines[a], MetadataKeywords[c]) != -1 && |Strip(lines[a])| <= MaxMetadataLineLength)
      {
        SplitOnPiecesFound(w, '\n', a);
        assert Candidate(w, lines[a], MetadataKeywords[c]) <= -1;
      }
    }
  }

  /** `last_metadata_pos` is at least every position that a short line of
      the window and a keyword on it contribute. */
  lemma MetaMaxIsLatest(w: string)
    ensures var lines := SplitOn(w, '\n');
      forall a, b :: 0 <= a < |lines| && 0 <= b < |MetadataKeywords| ==>
        Candidate(w, lines[a], MetadataKeywords[b]) <= MetaMax(w)
  {
    var lines := SplitOn(w, '\n');
    var i, j := MetaMaxAttained(lines, MetadataKeywords, CandidateIn(w));
    forall a, b | 0 <= a < |lines| && 0 <= b < |MetadataKeywords|
      ensures Candidate(w, lines[a], MetadataKeywords[b]) <= MetaMax(w)
    {
      assert CandidateIn(w)(lines[a], MetadataKeywords[b]) <= MetaMax(w);
    }
  }

  /** A found `last_metadata_pos` is an index into the window where a
      metadata keyword starts, so a word starts there. */
  lemma MetaMaxStartsWord(w: string)
    requires MetaMax(w) != -1
    ensures exists b :: 0 <= b < |MetadataKeywords| && OccursAt(w, MetadataKeywords[b], MetaMax(w))
    ensures 0 <= MetaMax(w) < |w| && !IsSpace(w[MetaMax(w)])
  {
    var b := MetaMaxOccurs(w);
    KeywordsStartWithLetter();
    var m := MetaMax(w);
    var kw := MetadataKeywords[b];
    assert w[m..m + |kw|][0] == kw[0];
  }

  /** The first word of a non-empty word list occurs in the string it came
      from, so `find` returns a position inside it. */
  lemma WordFound(s: string, words: seq<string>)
    requires words == SplitWhitespace(s) && |words| > 0
    ensures 0 <= Find(s, words[0]) && Find(s, words[0]) + |words[0]| <= |s|
  {
    FirstWordAt(s);
  }

  /** The cut lies inside the window. */
  lemma CutBounds(text: string)
    ensures 0 <= Cut(text) <= |Window(text)|
  {
    var w := Window(text);
    EarliestOfFound(w, StartKeywords);
    if EarliestOf(w, StartKeywords) == -1 && MetaMax(w) != -1 {
      MetaMaxInWindow(w);
      var remaining := w[MetaMax(w)..];
      var words := SplitWhitespace(remaining);
      if |words| > 0 {
        WordFound(remaining, words);
      }
    }
  }

  // ---------------------------------------------------------------------
  // The properties of the cut

  /** A chapter marker in the window wins: the cut is at the earliest
      occurrence of any marker. */
  lemma CutAtEarliestMarker(text: string)
    requires exists j, k :: 0 <= j < |StartKeywords| && OccursAt(Window(text), StartKeywords[j], k)
    ensures exists j :: 0 <= j < |StartKeywords| && OccursAt(Window(text), StartKeywords[j], Cut(text))
    ensures forall j, k :: 0 <= j < |StartKeywords| && OccursAt(Window(text), StartKeywords[j], k) ==>
      Cut(text) <= k
  {
    EarliestOfFound(Window(text), StartKeywords);
  }

  /** Without a marker but with metadata, the cut falls right after the
      whitespace-free run that starts at the last metadata keyword: the
      `+ 1` fallback is never taken. */
  lemma CutAfterLastMetadataWord(text: string)
    requires forall j, k :: 0 <= j < |StartKeywords| ==> !OccursAt(Window(text), StartKeywords[j], k)
    requires MetaMax(Window(text)) != -1
    ensures var w := Window(text);
      0 <= MetaMax(w) < |w| && Cut(text) == MetaMax(w) + NonSpaceRun(w[MetaMax(w)..])
  {
    var w := Window(text);
    EarliestOfFound(w, StartKeywords);
    var m := MetaMax(w);
    MetaMaxStartsWord(w);
    var remaining := w[m..];
    FirstWord(remaining);
    FindPrefix(remaining, NonSpaceRun(remaining));
  }

  /** With neither a marker nor metadata nothing is cut. */
  lemma CutNothing(text: string)
    requires forall j, k :: 0 <= j < |StartKeywords| ==> !OccursAt(Window(text), StartKeywords[j], k)
    requires MetaMax(Window(text)) == -1
    ensures Cut(text) == 0
  {
    EarliestOfFound(Window(text), StartKeywords);
  }

  // ---------------------------------------------------------------------
  // The function itself

  /** Step 3 of `remove_book_metadata`: the earliest position in `w` of
      any of `kws`, or -1. */
  method FirstStartPos(w: string, kws: seq<string>) returns (firstStartPos: int)
    ensures firstStartPos == EarliestOf(w, kws)
  {
    firstStartPos := -1;
    for i := 0 to |kws|
      invariant firstStartPos == EarliestOf(w, kws[..i])
    {
      assert kws[..i + 1][..i] == kws[..i];
      var pos := Find(w, kws[i]);
      if pos != -1 {
        if firstStartPos == -1 {
          firstStartPos := pos;
        } else {
          firstStartPos := Min(firstStartPos, pos);
        }
      }
    }
    assert kws[..|kws|] == kws;
  }

  /** Step 4 of `remove_book_metadata`: the latest position in `w` of any
      of `kws` on a short line of `lines`, or -1. */
  method LastMetadataPos(w: string, lines: seq<string>, kws: seq<string>) returns (lastMetadataPos: int)
    ensures lastMetadataPos == MetaMaxOf(lines, kws, CandidateIn(w))
  {
    lastMetadataPos := -1;
    for i := 0 to |lines|
      invariant lastMetadataPos == MetaMaxOf(lines[..i], kws, CandidateIn(w))
    {
      assert lines[..i + 1][..i] == lines[..i];
      var line := lines[i];
      for j := 0 to |kws|
        invariant lastMetadataPos == Max(MetaMaxOf(lines[..i], kws, CandidateIn(w)),
                                         LineMax(line, kws[..j], CandidateIn(w)))
      {
        assert kws[..j + 1][..j] == kws[..j];
        var keyword := kws[j];
        if Find(line, keyword) != -1 {  // `keyword in line`
          if |Strip(line)| <= MaxMetadataLineLength {
            var lineStartPos := Find(w, line);
            var keywordPosInLine := Find(line, keyword);
            var absoluteKeywordPos := lineStartPos + keywordPosInLine;
            if absoluteKeywordPos > lastMetadataPos {
              lastMetadataPos := absoluteKeywordPos;
            }
          }
        }
      }
      assert kws[..|kws|] == kws;
    }
    assert lines[..|lines|] == lines;
  }

  /** The final slice when the window holds metadata but no chapter
      marker: the text after the first word at the last metadata keyword,
      or after one more character when no word follows. */
  method SliceAfterMetadata(text: string, searchWindow: string, lastMetadataPos: int) returns (r: string)
    requires searchWindow == Window(text) && 0 <= lastMetadataPos < |searchWindow|
    ensures 0 <= CutAt(searchWindow, -1, lastMetadataPos) <= |text|
    ensures r == text[CutAt(searchWindow, -1, lastMetadataPos)..]
  {
    var remainingText := searchWindow[lastMetadataPos..];
    var words := SplitWhitespace(remainingText);
    if |words| > 0 {
      WordFound(remainingText, words);
      var firstWordEnd := Find(remainingText, words[0]) + |words[0]|;
      r := text[lastMetadataPos + firstWordEnd..];
    } else {
      r := text[lastMetadataPos + 1..];
    }
  }

  /** `remove_book_metadata`: returns the text from the cut on. The cut
      lies in the window, so at most 2000 leading characters go. */
  method RemoveBookMetadata(text: string) returns (r: string)
    ensures 0 <= Cut(text) <= |text| && Cut(text) <= SearchWindowSize
    ensures r == text[Cut(text)..]
  {
    var searchWindow := if |text| <= SearchWindowSize then text else text[..SearchWindowSize];
    assert searchWindow == Window(text);
    var lines := SplitOn(searchWindow, '\n');
    var firstStartPos := FirstStartPos(searchWindow, StartKeywords);
    var lastMetadataPos := -1;
    if firstStartPos == -1 {
      lastMetadataPos := LastMetadataPos(searchWindow, lines, MetadataKeywords);
    }

    MetaMaxInWindow(searchWindow);
    CutBounds(text);
    assert Cut(text) == CutAt(searchWindow, firstStartPos, lastMetadataPos);
    if firstStartPos != -1 {
      r := text[firstStartPos..];
    } else if lastMetadataPos != -1 {
      r := SliceAfterMetadata(text, searchWindow, lastMetadataPos);
    } else {
      r := text;
    }
  }
}
