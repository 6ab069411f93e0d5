/**
  The routing predicates of the pipeline (src/graphs/nodes/router_nodes.py).
  Each reads one field of the state and returns one of two node labels,
  written as the strings the source returns.
 */
module RouterNodes {
  import opened Wrappers
  import opened Schemas
  import opened RegularNodes

  /** `router_from_Arbic_checker`: the language checker's verdict
      `is_arabic` (a field the checker adds to the state) picks the
      cleaner, otherwise the run ends. */
  function RouterFromArabicChecker(isArabic: bool): (route: string)
    ensures route == "cleaner" <==> isArabic
    ensures route == "END" <==> !isArabic
  {
    if isArabic then "cleaner" else "END"
  }

  /** `router_to_first_name_querier_or_end`: ends exactly when the chunk
      stream is exhausted. */
  function RouterToFirstNameQuerierOrEnd(s: State): (route: string)
    ensures route == "END" <==> s.noMoreChunks
    ensures route == "first_name_querier" <==> !s.noMoreChunks
  {
    if s.noMoreChunks then "END" else "first_name_querier"
  }

  /** `router_to_summarizer_or_chunk_updater`: a non-empty mention list goes
      to the summarizer; a missing one and an empty one both skip to the
      chunk updater. */
  function RouterToSummarizerOrChunkUpdater(s: State): (route: string)
    ensures route == "summarizer" <==>
      (s.lastAppearingCharacters.Some? && |s.lastAppearingCharacters.value| > 0)
    ensures route == "chunk_updater" <==>
      (s.lastAppearingCharacters.None? || s.lastAppearingCharacters.value == [])
  {
    if s.lastAppearingCharacters.Some? && |s.lastAppearingCharacters.value| > 0
    then "summarizer"
    else "chunk_updater"
  }

  /** Each router reads a single field: states that agree on it are routed
      alike, whatever else they hold. */
  lemma RoutersReadOneField(s: State, t: State)
    ensures s.noMoreChunks == t.noMoreChunks ==>
      RouterToFirstNameQuerierOrEnd(s) == RouterToFirstNameQuerierOrEnd(t)
    ensures s.lastAppearingCharacters == t.lastAppearingCharacters ==>
      RouterToSummarizerOrChunkUpdater(s) == RouterToSummarizerOrChunkUpdater(t)
  {
  }

  /** The mention router's answer after the first name querier depends only
      on the detector's answer for the rolling context, and skips exactly
      when that answer has no characters. */
  lemma MentionRouteAfterQuery(s: State, detect: string -> NameQueryResponse)
    ensures var response := detect(RollingContext(s.previousChunk, s.currentChunk));
      RouterToSummarizerOrChunkUpdater(FirstNameQuerier(s, detect)) == "chunk_updater"
      <==> response.characters.None? || response.characters.value == []
  {
  }
}
