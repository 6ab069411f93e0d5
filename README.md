# Character-profile pipeline, modelled in Dafny

The system reads an Arabic novel and builds a profile of each character in
it. The text is cleaned, a leading metadata block (title page, publisher,
table of contents) is cut off, and the text is split into chunks. A
LangGraph state machine then walks the chunks. For each chunk a language
model names the characters it mentions. Unknown names get a skeleton
profile in a SQLite-backed character store. A second model call rewrites
the working profiles, and each profile is written back by id.

The model covers:

- **The store** (`Database`). `CharacterDatabase` is a class whose `rows`
  field maps `character_id` to a row (name, optional hint, profile
  document). Each writing statement (INSERT, UPDATE, DELETE) becomes a
  method that reassigns `rows`. Each SELECT becomes a method that only
  reads `rows`, and its result is tied to a specification over that map,
  including
  the `ORDER BY name, disambiguation_hint` order as a proved sorted
  permutation.
- **The pipeline nodes** (`RegularNodes`, `RouterNodes`). A node is a
  function from state to state, or a method when it touches the store or
  the chunk generator. The generator is the cursor class
  `ChunkStreams.ChunkStream`. The language-model calls are oracle
  parameters.
- **The wiring** (`GraphBuilders`). The graph is a next-node function.
  `Run` drives the compiled graph from the entry node to `END`, with no
  bound on the number of steps (see "## Left out" for LangGraph's step
  limit). Its loop takes one step per node: `UpdaterStep`, `QuerierStep`,
  `ResolveStep` and `RefreshStep` each run one node and then follow the
  edge that leaves it. It proves:
  - the run terminates;
  - how many chunk updates it makes;
  - where the chunk cursor ends;
  - the resolver's failure mode;
  - every stored record keeps its name and hint;
  - with an id-preserving merge model, the run only adds skeleton records.
- **The legacy controller** (`LegacyNodes`). This is the earlier
  single-cursor graph with the router-driven loop of its two nodes.
- **`remove_book_metadata`** (`MetadataRemover`). The loops are
  imperative methods. They are proved against recursive specification
  functions, and the properties of the cut are proved about those
  functions.
- **`clean_text`** (`TextCleaners`). Each regular-expression pass is a
  function over characters. The model proves:
  - the URL pass leaves no URL and is idempotent;
  - the URL pass cleans the text on each side of a whitespace character
    on its own, and cuts a word at its first URL start;
  - collapsing whitespace keeps the same words, in order, and one space
    between them;
  - the two deleting passes keep, in order, exactly the characters they
    should;
  - the result contains only Arabic letters and spaces, with no
    diacritics and no un-normalised alef forms.
- **Python's string built-ins** that the core relies on (`PyStrings`):
  `str.find`, `str.split`, `str.split('\n')`, `strip` and `isspace`.

Where the code does something its own names or comments do not suggest,
the model follows the code:

- `src/graphs/graph_builders.py:3` imports `name_querier`,
  `router_to_name_querier_or_end` and
  `router_to_profile_retriever_creator_or_chunk_updater`. None of these
  names is defined in the node files. The model binds `name_querier` to
  `first_name_querier` and uses the two routers of
  `src/graphs/nodes/router_nodes.py`. Their labels "first_name_querier"
  and "summarizer" are renamed to the path-map keys of
  `src/graphs/graph_builders.py:17-29`.
- The summarizer and the second name querier exist but are never wired.
  So a run never changes `last_summary`, and the refresher always sees "".
- The store's read operations return `character_id`
  (`src/databases/database.py:113-118, 143-148`). The resolver reads
  `char['id']` (`src/graphs/nodes/regular_nodes.py:129`). So a mention
  whose name is already stored raises `KeyError('id')`. This includes a
  name inserted earlier in the same node run. The model returns
  `MissingKey("id")`.
- The resolver gives every new profile the id "" and drops the id the
  store generated (`src/graphs/nodes/regular_nodes.py:146-160`). The
  store never holds "". So a merge model that keeps the ids it was given
  refreshes no record (`RegularNodes.SkeletonsNeverRefreshed`).
- The chunker raises `ValueError` on an empty cleaned text
  (`src/graphs/nodes/regular_nodes.py:38-39`). The run fails there; it
  does not end quietly.
- `clean_text` strips the text before deleting non-Arabic characters, so
  a space that ends up at an edge survives
  (`TextCleanersExamples.EdgeSpaceSurvives`).

## Model

| member | source | states |
|---|---|---|
| PyStrings.Find | src/preprocessors/metadata_remover.py:41 | `str.find`: -1 exactly when the word occurs nowhere; otherwise the least index where it occurs |
| PyStrings.FindCompose | src/preprocessors/metadata_remover.py:60-62 | where a line occurs in the window and a keyword occurs in the line, the keyword occurs in the window at the sum of the two positions |
| PyStrings.SplitOn | src/preprocessors/metadata_remover.py:35 | `split('\n')` yields at least one piece and no piece contains the separator |
| PyStrings.JoinSplitOn | src/preprocessors/metadata_remover.py:35 | joining the pieces of `split('\n')` with the separator gives back the text |
| PyStrings.SplitOnPiecesFound | src/preprocessors/metadata_remover.py:60 | every piece of `split('\n')` occurs in the text it came from, so `find(line)` is never -1 |
| PyStrings.SplitWhitespace | src/preprocessors/metadata_remover.py:81 | specification function for `str.split()`: the maximal whitespace-free runs, in order; its properties are stated by the next three rows and by `TextCleaners.CollapseKeepsWords` |
| PyStrings.SplitWhitespaceWords | src/preprocessors/metadata_remover.py:81 | every word `split()` returns is non-empty and free of whitespace |
| PyStrings.SplitWhitespaceEmpty | src/preprocessors/metadata_remover.py:81-82 | `split()` returns no words exactly when the text is all whitespace |
| PyStrings.FirstWordAt | src/preprocessors/metadata_remover.py:84 | the first word of `split()` is the non-space run after the leading whitespace, and `find` locates it there |
| PyStrings.Strip | src/preprocessors/text_cleaners.py:7 | `strip()` returns the text between its leading and its trailing whitespace: the part before the result and the part after it are all whitespace, and the result neither starts nor ends with whitespace |
| Database.Updated | src/databases/database.py:80-86 | an `UPDATE … WHERE character_id` changes only that row's document; ids, names and hints are kept |
| Database.UpdateIdempotent | src/databases/database.py:69-89 | writing the same document twice equals writing it once |
| Database.StrLessTotal | src/databases/database.py:164 | the BINARY collation compares any two distinct strings |
| Database.StrLessTransitive | src/databases/database.py:164 | the BINARY collation is transitive |
| Database.OrderedTotal | src/databases/database.py:164 | `ORDER BY name, disambiguation_hint` (NULL first) relates any two records |
| Database.OrderedTransitive | src/databases/database.py:164 | that order is transitive |
| Database.InsertSorted | src/databases/database.py:164 | placing one record adds exactly that record to the multiset |
| Database.InsertSortedSorted | src/databases/database.py:164 | placing a record into a sorted list keeps it sorted |
| Database.FreshId | src/databases/database.py:57 | the generated id is non-empty and unused by any stored row |
| Database.CharacterDatabase.constructor | src/databases/database.py:13-42 | opening the store keeps the table it already holds |
| Database.CharacterDatabase.InsertCharacter | src/databases/database.py:44-67 | returns a fresh non-empty id; the table gains exactly that row with the given name, hint and document; the count grows by one |
| Database.CharacterDatabase.UpdateCharacter | src/databases/database.py:69-89 | reports success exactly when the id is stored; the new table is `Updated(old, id, doc)` |
| Database.CharacterDatabase.GetCharacter | src/databases/database.py:91-119 | `None` exactly when the id is absent; otherwise the row's name, hint and document under that id |
| Database.CharacterDatabase.FindCharactersByName | src/databases/database.py:121-150 | the result is, as a multiset, exactly the records whose name equals the query (homonyms included, each once) |
| Database.CharacterDatabase.SortedRecords | src/databases/database.py:159-178 | the records of a set of ids, each once, in `ORDER BY name, disambiguation_hint` order |
| Database.CharacterDatabase.GetAllCharacters | src/databases/database.py:152-178 | every record exactly once, sorted by name then hint |
| Database.CharacterDatabase.DeleteCharacter | src/databases/database.py:180-194 | reports success exactly when the id was stored; the table loses exactly that row |
| Database.CharacterDatabase.SearchCharacters | src/databases/database.py:196-226 | exactly the records whose name or hint contains the query, each once, sorted |
| Database.CharacterDatabase.GetCharacterCount | src/databases/database.py:228-238 | the number of stored rows |
| Database.CharacterDatabase.ClearDatabase | src/databases/database.py:240-245 | the table is empty afterwards |
| ChunkStreams.ChunkStream.constructor | src/graphs/nodes/regular_nodes.py:45-49 | a generator over the given chunks, positioned before the first |
| ChunkStreams.ChunkStream.Next | src/graphs/nodes/regular_nodes.py:45-47 | `next(gen)` yields the chunk at the cursor and advances it by one; at the end it signals `StopIteration` and does not move |
| RegularNodes.Mentions | src/graphs/nodes/regular_nodes.py:72 | specification function: the response's `characters`, or [] when it has none; `RouterNodes.MentionRouteAfterQuery` states how the route depends on it |
| RegularNodes.Chunker | src/graphs/nodes/regular_nodes.py:31-53 | an empty cleaned text fails with `ValueError`; otherwise a fresh generator over the splitter's chunks, at the start |
| RegularNodes.TrailingThird | src/graphs/nodes/regular_nodes.py:60-62 | `p[2*(len(p)//3):]` is a suffix of `p` of length between a third of `p` and two more |
| RegularNodes.RollingContext | src/graphs/nodes/regular_nodes.py:60-62 | the context ends with the whole current chunk, after one space, after that suffix of the previous chunk |
| RegularNodes.FirstNameQuerier | src/graphs/nodes/regular_nodes.py:56-76 | only `last_appearing_characters` changes; it holds the detector's characters for the rolling context, or [] when the response has none |
| RegularNodes.SecondNameQuerier | src/graphs/nodes/regular_nodes.py:78-96 | the same over the whole last summary |
| RegularNodes.Summarizer | src/graphs/nodes/regular_nodes.py:233-246 | only `last_summary` changes; it becomes the oracle's summary of the rolling context of the last summary and the current chunk |
| RegularNodes.ChunkUpdater | src/graphs/nodes/regular_nodes.py:217-229 | on a chunk, the current chunk shifts to previous and the new one becomes current; on exhaustion only `no_more_chunks` is set |
| RegularNodes.AddRowsAt | src/graphs/nodes/regular_nodes.py:134-146 | after the resolver's inserts the table holds exactly the old rows, unchanged, plus each mention's skeleton under its new id |
| RegularNodes.AddRowsNames | src/graphs/nodes/regular_nodes.py:113 | a name is then stored exactly when it was stored before or some inserted mention has it |
| RegularNodes.ConflictsInStore | src/graphs/nodes/regular_nodes.py:113-115 | the lookup finds records for mention i exactly when its name was stored before or an earlier mention had it |
| RegularNodes.RetrieveOrCreate | src/graphs/nodes/regular_nodes.py:109-161 | succeeds exactly when no mention conflicts, with the mentions' skeleton profiles in order; otherwise stops at the first conflict; the table is the old one plus the skeletons inserted so far, under fresh ids |
| RegularNodes.ProfileRetrieverCreator | src/graphs/nodes/regular_nodes.py:99-163 | a missing mention list fails with `TypeError`; a conflict fails with `KeyError('id')`; otherwise `last_profiles` becomes the skeletons |
| RegularNodes.ToProfile | src/graphs/nodes/regular_nodes.py:181-192 | specification function: the working profile built from one oracle profile, with `relations` read into `relationships` and the oracle's id kept |
| RegularNodes.ToDoc | src/graphs/nodes/regular_nodes.py:196-206 | specification function: the nine-field document written to the store, with `relations` stored as `relationships` and no id |
| RegularNodes.UpdateAll | src/graphs/nodes/regular_nodes.py:179-211 | specification function: the table after one `update_character` per oracle profile, in order; its meaning is stated by `UpdateAllAt` |
| RegularNodes.UpdateAllAt | src/graphs/nodes/regular_nodes.py:179-211 | after the refresher's writes every id, name and hint is kept; a row holds the document of the last oracle profile with its id, or is untouched |
| RegularNodes.UpdateAllIdempotent | src/graphs/nodes/regular_nodes.py:208-211 | committing the same oracle output twice equals committing it once |
| RegularNodes.UpdateAllUnknownIds | src/graphs/nodes/regular_nodes.py:208-211 | oracle profiles whose ids are not stored change nothing |
| RegularNodes.SkeletonsNeverRefreshed | src/graphs/nodes/regular_nodes.py:149-160 | profiles created with id "" are never written back when the oracle keeps ids |
| RegularNodes.ProfileRefresher | src/graphs/nodes/regular_nodes.py:166-215 | `last_profiles` becomes the oracle's profiles in order; the table is the old one after one update per profile, in order |
| RouterNodes.RouterFromArabicChecker | src/graphs/nodes/router_nodes.py:3-10 | "cleaner" exactly when the text is Arabic, "END" otherwise |
| RouterNodes.RouterToFirstNameQuerierOrEnd | src/graphs/nodes/router_nodes.py:13-20 | "END" exactly when the chunks are exhausted |
| RouterNodes.RouterToSummarizerOrChunkUpdater | src/graphs/nodes/router_nodes.py:23-30 | "summarizer" exactly when the mention list is present and non-empty; a missing and an empty list both go to the updater |
| RouterNodes.RoutersReadOneField | src/graphs/nodes/router_nodes.py:13-30 | states that agree on the field a router reads are routed alike |
| RouterNodes.MentionRouteAfterQuery | src/graphs/nodes/router_nodes.py:23-30 | after the first name querier, the updater is chosen exactly when the detector's answer has no characters |
| GraphBuilders.Next | src/graphs/graph_builders.py:14-34 | the wiring: chunker to updater; updater to querier or END (END exactly when exhausted); querier to resolver exactly on a non-empty mention list; resolver to refresher; refresher to updater |
| GraphBuilders.ResolverGrowth | src/graphs/nodes/regular_nodes.py:146 | the resolver's inserts keep every record and add only skeletons |
| GraphBuilders.RefresherGrowth | src/graphs/nodes/regular_nodes.py:208-211 | the refresher's writes keep every record's name and hint |
| GraphBuilders.Run | src/graphs/graph_builders.py:5-36 | a run ends: on an empty text with `ValueError` and the store unchanged; on a resolver conflict with `KeyError('id')`; otherwise after n+1 chunk updates, exhausted, with the last two chunks as current and previous and no summary; every record keeps its name and hint; with an id-keeping merge model only skeletons are added |
| LegacyNodes.ChunkerGeneratorNode | src/graphs/nodes.py:5-32 | an empty or missing path fails with `FileNotFoundError`; otherwise a fresh generator over the file's chunks, the first chunk (or "") as current, and no profile |
| LegacyNodes.OtherChunkNode | src/graphs/nodes.py:50-77 | no generator fails with `TypeError`; exhaustion or an empty chunk drops the generator and empties the chunk, keeping the profile; any other chunk becomes current with the model's new profile |
| LegacyNodes.RouterNode | src/graphs/nodes.py:79-84 | "END" exactly when the generator is gone or the current chunk is empty |
| LegacyNodes.ReadAllSnoc | src/graphs/nodes.py:66-77 | reading one more chunk is one more model call on the profile so far |
| LegacyNodes.FirstEmpty | src/graphs/nodes.py:59 | the first empty chunk at or after a position, or the end |
| LegacyNodes.DrainChunks | src/graphs/nodes.py:50-84 | looping `other_chunk_node` while the router says "other_chunk" reads every chunk up to the first empty one, in order, each once, and ends with the router saying "END" |
| MetadataRemover.Window | src/preprocessors/metadata_remover.py:34 | `text[:2000]`: the prefix of at most 2000 characters, all of a shorter text |
| MetadataRemover.EarliestOf | src/preprocessors/metadata_remover.py:37-46 | specification function for `first_start_pos`; its meaning is stated by `EarliestOfFound` |
| MetadataRemover.MetaMax | src/preprocessors/metadata_remover.py:49-66 | specification function for `last_metadata_pos`; its meaning is stated by `MetaMaxNone`, `MetaMaxIsLatest` and `MetaMaxOccurs` |
| MetadataRemover.CutAt | src/preprocessors/metadata_remover.py:68-93 | specification function for `final_slice_index` given the two positions: the marker if found, else the end of the first word at the metadata position (or one past it), else 0 |
| MetadataRemover.Cut | src/preprocessors/metadata_remover.py:33-93 | specification function: the cut `remove_book_metadata` makes; its meaning is stated by `CutBounds`, `CutAtEarliestMarker`, `CutAfterLastMetadataWord` and `CutNothing` |
| MetadataRemover.EarliestOfFound | src/preprocessors/metadata_remover.py:37-46 | the start-marker scan yields -1 exactly when no marker occurs; otherwise the least position where some marker occurs |
| MetadataRemover.MetaMaxNone | src/preprocessors/metadata_remover.py:49-66 | `last_metadata_pos` is -1 exactly when no short line of the window holds a metadata keyword |
| MetadataRemover.MetaMaxIsLatest | src/preprocessors/metadata_remover.py:53-66 | `last_metadata_pos` is at least every position a short line and a keyword on it contribute |
| MetadataRemover.MetaMaxOccurs | src/preprocessors/metadata_remover.py:58-66 | where `last_metadata_pos` is not -1, a metadata keyword occurs in the window at that position |
| MetadataRemover.MetaMaxInWindow | src/preprocessors/metadata_remover.py:60-62 | `last_metadata_pos` is -1 or an index into the window |
| MetadataRemover.MetaMaxStartsWord | src/preprocessors/metadata_remover.py:80-84 | a found `last_metadata_pos` holds a non-whitespace character, the start of a word |
| MetadataRemover.CutBounds | src/preprocessors/metadata_remover.py:69-93 | the cut lies inside the 2000-character window |
| MetadataRemover.CutAtEarliestMarker | src/preprocessors/metadata_remover.py:72-74 | with a chapter marker in the window, the cut is at the earliest occurrence of any marker |
| MetadataRemover.CutAfterLastMetadataWord | src/preprocessors/metadata_remover.py:77-85 | with no marker but with metadata, the cut falls right after the non-space run at the last metadata keyword; the `+ 1` fallback is never taken |
| MetadataRemover.CutNothing | src/preprocessors/metadata_remover.py:90-93 | with neither marker nor metadata, nothing is cut |
| MetadataRemover.FirstStartPos | src/preprocessors/metadata_remover.py:37-46 | the loop computes the earliest marker position, or -1 |
| MetadataRemover.LastMetadataPos | src/preprocessors/metadata_remover.py:49-66 | the nested loop computes the latest metadata-keyword position on a short line, or -1 |
| MetadataRemover.SliceAfterMetadata | src/preprocessors/metadata_remover.py:77-88 | the slice after the first word at the last metadata keyword lies inside the text |
| MetadataRemover.RemoveBookMetadata | src/preprocessors/metadata_remover.py:1-99 | the result is the text from the cut on; the cut is within the first 2000 characters |
| TextCleaners.RemoveUrls | src/preprocessors/text_cleaners.py:5 | deleting URL matches never lengthens the text |
| TextCleaners.RemoveUrlsAroundSpace | src/preprocessors/text_cleaners.py:5 | whitespace is kept and no match crosses it: the pass on `a + [c] + b`, for whitespace `c`, is the pass on `a`, then `c`, then the pass on `b` |
| TextCleaners.RemoveUrlsInWord | src/preprocessors/text_cleaners.py:5 | in a whitespace-free word, the pass keeps the word up to its first URL start and drops the rest (all of the word when there is none) |
| TextCleaners.NoUrlLeft | src/preprocessors/text_cleaners.py:5 | after the URL pass no URL match starts anywhere |
| TextCleaners.RemoveUrlsNoUrl | src/preprocessors/text_cleaners.py:5 | text without a URL match is left unchanged |
| TextCleaners.RemoveUrlsIdempotent | src/preprocessors/text_cleaners.py:5 | the URL pass is idempotent |
| TextCleaners.CollapseWhitespace | src/preprocessors/text_cleaners.py:7 | `re.sub(r'\s+', ' ')`: the only whitespace left is ' ', never two in a row; the result is empty only for an empty text, and starts and ends with whitespace exactly when the text does |
| TextCleaners.CollapseKeepsWords | src/preprocessors/text_cleaners.py:7 | collapsing keeps the words of `split()`, in order; with the row above this fixes the result to the words joined by single spaces, with one space at an end where the text had whitespace |
| TextCleaners.CollapseKeepsNonSpaces | src/preprocessors/text_cleaners.py:7 | collapsing keeps every non-whitespace character, in order |
| TextCleaners.RemoveHarakat | src/preprocessors/text_cleaners.py:11 | a character remains exactly when it was present and is not a diacritic |
| TextCleaners.RemoveHarakatAround | src/preprocessors/text_cleaners.py:11 | the pass works character by character: on `a + [c] + b` it is the pass on `a`, then `c` unless it is a diacritic, then the pass on `b`, so order and count of the kept characters are fixed |
| TextCleaners.KeepArabicOrSpace | src/preprocessors/text_cleaners.py:15 | a character remains exactly when it was present and is Arabic or whitespace |
| TextCleaners.KeepArabicOrSpaceAround | src/preprocessors/text_cleaners.py:15 | the same for this pass: `c` is kept exactly when it is Arabic or whitespace, and the text on each side is filtered on its own |
| TextCleaners.NormalizeChar | src/preprocessors/text_cleaners.py:18-19 | the three hamza/madda alef forms and alef maqsura never remain; every other character is unchanged; Arabic stays Arabic |
| TextCleaners.Normalize | src/preprocessors/text_cleaners.py:18-19 | the normalisation is character by character and keeps the length |
| TextCleaners.CleanText | src/preprocessors/text_cleaners.py:3-21 | specification function: `clean_text` as the composition of its passes, in source order; its result is described by `CleanTextResult` |
| TextCleaners.CleanTextResult | src/preprocessors/text_cleaners.py:3-21 | the cleaned text is no longer than the input, has no diacritic, holds only Arabic letters and ' ', and none of آ أ إ ى |
| TextCleanersExamples.EdgeSpaceSurvives | src/preprocessors/text_cleaners.py:7-15 | stripping before the deletions lets an edge space survive: "a م" cleans to " م" |

## Left out

- File and network I/O: reading the book, the SQLite connection and the
  language-model calls. The files are a map from path to contents, the
  table is the `rows` field, and each model call is an oracle parameter.
- The `cleaner` node (`src/graphs/nodes/regular_nodes.py:10-28`). It
  calls `clean_arabic_text_comprehensive`, which the cleaner module does
  not define. The module-level file read in
  `src/preprocessors/text_cleaners.py:23-26` is I/O.
- The text splitter `TextChunker` (chunk sizes 5000 and 1000, overlap
  200). It is a function parameter `split`. `src/preprocessors/text_splitters.py`
  is not part of this model.
- `first_chunk_node` (`src/graphs/nodes.py:34-48`) is one oracle call. The
  legacy graph's wiring file is not part of this model. `DrainChunks`
  models the router-driven loop of its other two nodes.
- `src/preprocessors/text_checkers.py` (the language checker) is not part
  of this model. `RouterFromArabicChecker` takes its verdict as a boolean.
- `Database.Matches`: SQL `LIKE` is read as a case-sensitive substring
  test. SQLite's `LIKE` folds ASCII case, and `%` and `_` in the query act
  as wildcards. Neither is modelled.
- `Database.FreshId`: `uuid4` is a non-empty string longer than every
  stored id. Its randomness and format are not modelled.
- The profile document is fixed to the nine fields the pipeline writes.
  The store accepts any JSON dictionary.
- `Database.CharacterDatabase.constructor`: table creation and the
  indexes are not modelled. Opening the store keeps the given rows.
- `LegacyNodes.OtherChunkNode`: the model receives the previous profile
  itself, where the source passes `str(last_profile)`.
- GraphBuilders.Run: LangGraph's step limit is not modelled. No file in
  the repository invokes this graph; an invocation that passes no
  `recursion_limit` gets LangGraph's default of 25 steps. Each chunk costs two to four steps, so a
  run over more than a handful of chunks stops with
  `GraphRecursionError` before it reaches `END`. `Run` has no step
  bound. Its "n + 1 chunk updates, then END" holds only for a caller
  that raises the limit far enough.
- Concurrency: the store's connection-per-call behaviour under concurrent
  writers is not modelled.
