/**
  The pipeline's wiring (src/graphs/graph_builders.py) as a next-node
  function, and a run of the compiled graph as a loop that executes the
  current node and then follows the table.

  The wiring imports `name_querier` and two routers under names the node
  files do not define. Here `name_querier` is `first_name_querier`, and
  the routers are the two shown ones with their labels renamed to the
  wiring's path-map keys: "first_name_querier" becomes `name_querier`,
  and "summarizer" becomes `profile_retriever_creator`. The summarizer and
  the second name querier are not wired, so a run never changes
  `last_summary`.
 */
module GraphBuilders {
  import opened Wrappers
  import opened Schemas
  import opened Database
  import opened ChunkStreams
  import RN = RegularNodes
  import RouterNodes

  datatype Node = Chunker | ChunkUpdater | NameQuerier | ProfileRetrieverCreator | ProfileRefresher | End

  /** The node the graph runs after `n`, given the state `n` produced. */
  function Next(n: Node, s: RN.State): (m: Node)
    requires n != End
    ensures m != Chunker
    ensures m == End <==> n == ChunkUpdater && s.noMoreChunks
    ensures n == Chunker ==> m == ChunkUpdater
    ensures n == ChunkUpdater ==> m in {NameQuerier, End}
    ensures n == NameQuerier ==> m in {ProfileRetrieverCreator, ChunkUpdater}
    ensures n == NameQuerier ==>
      (m == ProfileRetrieverCreator <==>
         s.lastAppearingCharacters.Some? && |s.lastAppearingCharacters.value| > 0)
    ensures n == ProfileRetrieverCreator ==> m == ProfileRefresher
    ensures n == ProfileRefresher ==> m == ChunkUpdater
  {
    match n
    case Chunker => ChunkUpdater
    case ChunkUpdater =>
      if RouterNodes.RouterToFirstNameQuerierOrEnd(s) == "END" then End else NameQuerier
    case NameQuerier =>
      if RouterNodes.RouterToSummarizerOrChunkUpdater(s) == "summarizer"
      then ProfileRetrieverCreator
      else ChunkUpdater
    case ProfileRetrieverCreator => ProfileRefresher
    case ProfileRefresher => ChunkUpdater
  }

  /** How far a node is from the next chunk update. */
  function Rank(n: Node): nat {
    match n
    case Chunker => 5
    case NameQuerier => 4
    case ProfileRetrieverCreator => 3
    case ProfileRefresher => 2
    case ChunkUpdater => 1
    case End => 0
  }

  /** Every record `rows` held is still there with the same name and
      hint. */
  ghost predicate Grown(before: map<string, Row>, rows: map<string, Row>) {
    forall id :: id in before ==>
      id in rows && rows[id].name == before[id].name
      && rows[id].disambiguationHint == before[id].disambiguationHint
  }

  /** The merge oracle only hands back ids it was given. */
  ghost predicate KeepsIdsOracle(merge: (string, Option<seq<Profile>>) -> seq<ProfileData>) {
    forall t, ps :: RN.KeepsIds(merge(t, Some(ps)), ps)
  }

  /** What the store looks like when the merge oracle keeps ids: the records
      it held are untouched, every other record is a skeleton, and no record
      has the id "". */
  ghost predicate OnlySkeletonsAdded(before: map<string, Row>, rows: map<string, Row>) {
    && "" !in rows
    && (forall id :: id in before ==> id in rows && rows[id] == before[id])
    && (forall id :: id in rows && id !in before ==> RN.IsSkeleton(rows[id]))
  }

  /** The resolver keeps every record and only adds skeletons. */
  lemma ResolverGrowth(before: map<string, Row>, rows: map<string, Row>,
                       ids: seq<string>, ms: seq<Character>)
    requires |ids| == |ms| && RN.FreshIds(rows, ids)
    requires forall k :: 0 <= k < |ids| ==> ids[k] != ""
    ensures Grown(before, rows) ==> Grown(before, RN.AddRows(rows, ids, ms))
    ensures OnlySkeletonsAdded(before, rows) ==> OnlySkeletonsAdded(before, RN.AddRows(rows, ids, ms))
  {
    RN.AddRowsAt(rows, ids, ms);
    var after := RN.AddRows(rows, ids, ms);
    forall id | id in after && id !in rows ensures RN.IsSkeleton(after[id]) {
      var k :| 0 <= k < |ids| && ids[k] == id;
    }
  }

  /** The refresher keeps every record's name and hint. */
  lemma RefresherGrowth(before: map<string, Row>, rows: map<string, Row>, out: seq<ProfileData>)
    ensures Grown(before, rows) ==> Grown(before, RN.UpdateAll(rows, out))
  {
    RN.UpdateAllAt(rows, out);
    var after := RN.UpdateAll(rows, out);
    forall id | id in rows
      ensures after[id].name == rows[id].name
      ensures after[id].disambiguationHint == rows[id].disambiguationHint
    {
      match RN.LastWith(out, id)
      case None =>
      case Some(doc) =>
    }
  }

  /** The state's current and previous chunks are the last two of the
      first `pos` chunks, "" where there are fewer. */
  ghost predicate AtChunk(s: RN.State, chunks: seq<string>, pos: nat) {
    && pos <= |chunks|
    && s.currentChunk == (if pos == 0 then "" else chunks[pos - 1])
    && s.previousChunk == (if pos < 2 then "" else chunks[pos - 2])
  }

  /** What holds each time a run of the graph is about to execute `node`
      on `s`, after `pos` chunks and `updates` visits to `chunk_updater`,
      with the store at `rows` (it was `rows0` when the run began). The
      refresher is always reached with the skeletons of `mentions`. */
  ghost predicate RunInv(node: Node, s: RN.State, pos: nat, chunks: seq<string>, updates: nat,
                         mentions: seq<Character>, rows0: map<string, Row>, rows: map<string, Row>, keeps: bool)
  {
    && node != Chunker
    && (s.noMoreChunks <==> node == End)
    && (node == End ==> pos == |chunks|)
    && updates == pos + (if node == End then 1 else 0)
    && s.lastSummary == ""
    && AtChunk(s, chunks, pos)
    && (node == ProfileRetrieverCreator ==> s.lastAppearingCharacters.Some?)
    && (node == ProfileRefresher ==> s.lastProfiles == Some(RN.Skeletons(mentions)))
    && Grown(rows0, rows)
    && (keeps ==> OnlySkeletonsAdded(rows0, rows))
  }

  /** `chunk_updater` inside a run, and the edge after it. */
  method UpdaterStep(stream: ChunkStream, s: RN.State, ghost updates: nat, ghost mentions: seq<Character>,
                     ghost rows0: map<string, Row>, ghost rows: map<string, Row>, ghost keeps: bool)
    returns (t: RN.State, next: Node, ghost updates': nat)
    requires stream.Valid()
    requires RunInv(ChunkUpdater, s, stream.pos, stream.chunks, updates, mentions, rows0, rows, keeps)
    modifies stream
    ensures stream.Valid()
    ensures RunInv(next, t, stream.pos, stream.chunks, updates', mentions, rows0, rows, keeps)
    ensures stream.pos > old(stream.pos) || (stream.pos == old(stream.pos) && next == End)
  {
    t := RN.ChunkUpdater(stream, s);
    updates' := updates + 1;
    next := Next(ChunkUpdater, t);
  }

  /** `name_querier` inside a run, and the edge after it. */
  method QuerierStep(s: RN.State, detect: string -> RN.NameQueryResponse, ghost pos: nat, ghost chunks: seq<string>,
                     ghost updates: nat, ghost mentions: seq<Character>,
                     ghost rows0: map<string, Row>, ghost rows: map<string, Row>, ghost keeps: bool)
    returns (t: RN.State, next: Node)
    requires RunInv(NameQuerier, s, pos, chunks, updates, mentions, rows0, rows, keeps)
    ensures RunInv(next, t, pos, chunks, updates, mentions, rows0, rows, keeps)
    ensures Rank(next) < Rank(NameQuerier)
  {
    t := RN.FirstNameQuerier(s, detect);
    next := Next(NameQuerier, t);
  }

  /** `profile_retriever_creator` inside a run, and the edge after it: the
      store keeps growing as `Run` promises. */
  method ResolveStep(db: CharacterDatabase, s: RN.State, ghost pos: nat, ghost chunks: seq<string>, ghost updates: nat,
                     ghost rows0: map<string, Row>, ghost keeps: bool)
    returns (res: Result<RN.State, RN.NodeError>, next: Node, ghost mentions: seq<Character>)
    requires RunInv(ProfileRetrieverCreator, s, pos, chunks, updates, [], rows0, db.rows, keeps)
    modifies db
    ensures Grown(rows0, db.rows) && (keeps ==> OnlySkeletonsAdded(rows0, db.rows))
    ensures res.Failure? ==> res.error == RN.MissingKey("id")
    ensures res.Success? ==> RunInv(next, res.value, pos, chunks, updates, mentions, rows0, db.rows, keeps)
    ensures res.Success? ==> Rank(next) < Rank(ProfileRetrieverCreator)
  {
    ghost var before := db.rows;
    ghost var inserted;
    res, inserted := RN.ProfileRetrieverCreator(db, s);
    ResolverGrowth(rows0, before, inserted, s.lastAppearingCharacters.value[..|inserted|]);
    mentions := s.lastAppearingCharacters.value;
    next := ProfileRefresher;
    if res.Success? {
      next := Next(ProfileRetrieverCreator, res.value);
    }
  }

  /** `profile_refresher` inside a run, and the edge after it: the store
      keeps growing as `Run` promises, and an id-keeping merge oracle
      leaves it as it was. */
  method RefreshStep(db: CharacterDatabase, s: RN.State,
                     merge: (string, Option<seq<Profile>>) -> seq<ProfileData>,
                     ghost pos: nat, ghost chunks: seq<string>, ghost updates: nat, ghost mentions: seq<Character>,
                     ghost rows0: map<string, Row>, ghost keeps: bool)
    returns (t: RN.State, next: Node)
    requires keeps ==> KeepsIdsOracle(merge)
    requires RunInv(ProfileRefresher, s, pos, chunks, updates, mentions, rows0, db.rows, keeps)
    modifies db
    ensures RunInv(next, t, pos, chunks, updates, mentions, rows0, db.rows, keeps)
    ensures Rank(next) < Rank(ProfileRefresher)
  {
    ghost var before := db.rows;
    ghost var out := merge(s.lastSummary, s.lastProfiles);
    t := RN.ProfileRefresher(db, s, merge);
    RefresherGrowth(rows0, before, out);
    if keeps {
      RN.SkeletonsNeverRefreshed(before, mentions, out);
    }
    next := Next(ProfileRefresher, t);
  }

  /** A run of the compiled graph on `cleaned_text`, starting from the
      initial state, with `split` for the text splitter, `detect` for the
      name query and `merge` for the profile update. `updates` counts the
      visits to `chunk_updater`.

      Empty text fails in the chunker and leaves the store alone. A run
      that succeeds visits `chunk_updater` once per chunk and once more,
      ends with the last two chunks as current and previous, and never
      writes a summary. Either way the store keeps every record's name and
      hint; and if the merge oracle only returns ids it was given, no
      record the store held changes and every record the run adds keeps
      its skeleton document. */
  method Run(db: CharacterDatabase, cleanedText: string,
             split: string -> seq<string>,
             detect: string -> RN.NameQueryResponse,
             merge: (string, Option<seq<Profile>>) -> seq<ProfileData>)
    returns (r: Result<RN.State, RN.NodeError>, ghost updates: nat)
    modifies db
    ensures cleanedText == "" ==> r == Failure(RN.NoCleanedText) && db.rows == old(db.rows)
    ensures r.Failure? && cleanedText != "" ==> r.error == RN.MissingKey("id")
    ensures r.Success? ==>
      var chunks := split(cleanedText);
      var n := |chunks|;
      && updates == n + 1
      && r.value.noMoreChunks
      && r.value.lastSummary == ""
      && r.value.currentChunk == (if n == 0 then "" else chunks[n - 1])
      && r.value.previousChunk == (if n < 2 then "" else chunks[n - 2])
    ensures Grown(old(db.rows), db.rows)
    ensures KeepsIdsOracle(merge) && "" !in old(db.rows) ==> OnlySkeletonsAdded(old(db.rows), db.rows)
  {
    updates := 0;
    var s := RN.InitialState.(cleanedText := cleanedText);
    var started := RN.Chunker(s, split);
    if started.Failure? {
      return Failure(started.error), updates;
    }
    var stream := started.value;
    ghost var chunks := stream.chunks;
    ghost var rows0 := db.rows;
    ghost var keeps := KeepsIdsOracle(merge) && "" !in rows0;
    ghost var mentions: seq<Character> := [];
    var node := Next(Chunker, s);
    while node != End
      invariant stream.Valid() && stream.chunks == chunks == split(cleanedText)
      invariant RunInv(node, s, stream.pos, chunks, updates, mentions, rows0, db.rows, keeps)
      decreases |chunks| - stream.pos, Rank(node)
    {
      if node == ChunkUpdater {
        s, node, updates := UpdaterStep(stream, s, updates, mentions, rows0, db.rows, keeps);
      } else if node == NameQuerier {
        s, node := QuerierStep(s, detect, stream.pos, chunks, updates, mentions, rows0, db.rows, keeps);
      } else if node == ProfileRetrieverCreator {
        var res;
        res, node, mentions := ResolveStep(db, s, stream.pos, chunks, updates, rows0, keeps);
        if res.Failure? {
          return Failure(res.error), updates;
        }
        s := res.value;
      } else {
        s, node := RefreshStep(db, s, merge, stream.pos, chunks, updates, mentions, rows0, keeps);
      }
    }
    r := Success(s);
  }
}
