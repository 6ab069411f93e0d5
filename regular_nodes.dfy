/**
  The node functions of the character-profile pipeline
  (src/graphs/nodes/regular_nodes.py). A node reads the state and returns
  the fields it changes; here it returns the whole new state. The language
  model calls are oracle parameters: `detect` (name query), `summarize`
  and `merge` (profile update). The store is an explicit
  `CharacterDatabase` and the chunk generator an explicit `ChunkStream`.
 */
module RegularNodes {
  import opened Wrappers
  import opened Schemas
  import opened Database
  import opened ChunkStreams

  /** The fields of `State` (src/schemas/states.py:6-16) the nodes use.
      `chunk_generator` and `database` are the `ChunkStream` and the
      `CharacterDatabase` passed beside it; `file_path` belongs to the
      file-reading `cleaner` node, which is not modelled. */
  datatype State = State(
    cleanedText: string,
    currentChunk: string,
    previousChunk: string,
    lastProfiles: Option<seq<Profile>>,
    lastAppearingCharacters: Option<seq<Character>>,
    noMoreChunks: bool,
    lastSummary: string)

  /** `initial_state` (src/schemas/states.py:18-29), without the file path,
      generator and database. */
  const InitialState := State("", "", "", None, None, false, "")

  /** The exceptions a node raises. */
  datatype NodeError =
    | NoCleanedText         // chunker: ValueError
    | MissingKey(key: string) // a dictionary lookup: KeyError
    | NotIterable           // `for x in None`: TypeError

  /** The name-query model's structured output; `characters` is `None`
      when the response has no such attribute. */
  datatype NameQueryResponse = NameQueryResponse(characters: Option<seq<Character>>)

  /** `response.characters if hasattr(response, 'characters') else []`. */
  function Mentions(response: NameQueryResponse): seq<Character> {
    if response.characters.Some? then response.characters.value else []
  }

  /** `chunker`: rejects an empty text, otherwise starts a fresh stream
      over the splitter's chunks. */
  method Chunker(s: State, split: string -> seq<string>) returns (r: Result<ChunkStream, NodeError>)
    ensures s.cleanedText == "" ==> r == Failure(NoCleanedText)
    ensures s.cleanedText != "" ==>
      r.Success? && fresh(r.value) && r.value.Valid()
      && r.value.chunks == split(s.cleanedText) && r.value.pos == 0
  {
    if s.cleanedText == "" {
      return Failure(NoCleanedText);
    }
    var stream := new ChunkStream(split(s.cleanedText));
    r := Success(stream);
  }

  /** `p[2 * (len(p) // 3):]`: a suffix of `p` holding at least a third of
      it and at most two characters more. */
  function TrailingThird(p: string): (t: string)
    ensures |t| <= |p| && t == p[|p| - |t|..]
    ensures |p| / 3 <= |t| <= |p| / 3 + 2
  {
    p[2 * (|p| / 3)..]
  }

  /** The rolling context: the trailing third of `p`, a space, then all of
      `current`. */
  function RollingContext(p: string, current: string): (c: string)
    ensures |c| >= |current| + 1
    ensures c[|c| - |current|..] == current
    ensures c[|c| - |current| - 1] == ' '
    ensures var k := |c| - |current| - 1;
      |p| / 3 <= k <= |p| / 3 + 2 && k <= |p| && c[..k] == p[|p| - k..]
  {
    var t := TrailingThird(p);
    assert (t + " " + current)[..|t|] == t;
    t + " " + current
  }

  /** `first_name_querier`: asks the detector about the rolling context of
      the previous and current chunks and records its mentions (none when
      the response has no `characters`). Nothing else changes. */
  function FirstNameQuerier(s: State, detect: string -> NameQueryResponse): (r: State)
    ensures r == s.(lastAppearingCharacters := r.lastAppearingCharacters)
    ensures r.lastAppearingCharacters == Some(Mentions(detect(RollingContext(s.previousChunk, s.currentChunk))))
  {
    s.(lastAppearingCharacters := Some(Mentions(detect(RollingContext(s.previousChunk, s.currentChunk)))))
  }

  /** `second_name_querier`: the same, over the whole last summary. */
  function SecondNameQuerier(s: State, detect: string -> NameQueryResponse): (r: State)
    ensures r == s.(lastAppearingCharacters := r.lastAppearingCharacters)
    ensures r.lastAppearingCharacters == Some(Mentions(detect(s.lastSummary)))
  {
    s.(lastAppearingCharacters := Some(Mentions(detect(s.lastSummary))))
  }

  /** `summarizer`: the summary oracle sees the trailing third of the last
      summary, the current chunk and the mention list; its answer replaces
      the last summary. Nothing else changes. */
  function Summarizer(s: State, summarize: (string, Option<seq<Character>>) -> string): (r: State)
    ensures r == s.(lastSummary := r.lastSummary)
    ensures r.lastSummary == summarize(RollingContext(s.lastSummary, s.currentChunk), s.lastAppearingCharacters)
  {
    s.(lastSummary := summarize(RollingContext(s.lastSummary, s.currentChunk), s.lastAppearingCharacters))
  }

  /** `chunk_updater`: pulls the next chunk. On a chunk the current chunk
      becomes the previous one; on `StopIteration` only `no_more_chunks`
      is set. */
  method ChunkUpdater(stream: ChunkStream, s: State) returns (r: State)
    requires stream.Valid()
    modifies stream
    ensures stream.Valid()
    ensures old(stream.pos) < |stream.chunks| ==>
      stream.pos == old(stream.pos) + 1
      && r == s.(previousChunk := s.currentChunk,
                 currentChunk := stream.chunks[old(stream.pos)],
                 noMoreChunks := false)
    ensures old(stream.pos) == |stream.chunks| ==>
      stream.pos == old(stream.pos) && r == s.(noMoreChunks := true)
  {
    var next := stream.Next();
    match next
    case Some(chunk) =>
      r := s.(previousChunk := s.currentChunk, currentChunk := chunk, noMoreChunks := false);
    case None =>
      r := s.(noMoreChunks := true);
  }

  // ---------------------------------------------------------------------
  // profile_retriever_creator

  /** The document inserted for a mention without a stored record. */
  function SkeletonDoc(m: Character): ProfileDoc {
    ProfileDoc(m.name, m.hint, "", "", [], "", [], [], [])
  }

  /** The row that insert makes of it: no `disambiguation_hint` is passed. */
  function SkeletonRow(m: Character): Row {
    Row(m.name, None, SkeletonDoc(m))
  }

  /** The working profile for a new mention; its id is "" and the id the
      store generated is dropped. */
  function SkeletonProfile(m: Character): Profile {
    Profile(m.name, m.hint, "", "", [], "", [], [], [], "")
  }

  function Skeletons(ms: seq<Character>): (ps: seq<Profile>)
    ensures |ps| == |ms|
    ensures forall i :: 0 <= i < |ms| ==> ps[i] == SkeletonProfile(ms[i])
  {
    seq(|ms|, i requires 0 <= i < |ms| => SkeletonProfile(ms[i]))
  }

  /** A document exactly as the resolver writes it for a row named `name`. */
  predicate IsSkeleton(row: Row) {
    row.disambiguationHint.None? && row.profile.name == row.name
    && row.profile.age == "" && row.profile.role == ""
    && row.profile.physicalCharacteristics == [] && row.profile.personality == ""
    && row.profile.events == [] && row.profile.relationships == [] && row.profile.aliases == []
  }

  /** Mention `i` finds stored records by name: its name was stored before
      the node ran, or an earlier mention with the same name was inserted
      by this node. */
  ghost predicate Conflicts(rows: map<string, Row>, ms: seq<Character>, i: int)
    requires 0 <= i < |ms|
  {
    NamedIds(rows, ms[i].name) != {} || exists j :: 0 <= j < i && ms[j].name == ms[i].name
  }

  /** Ids that are pairwise distinct and absent from `rows`. */
  ghost predicate FreshIds(rows: map<string, Row>, ids: seq<string>) {
    (forall k :: 0 <= k < |ids| ==> ids[k] !in rows)
    && (forall a, b :: 0 <= a < b < |ids| ==> ids[a] != ids[b])
  }

  /** `rows` after inserting `SkeletonRow(ms[k])` under `ids[k]`, in order. */
  function AddRows(rows: map<string, Row>, ids: seq<string>, ms: seq<Character>): map<string, Row>
    requires |ids| == |ms|
    decreases |ids|
  {
    if |ids| == 0 then rows
    else AddRows(rows, ids[..|ids| - 1], ms[..|ms| - 1])[ids[|ids| - 1] := SkeletonRow(ms[|ms| - 1])]
  }

  /** The store holds exactly the old ids and the inserted ones. */
  lemma {:induction false} AddRowsKeys(rows: map<string, Row>, ids: seq<string>, ms: seq<Character>)
    requires |ids| == |ms|
    ensures forall id :: id in AddRows(rows, ids, ms) <==> id in rows || id in ids
    decreases |ids|
  {
    if |ids| > 0 {
      var n := |ids| - 1;
      AddRowsKeys(rows, ids[..n], ms[..n]);
      assert ids == ids[..n] + [ids[n]];
    }
  }

  /** The old rows stay as they were. */
  lemma {:induction false} AddRowsKeeps(rows: map<string, Row>, ids: seq<string>, ms: seq<Character>)
    requires |ids| == |ms| && forall k :: 0 <= k < |ids| ==> ids[k] !in rows
    ensures forall id :: id in rows ==> id in AddRows(rows, ids, ms) && AddRows(rows, ids, ms)[id] == rows[id]
    decreases |ids|
  {
    AddRowsKeys(rows, ids, ms);
    if |ids| > 0 {
      var n := |ids| - 1;
      AddRowsKeeps(rows, ids[..n], ms[..n]);
    }
  }

  /** Each inserted id holds its mention's skeleton. */
  lemma {:induction false} AddRowsNew(rows: map<string, Row>, ids: seq<string>, ms: seq<Character>)
    requires |ids| == |ms| && forall a, b :: 0 <= a < b < |ids| ==> ids[a] != ids[b]
    ensures forall k :: 0 <= k < |ids| ==>
      ids[k] in AddRows(rows, ids, ms) && AddRows(rows, ids, ms)[ids[k]] == SkeletonRow(ms[k])
    decreases |ids|
  {
    AddRowsKeys(rows, ids, ms);
    if |ids| > 0 {
      var n := |ids| - 1;
      var pre, mpre := ids[..n], ms[..n];
      AddRowsNew(rows, pre, mpre);
      var a := AddRows(rows, ids, ms);
      forall k | 0 <= k < n ensures ids[k] in a && a[ids[k]] == SkeletonRow(ms[k]) {
        assert pre[k] == ids[k] && mpre[k] == ms[k] && ids[k] != ids[n];
      }
    }
  }

  /** The inserted rows are the skeletons under their ids and the old rows
      stay as they were. */
  lemma AddRowsAt(rows: map<string, Row>, ids: seq<string>, ms: seq<Character>)
    requires |ids| == |ms| && FreshIds(rows, ids)
    ensures forall id :: id in AddRows(rows, ids, ms) <==> id in rows || id in ids
    ensures forall id :: id in rows ==> AddRows(rows, ids, ms)[id] == rows[id]
    ensures forall k :: 0 <= k < |ids| ==> AddRows(rows, ids, ms)[ids[k]] == SkeletonRow(ms[k])
  {
    AddRowsKeys(rows, ids, ms);
    AddRowsKeeps(rows, ids, ms);
    AddRowsNew(rows, ids, ms);
  }

  /** A name is stored after the insertions exactly when it was stored
      before or some inserted mention has it. */
  lemma AddRowsNames(rows: map<string, Row>, ids: seq<string>, ms: seq<Character>, name: string)
    requires |ids| == |ms| && FreshIds(rows, ids)
    ensures NamedIds(AddRows(rows, ids, ms), name) != {}
      <==> (NamedIds(rows, name) != {} || exists j :: 0 <= j < |ms| && ms[j].name == name)
  {
    var cur := AddRows(rows, ids, ms);
    AddRowsAt(rows, ids, ms);
    if NamedIds(cur, name) != {} {
      var id :| id in NamedIds(cur, name);
      if id !in rows {
        var k :| 0 <= k < |ids| && ids[k] == id;
        assert ms[k].name == name;
      } else {
        assert id in NamedIds(rows, name);
      }
    }
    if NamedIds(rows, name) != {} {
      var id :| id in NamedIds(rows, name);
      assert id in NamedIds(cur, name);
    } else if exists j :: 0 <= j < |ms| && ms[j].name == name {
      var j :| 0 <= j < |ms| && ms[j].name == name;
      assert ids[j] in NamedIds(cur, name);
    }
  }

  /** One more insertion under an id the store does not hold. */
  lemma AddRowsSnoc(rows: map<string, Row>, ids: seq<string>, ms: seq<Character>, id: string, m: Character)
    requires |ids| == |ms| && FreshIds(rows, ids) && id !in AddRows(rows, ids, ms)
    ensures FreshIds(rows, ids + [id])
    ensures AddRows(rows, ids + [id], ms + [m]) == AddRows(rows, ids, ms)[id := SkeletonRow(m)]
  {
    AddRowsAt(rows, ids, ms);
    assert (ids + [id])[..|ids|] == ids && (ms + [m])[..|ms|] == ms;
    forall k | 0 <= k < |ids| ensures ids[k] != id {
      assert ids[k] in ids;
    }
  }

  /** While the resolver has inserted the first `i` mentions, the store
      knows mention `i`'s name exactly when that mention conflicts. */
  lemma ConflictsInStore(rows: map<string, Row>, inserted: seq<string>, ms: seq<Character>, i: nat)
    requires i < |ms| && |inserted| == i && FreshIds(rows, inserted)
    ensures NamedIds(AddRows(rows, inserted, ms[..i]), ms[i].name) != {} <==> Conflicts(rows, ms, i)
  {
    AddRowsNames(rows, inserted, ms[..i], ms[i].name);
    assert (exists j :: 0 <= j < i && ms[..i][j].name == ms[i].name)
       <==> (exists j :: 0 <= j < i && ms[j].name == ms[i].name);
  }

  /** One more mention without a conflict. */
  lemma NoConflictsUpTo(rows: map<string, Row>, ms: seq<Character>, i: nat)
    requires i < |ms| && !Conflicts(rows, ms, i)
    requires forall k :: 0 <= k < i ==> !Conflicts(rows, ms, k)
    ensures forall k :: 0 <= k < i + 1 ==> !Conflicts(rows, ms, k)
  {
  }

  /** The loop of `profile_retriever_creator` over the mentions, in order.
      Each name is looked up in the store. A name with stored records makes
      the node fail (`None` here) when the working profile is built, because
      the store's records carry `character_id`, not `id`; this includes a
      name inserted earlier in the same loop. A new name gets a skeleton row
      (no hint column, id discarded) and a skeleton working profile with id
      "". The ghost `inserted` lists the ids created, in order; rows
      inserted before a failure stay. */
  method RetrieveOrCreate(db: CharacterDatabase, ms: seq<Character>)
    returns (profiles: Option<seq<Profile>>, ghost inserted: seq<string>)
    modifies db
    ensures |inserted| <= |ms|
    ensures FreshIds(old(db.rows), inserted)
    ensures forall k :: 0 <= k < |inserted| ==> inserted[k] != ""
    ensures db.rows == AddRows(old(db.rows), inserted, ms[..|inserted|])
    ensures forall i :: 0 <= i < |inserted| ==> !Conflicts(old(db.rows), ms, i)
    ensures profiles.Some? <==> (forall i :: 0 <= i < |ms| ==> !Conflicts(old(db.rows), ms, i))
    ensures profiles.Some? ==> |inserted| == |ms| && profiles.value == Skeletons(ms)
    ensures profiles.None? ==> |inserted| < |ms| && Conflicts(old(db.rows), ms, |inserted|)
  {
    inserted := [];
    ghost var rows0 := db.rows;
    var created: seq<Profile> := [];
    var i := 0;
    while i < |ms|
      invariant 0 <= i <= |ms| && |inserted| == i
      invariant FreshIds(rows0, inserted)
      invariant forall k :: 0 <= k < i ==> inserted[k] != ""
      invariant db.rows == AddRows(rows0, inserted, ms[..i])
      invariant forall k :: 0 <= k < i ==> !Conflicts(rows0, ms, k)
      invariant created == Skeletons(ms[..i])
    {
      var name := ms[i].name;
      var existing := db.FindCharactersByName(name);
      ConflictsInStore(rows0, inserted, ms, i);
      RecordsEmpty(db.rows, NamedIds(db.rows, name));
      if |existing| > 0 {
        assert existing[0] in multiset(existing);
        // Building `Profile(..., id=char['id'])` for the first record raises.
        return None, inserted;
      }
      assert multiset(existing) == multiset{};
      assert NamedIds(db.rows, name) == {};
      NoConflictsUpTo(rows0, ms, i);
      var id := db.InsertCharacter(name, SkeletonDoc(ms[i]), None);
      AddRowsSnoc(rows0, inserted, ms[..i], id, ms[i]);
      assert ms[..i] + [ms[i]] == ms[..i + 1];
      inserted := inserted + [id];
      created := created + [SkeletonProfile(ms[i])];
      i := i + 1;
    }
    assert ms[..|ms|] == ms;
    profiles := Some(created);
  }

  /** `profile_retriever_creator`: iterating a missing mention list raises
      `TypeError`; a mention whose name the store already knows raises
      `KeyError('id')`; otherwise the working profiles become the
      mentions' skeletons. */
  method ProfileRetrieverCreator(db: CharacterDatabase, s: State)
    returns (r: Result<State, NodeError>, ghost inserted: seq<string>)
    modifies db
    ensures s.lastAppearingCharacters.None? ==>
      r == Failure(NotIterable) && inserted == [] && db.rows == old(db.rows)
    ensures s.lastAppearingCharacters.Some? ==>
      var ms := s.lastAppearingCharacters.value;
      && |inserted| <= |ms|
      && FreshIds(old(db.rows), inserted)
      && (forall k :: 0 <= k < |inserted| ==> inserted[k] != "")
      && db.rows == AddRows(old(db.rows), inserted, ms[..|inserted|])
      && (r.Success? <==> (forall i :: 0 <= i < |ms| ==> !Conflicts(old(db.rows), ms, i)))
      && (r.Success? ==> |inserted| == |ms| && r.value == s.(lastProfiles := Some(Skeletons(ms))))
      && (r.Failure? ==>
            |inserted| < |ms| && Conflicts(old(db.rows), ms, |inserted|) && r.error == MissingKey("id"))
  {
    if s.lastAppearingCharacters.None? {
      return Failure(NotIterable), [];
    }
    var profiles;
    profiles, inserted := RetrieveOrCreate(db, s.lastAppearingCharacters.value);
    if profiles.None? {
      r := Failure(MissingKey("id"));
    } else {
      r := Success(s.(lastProfiles := profiles));
    }
  }

  // ---------------------------------------------------------------------
  // profile_refresher

  /** The working profile built from one oracle profile. */
  function ToProfile(d: ProfileData): Profile {
    Profile(d.name, d.hint, d.age, d.role, d.physicalCharacteristics, d.personality,
            d.events, d.relations, d.aliases, d.id)
  }

  /** The dictionary written to the store: all nine fields, `relations`
      stored as `relationships`, no id. */
  function ToDoc(d: ProfileData): ProfileDoc {
    ProfileDoc(d.name, d.hint, d.age, d.role, d.physicalCharacteristics, d.personality,
               d.events, d.relations, d.aliases)
  }

  /** `rows` after one `update_character(d.id, ToDoc(d))` per oracle
      profile, in order. */
  function UpdateAll(rows: map<string, Row>, ds: seq<ProfileData>): map<string, Row>
    decreases |ds|
  {
    if |ds| == 0 then rows
    else Updated(UpdateAll(rows, ds[..|ds| - 1]), ds[|ds| - 1].id, ToDoc(ds[|ds| - 1]))
  }

  /** The document of the last oracle profile carrying `id`, if any. */
  function LastWith(ds: seq<ProfileData>, id: string): Option<ProfileDoc>
    decreases |ds|
  {
    if |ds| == 0 then None
    else if ds[|ds| - 1].id == id then Some(ToDoc(ds[|ds| - 1]))
    else LastWith(ds[..|ds| - 1], id)
  }

  /** What the refresher leaves in each row: the same ids, names and hints;
      a row whose id some oracle profile carries holds the document of the
      last such profile; every other row is untouched. */
  lemma {:induction false} UpdateAllAt(rows: map<string, Row>, ds: seq<ProfileData>)
    ensures UpdateAll(rows, ds).Keys == rows.Keys
    ensures forall id :: id in rows ==>
      UpdateAll(rows, ds)[id] == (match LastWith(ds, id)
                                  case None => rows[id]
                                  case Some(doc) => rows[id].(profile := doc))
    decreases |ds|
  {
    if |ds| > 0 {
      UpdateAllAt(rows, ds[..|ds| - 1]);
    }
  }

  /** Committing the same oracle output twice leaves the store as
      committing it once. */
  lemma UpdateAllIdempotent(rows: map<string, Row>, ds: seq<ProfileData>)
    ensures UpdateAll(UpdateAll(rows, ds), ds) == UpdateAll(rows, ds)
  {
    var once := UpdateAll(rows, ds);
    UpdateAllAt(rows, ds);
    UpdateAllAt(once, ds);
    var twice := UpdateAll(once, ds);
    forall id | id in rows ensures twice[id] == once[id] {
      match LastWith(ds, id)
      case None =>
      case Some(doc) =>
    }
  }

  /** An oracle profile whose id is not in the store changes nothing:
      `update_character` returns False and the result is ignored. */
  lemma UpdateAllUnknownIds(rows: map<string, Row>, ds: seq<ProfileData>)
    requires forall k :: 0 <= k < |ds| ==> ds[k].id !in rows
    ensures UpdateAll(rows, ds) == rows
  {
    UpdateAllAt(rows, ds);
    forall id | id in rows ensures LastWith(ds, id).None? {
      LastWithNone(ds, id);
    }
  }

  lemma {:induction false} LastWithNone(ds: seq<ProfileData>, id: string)
    requires forall k :: 0 <= k < |ds| ==> ds[k].id != id
    ensures LastWith(ds, id).None?
    decreases |ds|
  {
    if |ds| > 0 {
      LastWithNone(ds[..|ds| - 1], id);
    }
  }

  /** Every id in `out` is the id of some profile in `given`: the merge
      oracle only refines the profiles it was handed. */
  ghost predicate KeepsIds(out: seq<ProfileData>, given: seq<Profile>) {
    forall k :: 0 <= k < |out| ==> exists j :: 0 <= j < |given| && out[k].id == given[j].id
  }

  /** The profiles the resolver creates carry id "", which the store never
      holds; so an oracle that keeps their ids refreshes no row at all. */
  lemma SkeletonsNeverRefreshed(rows: map<string, Row>, ms: seq<Character>, out: seq<ProfileData>)
    requires "" !in rows
    requires KeepsIds(out, Skeletons(ms))
    ensures UpdateAll(rows, out) == rows
  {
    forall k | 0 <= k < |out| ensures out[k].id !in rows {
      var j :| 0 <= j < |ms| && out[k].id == Skeletons(ms)[j].id;
    }
    UpdateAllUnknownIds(rows, out);
  }

  /** `profile_refresher`: asks the merge oracle about the last summary and
      the working profiles, keeps its profiles in order as the new working
      set, and overwrites each one's stored document by id, ignoring
      whether the id exists. */
  method ProfileRefresher(db: CharacterDatabase, s: State, merge: (string, Option<seq<Profile>>) -> seq<ProfileData>)
    returns (r: State)
    modifies db
    ensures var out := merge(s.lastSummary, s.lastProfiles);
      && r == s.(lastProfiles := Some(seq(|out|, i requires 0 <= i < |out| => ToProfile(out[i]))))
      && db.rows == UpdateAll(old(db.rows), out)
  {
    var out := merge(s.lastSummary, s.lastProfiles);
    var updatedProfiles: seq<Profile> := [];
    for i := 0 to |out|
      invariant updatedProfiles == seq(i, k requires 0 <= k < i => ToProfile(out[k]))
      invariant db.rows == UpdateAll(old(db.rows), out[..i])
    {
      updatedProfiles := updatedProfiles + [ToProfile(out[i])];
      var _ := db.UpdateCharacter(out[i].id, ToDoc(out[i]));
      assert out[..i + 1][..i] == out[..i];
    }
    assert out[..|out|] == out;
    r := s.(lastProfiles := Some(updatedProfiles));
  }
}
