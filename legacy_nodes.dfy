/**
  The earlier single-cursor controller (src/graphs/nodes.py): a node that
  opens the book and starts the chunk generator, a node that takes the
  next chunk and asks the profile model about it, and a router that ends
  the run once the generator is gone or the chunk is empty. The file
  system is a map from path to contents, the splitter a function
  parameter, and the profile model an oracle `update` from a chunk and
  the previous profile to the next one.
 */
module LegacyNodes {
  import opened Wrappers
  import opened ChunkStreams

  /** The four fields the legacy nodes return; `P` is whatever the profile
      model answers. */
  datatype LegacyState<P> = LegacyState(
    filePath: string,
    chunkGenerator: Option<ChunkStream>,
    currentChunk: string,
    lastProfile: Option<P>)

  datatype LegacyError =
    | FileNotFound(path: string) // `chunker_generator_node`: FileNotFoundError
    | NotAnIterator              // `next(None)`: TypeError

  /** The current chunk is the one the generator handed out last, or ""
      before the first. */
  ghost predicate CursorAgrees<P>(s: LegacyState<P>)
    reads if s.chunkGenerator.Some? then {s.chunkGenerator.value} else {}
  {
    s.chunkGenerator.Some? ==>
      var g := s.chunkGenerator.value;
      g.Valid() && s.currentChunk == (if g.pos == 0 then "" else g.chunks[g.pos - 1])
  }

  /** `chunker_generator_node`: fails when the path is empty or absent;
      otherwise starts a generator over the splitter's chunks of the file
      and takes its first chunk, or "" when there is none, with no profile
      yet. */
  method ChunkerGeneratorNode<P>(s: LegacyState<P>, files: map<string, string>,
                                 split: string -> seq<string>)
    returns (r: Result<LegacyState<P>, LegacyError>)
    ensures s.filePath == "" || s.filePath !in files ==> r == Failure(FileNotFound(s.filePath))
    ensures s.filePath != "" && s.filePath in files ==>
      && r.Success?
      && r.value.filePath == s.filePath
      && r.value.chunkGenerator.Some?
      && fresh(r.value.chunkGenerator.value)
      && r.value.chunkGenerator.value.chunks == split(files[s.filePath])
      && r.value.lastProfile.None?
      && CursorAgrees(r.value)
      && var chunks := split(files[s.filePath]);
         r.value.currentChunk == (if |chunks| == 0 then "" else chunks[0])
  {
    if s.filePath == "" || s.filePath !in files {
      return Failure(FileNotFound(s.filePath));
    }
    var text := files[s.filePath];
    var gen := new ChunkStream(split(text));
    var first := gen.Next();
    var firstChunk := if first.Some? then first.value else "";
    r := Success(LegacyState(s.filePath, Some(gen), firstChunk, None));
  }

  /** `other_chunk_node`: with no generator `next` fails. An exhausted
      generator or an empty chunk drops the generator, empties the current
      chunk and keeps the profile; any other chunk becomes current and the
      profile becomes the model's answer for it and the previous one. */
  method OtherChunkNode<P>(s: LegacyState<P>, update: (string, Option<P>) -> P)
    returns (r: Result<LegacyState<P>, LegacyError>)
    requires CursorAgrees(s)
    modifies if s.chunkGenerator.Some? then {s.chunkGenerator.value} else {}
    ensures s.chunkGenerator.None? ==> r == Failure(NotAnIterator)
    ensures s.chunkGenerator.Some? ==>
      var g := s.chunkGenerator.value;
      && g.Valid()
      && if old(g.pos) < |g.chunks| && g.chunks[old(g.pos)] != "" then
           var chunk := g.chunks[old(g.pos)];
           && g.pos == old(g.pos) + 1
           && r == Success(s.(currentChunk := chunk, lastProfile := Some(update(chunk, s.lastProfile))))
           && CursorAgrees(r.value)
         else
           && g.pos == (if old(g.pos) < |g.chunks| then old(g.pos) + 1 else old(g.pos))
           && r == Success(s.(chunkGenerator := None, currentChunk := ""))
  {
    if s.chunkGenerator.None? {
      return Failure(NotAnIterator);
    }
    var gen := s.chunkGenerator.value;
    var next := gen.Next();
    var nextChunk := if next.Some? then next.value else "";
    if nextChunk == "" {
      return Success(s.(chunkGenerator := None, currentChunk := ""));
    }
    var response := update(nextChunk, s.lastProfile);
    r := Success(s.(currentChunk := nextChunk, lastProfile := Some(response)));
  }

  /** `router_node`. */
  function RouterNode<P>(s: LegacyState<P>): (route: string)
    ensures route == "END" <==> s.chunkGenerator.None? || s.currentChunk == ""
    ensures route == "other_chunk" <==> s.chunkGenerator.Some? && s.currentChunk != ""
  {
    if s.chunkGenerator.None? || s.currentChunk == "" then "END" else "other_chunk"
  }

  /** The profile after the model has read `chunks` in order, starting
      from `p`. */
  function ReadAll<P>(update: (string, Option<P>) -> P, chunks: seq<string>, p: Option<P>): Option<P>
    decreases |chunks|
  {
    if |chunks| == 0 then p else ReadAll(update, chunks[1..], Some(update(chunks[0], p)))
  }

  /** Reading one more chunk is one more model call on the profile so far. */
  lemma {:induction false} ReadAllSnoc<P>(update: (string, Option<P>) -> P, chunks: seq<string>,
                                         c: string, p: Option<P>)
    ensures ReadAll(update, chunks + [c], p) == Some(update(c, ReadAll(update, chunks, p)))
    decreases |chunks|
  {
    if |chunks| > 0 {
      assert (chunks + [c])[1..] == chunks[1..] + [c];
      ReadAllSnoc(update, chunks[1..], c, Some(update(chunks[0], p)));
    }
  }

  /** The index of the first empty chunk at or after `from`, or the
      number of chunks when there is none. */
  function FirstEmpty(chunks: seq<string>, from: nat): (e: nat)
    requires from <= |chunks|
    ensures from <= e <= |chunks|
    ensures e < |chunks| ==> chunks[e] == ""
    ensures forall i :: from <= i < e ==> chunks[i] != ""
    decreases |chunks| - from
  {
    if from == |chunks| || chunks[from] == "" then from else FirstEmpty(chunks, from + 1)
  }

  /** The two legacy nodes driven by `router_node`: `other_chunk_node`
      runs for as long as the router answers "other_chunk". The model then
      reads every chunk after the current one up to the first empty chunk,
      in order, each exactly once; the run ends without a generator and
      with an empty current chunk. */
  method DrainChunks<P>(s: LegacyState<P>, update: (string, Option<P>) -> P)
    returns (r: LegacyState<P>)
    requires CursorAgrees(s)
    modifies if s.chunkGenerator.Some? then {s.chunkGenerator.value} else {}
    ensures RouterNode(r) == "END"
    ensures RouterNode(s) == "END" ==> r == s
    ensures RouterNode(s) == "other_chunk" ==>
      var g := s.chunkGenerator.value;
      var e := FirstEmpty(g.chunks, old(g.pos));
      && r == s.(chunkGenerator := None, currentChunk := "",
                 lastProfile := ReadAll(update, g.chunks[old(g.pos)..e], s.lastProfile))
      && g.pos == (if e < |g.chunks| then e + 1 else e)
  {
    r := s;
    if RouterNode(s) == "END" {
      return;
    }
    var g := s.chunkGenerator.value;
    ghost var start := g.pos;
    ghost var e := FirstEmpty(g.chunks, start);
    while RouterNode(r) == "other_chunk"
      invariant start <= g.pos <= |g.chunks| && g.Valid()
      invariant r.filePath == s.filePath
      invariant r.chunkGenerator.Some? ==>
        && r.chunkGenerator == Some(g) && CursorAgrees(r) && g.pos <= e
        && r.lastProfile == ReadAll(update, g.chunks[start..g.pos], s.lastProfile)
      invariant r.chunkGenerator.None? ==>
        && r == s.(chunkGenerator := None, currentChunk := "",
                   lastProfile := ReadAll(update, g.chunks[start..e], s.lastProfile))
        && g.pos == (if e < |g.chunks| then e + 1 else e)
      decreases (if r.chunkGenerator.Some? then 1 else 0) + |g.chunks| - g.pos
    {
      ghost var before := g.pos;
      var step := OtherChunkNode(r, update);
      if g.pos == before + 1 && step.value.chunkGenerator.Some? {
        ReadAllSnoc(update, g.chunks[start..before], g.chunks[before], s.lastProfile);
        assert g.chunks[start..g.pos] == g.chunks[start..before] + [g.chunks[before]];
      } else {
        assert before == e;
      }
      r := step.value;
    }
  }
}
