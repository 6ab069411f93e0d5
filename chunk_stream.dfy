/**
  The generator both controllers consume: `chunk_generator()` in
  src/graphs/nodes/regular_nodes.py:45-49 and src/graphs/nodes.py:19-22
  yields the splitter's chunks one at a time. Here it is a cursor over the
  precomputed chunk list that only moves forward; once exhausted, every
  further `next` raises `StopIteration` again.
 */
module ChunkStreams {
  import opened Wrappers

  class ChunkStream {
    /** The chunks the text splitter produced, in order. */
    const chunks: seq<string>
    /** How many chunks `next` has handed out so far. */
    var pos: nat

    ghost predicate Valid()
      reads this
    {
      pos <= |chunks|
    }

    constructor (chunks: seq<string>)
      ensures Valid() && this.chunks == chunks && pos == 0
    {
      this.chunks := chunks;
      pos := 0;
    }

    /** Python's `next(gen)`: `Some(chunk)` for the next chunk, `None` for
        `StopIteration`. */
    method Next() returns (r: Option<string>)
      requires Valid()
      modifies this
      ensures Valid()
      ensures old(pos) < |chunks| ==> r == Some(chunks[old(pos)]) && pos == old(pos) + 1
      ensures old(pos) == |chunks| ==> r == None && pos == old(pos)
    {
      if pos < |chunks| {
        r := Some(chunks[pos]);
        pos := pos + 1;
      } else {
        r := None;
      }
    }
  }
}
