/**
  The bounded capture buffer of scripts/dev-runner-output.ts.

  Chunks arrive in any sizes; the buffer keeps only as many bytes as the limit
  allows and trims from the front, dropping whole chunks and cutting the first
  remaining one.  `Valid` ties the chunk list to the ghost history of every
  byte ever written.
 */
module TailBuffer {

  type Byte = bv8

  datatype CapturedOutput = CapturedOutput(body: seq<Byte>, notice: bool, truncated: bool, totalBytes: nat)

  /** Concatenation of a chunk list, what `Buffer.concat` yields. */
  function Flatten(chunks: seq<seq<Byte>>): seq<Byte>
  {
    if chunks == [] then [] else chunks[0] + Flatten(chunks[1..])
  }

  /** The last `limit` bytes of `bytes`, or all of them when there are fewer. */
  function Tail(bytes: seq<Byte>, limit: nat): (t: seq<Byte>)
    ensures |t| == if |bytes| <= limit then |bytes| else limit
    ensures t <= bytes || |t| == limit
  {
    if |bytes| <= limit then bytes else bytes[|bytes| - limit..]
  }

  ghost predicate NoneEmpty(chunks: seq<seq<Byte>>) {
    forall i :: 0 <= i < |chunks| ==> chunks[i] != []
  }

  lemma {:induction false} FlattenAppend(chunks: seq<seq<Byte>>, last: seq<Byte>)
    ensures Flatten(chunks + [last]) == Flatten(chunks) + last
  {
    if chunks == [] {
      assert [last][1..] == [];
      assert Flatten([last]) == last + Flatten([last][1..]);
    } else {
      assert (chunks + [last])[1..] == chunks[1..] + [last];
      FlattenAppend(chunks[1..], last);
    }
  }

  /** A list of nonempty chunks holds at least as many bytes as chunks. */
  lemma {:induction false} NoneEmptyCount(chunks: seq<seq<Byte>>)
    requires NoneEmpty(chunks)
    ensures |chunks| <= |Flatten(chunks)|
  {
    if chunks != [] {
      assert NoneEmpty(chunks[1..]) by {
        assert forall i :: 0 <= i < |chunks[1..]| ==> chunks[1..][i] == chunks[i + 1];
      }
      NoneEmptyCount(chunks[1..]);
    }
  }

  /** Dropping a chunk that lies wholly in the overflow drops that many leading bytes. */
  lemma DropHeadChunk(chunks: seq<seq<Byte>>)
    requires chunks != [] && NoneEmpty(chunks)
    ensures NoneEmpty(chunks[1..])
    ensures Flatten(chunks)[|chunks[0]|..] == Flatten(chunks[1..])
    ensures |Flatten(chunks)| == |chunks[0]| + |Flatten(chunks[1..])|
  {
    forall i | 0 <= i < |chunks[1..]| ensures chunks[1..][i] != [] {
      assert chunks[1..][i] == chunks[i + 1];
    }
  }

  /** Cutting into the first chunk drops that many leading bytes. */
  lemma CutHeadChunk(chunks: seq<seq<Byte>>, count: nat)
    requires chunks != [] && NoneEmpty(chunks) && count < |chunks[0]|
    ensures var cut := chunks[0 := chunks[0][count..]];
      NoneEmpty(cut) && Flatten(cut) == Flatten(chunks)[count..]
  {
    var cut := chunks[0 := chunks[0][count..]];
    assert cut[1..] == chunks[1..];
    assert Flatten(cut) == chunks[0][count..] + Flatten(chunks[1..]);
  }

  ghost predicate IsSuffix(kept: seq<Byte>, all: seq<Byte>) {
    |kept| <= |all| && kept == all[|all| - |kept|..]
  }

  lemma SuffixDrop(kept: seq<Byte>, all: seq<Byte>, count: nat)
    requires IsSuffix(kept, all) && count <= |kept|
    ensures IsSuffix(kept[count..], all)
  {
  }

  lemma SuffixIsTail(kept: seq<Byte>, all: seq<Byte>, limit: nat)
    requires IsSuffix(kept, all) && |kept| <= limit
    requires |kept| == limit || kept == all
    ensures kept == Tail(all, limit)
  {
  }

  /**
    Writing in two steps keeps the same tail as writing at once: what was cut
    off earlier can never be needed later.
   */
  lemma TailOfTail(before: seq<Byte>, more: seq<Byte>, limit: nat)
    ensures Tail(Tail(before, limit) + more, limit) == Tail(before + more, limit)
  {
    if |before| > limit {
      var cut := |before| - limit;
      assert before == before[..cut] + before[cut..];
      assert before + more == before[..cut] + (before[cut..] + more);
      assert Tail(before, limit) == before[cut..];
    }
  }

  class CapturedOutputBuffer {
    const limit: nat
    var chunks: seq<seq<Byte>>
    var bufferedBytes: nat
    var totalBytes: nat
    var truncated: bool
    ghost var written: seq<Byte>

    ghost predicate Valid()
      reads this
    {
      && 1 <= limit
      && NoneEmpty(chunks)
      && Flatten(chunks) == Tail(written, limit)
      && bufferedBytes == |Flatten(chunks)|
      && totalBytes == |written|
      && (truncated <==> |written| > limit)
    }

    /** A requested limit below one byte is raised to one. */
    constructor (maxBytes: int)
      ensures Valid() && written == []
      ensures limit == if maxBytes < 1 then 1 else maxBytes
    {
      limit := if maxBytes < 1 then 1 else maxBytes;
      chunks, bufferedBytes, totalBytes, truncated := [], 0, 0, false;
      written := [];
    }

    /** Appends one chunk; a missing or empty chunk changes nothing. */
    method Append(chunk: seq<Byte>)
      requires Valid()
      modifies this
      ensures Valid()
      ensures written == old(written) + chunk
    {
      if chunk == [] {
        assert written == written + chunk;
        return;
      }
      FlattenAppend(chunks, chunk);
      ghost var before := written;
      ghost var all := Tail(before, limit) + chunk;
      chunks := chunks + [chunk];
      bufferedBytes := bufferedBytes + |chunk|;
      totalBytes := totalBytes + |chunk|;
      written := before + chunk;
      assert IsSuffix(all, all);

      while bufferedBytes > limit && |chunks| > 0
        invariant NoneEmpty(chunks) && IsSuffix(Flatten(chunks), all)
        invariant bufferedBytes == |Flatten(chunks)|
        invariant bufferedBytes >= limit || Flatten(chunks) == all
        invariant truncated <==> (old(truncated) || bufferedBytes < |all|)
        invariant totalBytes == |written| && written == before + chunk
        decreases bufferedBytes
      {
        var overflow := bufferedBytes - limit;
        var head := chunks[0];
        if |head| <= overflow {
          DropHeadChunk(chunks);
          SuffixDrop(Flatten(chunks), all, |head|);
          chunks := chunks[1..];
          bufferedBytes := bufferedBytes - |head|;
          truncated := true;
        } else {
          CutHeadChunk(chunks, overflow);
          SuffixDrop(Flatten(chunks), all, overflow);
          chunks := chunks[0 := head[overflow..]];
          bufferedBytes := bufferedBytes - overflow;
          truncated := true;
        }
      }
      SuffixIsTail(Flatten(chunks), all, limit);
      TailOfTail(before, chunk, limit);
    }

    /** The retained bytes, headed by the truncation notice exactly when bytes were lost. */
    method Finish() returns (output: CapturedOutput)
      requires Valid()
      ensures output.body == Tail(written, limit)
      ensures output.notice == output.truncated == (|written| > limit)
      ensures output.totalBytes == |written|
      ensures |chunks| <= limit
    {
      NoneEmptyCount(chunks);
      output := CapturedOutput(Flatten(chunks), truncated, truncated, totalBytes);
    }
  }

  /** What the buffer keeps over any sequence of appends depends only on the bytes, not on how they were cut into chunks. */
  method CaptureAll(maxBytes: int, writes: seq<seq<Byte>>) returns (output: CapturedOutput)
    ensures var limit := if maxBytes < 1 then 1 else maxBytes;
      && output.body == Tail(Flatten(writes), limit)
      && output.truncated == (|Flatten(writes)| > limit)
      && output.totalBytes == |Flatten(writes)|
  {
    var buffer := new CapturedOutputBuffer(maxBytes);
    for i := 0 to |writes|
      invariant buffer.Valid() && fresh(buffer)
      invariant buffer.written == Flatten(writes[..i])
    {
      assert writes[..i + 1] == writes[..i] + [writes[i]];
      FlattenAppend(writes[..i], writes[i]);
      buffer.Append(writes[i]);
    }
    assert writes[..|writes|] == writes;
    output := buffer.Finish();
  }
}
