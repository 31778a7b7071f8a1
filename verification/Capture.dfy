/** The tail of a child's output, kept for error messages. */
module Capture {
  import opened Bytes

  const MAX_CAPTURED := 64 * 1024

  const CHUNK := 8192

  /** The last `n` bytes, or all of them. */
  function Last(bs: bytes, n: nat): (tail: bytes)
  {
    if |bs| <= n then bs else bs[|bs| - n..]
  }

  function Drained(kept: bytes): bytes {
    if |kept| > MAX_CAPTURED * 2 then kept[|kept| - MAX_CAPTURED..] else kept
  }

  /** What the buffer holds after the chunks have arrived, one by one. */
  function KeptAfter(chunks: seq<bytes>): bytes {
    if chunks == [] then [] else Drained(KeptAfter(chunks[..|chunks| - 1]) + chunks[|chunks| - 1])
  }

  /** The buffer holds an end of the stream, at least 64 KiB of it if there is
      that much, and never more than twice that. */
  predicate HoldsTheEnd(kept: bytes, stream: bytes) {
    && |kept| <= |stream|
    && kept == stream[|stream| - |kept|..]
    && |kept| <= MAX_CAPTURED * 2
    && (|kept| < |stream| ==> |kept| >= MAX_CAPTURED)
  }

  lemma AbsorbKeepsTheEnd(kept: bytes, stream: bytes, chunk: bytes)
    requires HoldsTheEnd(kept, stream)
    ensures HoldsTheEnd(Drained(kept + chunk), stream + chunk)
  {
    var long, all := kept + chunk, stream + chunk;
    assert long == all[|all| - |long|..];
    if |long| > MAX_CAPTURED * 2 {
      assert long[|long| - MAX_CAPTURED..] == all[|all| - MAX_CAPTURED..];
    }
  }

  lemma {:induction false} KeptHoldsTheEnd(chunks: seq<bytes>)
    ensures HoldsTheEnd(KeptAfter(chunks), Flatten(chunks))
  {
    if chunks != [] {
      var n := |chunks| - 1;
      KeptHoldsTheEnd(chunks[..n]);
      FlattenAppend(chunks[..n], chunks[n]);
      assert chunks == chunks[..n] + [chunks[n]];
      AbsorbKeepsTheEnd(KeptAfter(chunks[..n]), Flatten(chunks[..n]), chunks[n]);
    }
  }

  lemma SnapshotOfTheEnd(kept: bytes, stream: bytes)
    requires HoldsTheEnd(kept, stream)
    ensures Last(kept, MAX_CAPTURED) == Last(stream, MAX_CAPTURED)
  {
  }

  /** However the stream is cut into chunks, a snapshot is its last 64 KiB, or
      all of it if it is no longer. */
  lemma SnapshotIsTheLastBytes(chunks: seq<bytes>)
    ensures Last(KeptAfter(chunks), MAX_CAPTURED) ==
      if |Flatten(chunks)| <= 65_536 then Flatten(chunks) else Flatten(chunks)[|Flatten(chunks)| - 65_536..]
    ensures |KeptAfter(chunks)| <= 131_072
  {
    KeptHoldsTheEnd(chunks);
    SnapshotOfTheEnd(KeptAfter(chunks), Flatten(chunks));
  }

  /** One read of the pipe. */
  datatype Read = Data(chunk: bytes) | EndOfFile | Failed

  predicate AllData(pipe: seq<Read>) {
    forall i :: 0 <= i < |pipe| ==> pipe[i].Data?
  }

  function Chunks(pipe: seq<Read>): seq<bytes>
    requires AllData(pipe)
  {
    seq(|pipe|, i requires 0 <= i < |pipe| => pipe[i].chunk)
  }

  lemma NothingDrained(pipe: seq<Read>, stream: bytes)
    ensures stream == stream + Flatten(Chunks(pipe[..0]))
  {
  }

  lemma DrainStep(pipe: seq<Read>, n: nat, stream: bytes)
    requires n < |pipe| && pipe[n].Data? && AllData(pipe[..n])
    ensures AllData(pipe[..n + 1])
    ensures stream + Flatten(Chunks(pipe[..n])) + pipe[n].chunk == stream + Flatten(Chunks(pipe[..n + 1]))
  {
    FlattenAppend(Chunks(pipe[..n]), pipe[n].chunk);
    assert pipe[..n + 1] == pipe[..n] + [pipe[n]];
    hide Flatten;
    assert Chunks(pipe[..n + 1]) == Chunks(pipe[..n]) + [pipe[n].chunk];
  }

  class Buffer {
    var kept: bytes

    /** Everything read from the pipe so far. */
    ghost var stream: bytes

    ghost predicate Valid()
      reads this
    {
      HoldsTheEnd(kept, stream)
    }

    constructor ()
      ensures Valid() && stream == []
    {
      kept, stream := [], [];
    }

    method Absorb(chunk: bytes)
      requires Valid()
      modifies this
      ensures Valid() && stream == old(stream) + chunk
      ensures kept == Drained(old(kept) + chunk)
      ensures var all := old(kept) + chunk; kept == if |all| <= 131_072 then all else all[|all| - 65_536..]
    {
      AbsorbKeepsTheEnd(kept, stream, chunk);
      stream := stream + chunk;
      kept := kept + chunk;
      if |kept| > MAX_CAPTURED * 2 {
        var excess := |kept| - MAX_CAPTURED;
        kept := kept[excess..];
      }
    }

    /** The reader thread: absorb until the pipe ends or fails. */
    method Drain(pipe: seq<Read>) returns (consumed: nat)
      requires Valid()
      requires forall i :: 0 <= i < |pipe| && pipe[i].Data? ==> 0 < |pipe[i].chunk| <= CHUNK
      modifies this
      ensures Valid() && consumed <= |pipe|
      ensures AllData(pipe[..consumed])
      ensures consumed < |pipe| ==> !pipe[consumed].Data?
      ensures stream == old(stream) + Flatten(Chunks(pipe[..consumed]))
    {
      hide HoldsTheEnd, Drained, Flatten, Chunks;
      consumed := 0;
      NothingDrained(pipe, stream);
      while consumed < |pipe| && pipe[consumed].Data?
        invariant Valid() && consumed <= |pipe|
        invariant AllData(pipe[..consumed])
        invariant stream == old(stream) + Flatten(Chunks(pipe[..consumed]))
      {
        DrainStep(pipe, consumed, old(stream));
        Absorb(pipe[consumed].chunk);
        consumed := consumed + 1;
      }
    }

    method Snapshot() returns (tail: bytes)
      requires Valid()
      ensures tail == Last(stream, MAX_CAPTURED)
    {
      SnapshotOfTheEnd(kept, stream);
      var start := if |kept| < MAX_CAPTURED then 0 else |kept| - MAX_CAPTURED;
      return kept[start..];
    }
  }
}
