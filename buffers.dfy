/** Node.js `Buffer` values as byte sequences, and `Buffer.concat`. */
module Buffers {

  type Byte = b: int | 0 <= b < 256

  type Bytes = seq<Byte>

  /** `Buffer.concat(chunks)`: the chunks laid end to end, in order. */
  function Concat(chunks: seq<Bytes>): Bytes
  {
    if chunks == [] then [] else chunks[0] + Concat(chunks[1..])
  }

  /** Total number of bytes held by a list of chunks. */
  function TotalLength(chunks: seq<Bytes>): nat
  {
    if chunks == [] then 0 else |chunks[0]| + TotalLength(chunks[1..])
  }

  /** Concatenation distributes over splitting the list of chunks. */
  lemma {:induction false} ConcatAppend(a: seq<Bytes>, b: seq<Bytes>)
    ensures Concat(a + b) == Concat(a) + Concat(b)
  {
    if a == [] {
      assert a + b == b;
    } else {
      assert (a + b)[0] == a[0];
      assert (a + b)[1..] == a[1..] + b;
      ConcatAppend(a[1..], b);
    }
  }

  /** Appending one chunk to the list appends its bytes to the concatenation. */
  lemma {:induction false} ConcatSnoc(chunks: seq<Bytes>, c: Bytes)
    ensures Concat(chunks + [c]) == Concat(chunks) + c
  {
    ConcatAppend(chunks, [c]);
    assert Concat([c]) == c + Concat([]);
  }

  /** The concatenation holds every byte of every chunk and nothing else. */
  lemma {:induction false} ConcatLength(chunks: seq<Bytes>)
    ensures |Concat(chunks)| == TotalLength(chunks)
  {
    if chunks != [] {
      ConcatLength(chunks[1..]);
    }
  }

  /** Chunk k sits in the concatenation right after the bytes of the chunks before it. */
  lemma {:induction false} ConcatPlacesChunk(chunks: seq<Bytes>, k: nat)
    requires k < |chunks|
    ensures Concat(chunks) == Concat(chunks[..k]) + chunks[k] + Concat(chunks[k + 1..])
    ensures |Concat(chunks[..k])| == TotalLength(chunks[..k])
  {
    assert chunks == chunks[..k] + ([chunks[k]] + chunks[k + 1..]);
    ConcatAppend(chunks[..k], [chunks[k]] + chunks[k + 1..]);
    assert Concat([chunks[k]] + chunks[k + 1..]) == chunks[k] + Concat(chunks[k + 1..]) by {
      assert ([chunks[k]] + chunks[k + 1..])[1..] == chunks[k + 1..];
    }
    ConcatLength(chunks[..k]);
  }
}
