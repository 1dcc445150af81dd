/** Bytes and the concatenation of byte chunks (Node's `Buffer.concat`). */
module Octets {

  newtype byte = x: int | 0 <= x < 256

  type Bytes = seq<byte>

  /** The chunks laid end to end, in the order given. */
  function Flatten(chunks: seq<Bytes>): Bytes
  {
    if |chunks| == 0 then [] else chunks[0] + Flatten(chunks[1..])
  }

  /** Where chunk `i` starts inside `Flatten(chunks)`. */
  function Offset(chunks: seq<Bytes>, i: nat): nat
    requires i <= |chunks|
  {
    |Flatten(chunks[..i])|
  }

  /** Concatenating two runs of chunks is concatenating their flattenings. */
  lemma {:induction false} FlattenAppend(a: seq<Bytes>, b: seq<Bytes>)
    ensures Flatten(a + b) == Flatten(a) + Flatten(b)
    decreases |a|
  {
    if |a| == 0 {
      assert a + b == b;
    } else {
      assert (a + b)[1..] == a[1..] + b;
      FlattenAppend(a[1..], b);
    }
  }

  /** The length of the concatenation is the sum of the chunk lengths. */
  lemma {:induction false} FlattenLength(chunks: seq<Bytes>)
    ensures |Flatten(chunks)| == TotalLength(chunks)
    decreases |chunks|
  {
    if |chunks| > 0 {
      FlattenLength(chunks[1..]);
    }
  }

  function TotalLength(chunks: seq<Bytes>): nat
  {
    if |chunks| == 0 then 0 else |chunks[0]| + TotalLength(chunks[1..])
  }

  /** No chunk is dropped, reordered or altered: chunk `i` sits, unchanged,
      right after the chunks that precede it. */
  lemma FlattenKeepsEveryChunk(chunks: seq<Bytes>, i: nat)
    requires i < |chunks|
    ensures Offset(chunks, i) + |chunks[i]| <= |Flatten(chunks)|
    ensures Flatten(chunks)[Offset(chunks, i)..Offset(chunks, i) + |chunks[i]|] == chunks[i]
  {
    assert chunks == chunks[..i] + ([chunks[i]] + chunks[i + 1..]);
    FlattenAppend(chunks[..i], [chunks[i]] + chunks[i + 1..]);
    FlattenAppend([chunks[i]], chunks[i + 1..]);
    assert Flatten([chunks[i]]) == chunks[i] by {
      assert [chunks[i]][1..] == [];
    }
  }
}
