/** The chunk bitmap of a receive task: recv_bitmap_index, file_recv_span_check and file_recv_span_mark of src/file.c.
    */
module Bitmap {
  import opened Bytes
  import opened Chunks

  type Bits = seq<bv8>

  function Mask(k: nat): bv8
    requires k < 8
  {
    (1 as bv8) << k
  }

  /** Bit i is chunk i. */
  predicate Test(bits: Bits, i: nat) {
    i / 8 < |bits| && bits[i / 8] & Mask(i % 8) != 0
  }

  function Mark(bits: Bits, i: nat): (r: Bits)
    requires i / 8 < |bits|
    ensures |r| == |bits|
  {
    bits[i / 8 := bits[i / 8] | Mask(i % 8)]
  }

  /** recv_bitmap_index: the byte that holds the bit of an offset, None for a misaligned or unallotted one. */
  function ByteIndex(length: nat, offset: nat): Option<nat> {
    if offset % CHUNK != 0 then None
    else if offset / CHUNK / 8 >= length then None
    else Some(offset / CHUNK / 8)
  }

  /** file_recv_span_check answers 0. */
  predicate SpanOk(size: nat, bits: Bits, offset: nat, length: nat) {
    if size == 0 || length == 0 || offset >= size then false
    else if length > size - offset || length > CHUNK then false
    else match ByteIndex(|bits|, offset)
      case None => false
      case Some(at) => bits[at] & Mask(offset / CHUNK % 8) == 0
  }

  /** The bytes /accept allots for a file. */
  function BitmapLength(size: nat): nat {
    Count(size, CHUNK) / 8 + 1
  }

  /** Marking a chunk adds that chunk and changes no other. */
  lemma MarkAdds(bits: Bits, i: nat, j: nat)
    requires i / 8 < |bits|
    ensures Test(Mark(bits, i), j) <==> j == i || Test(bits, j)
  {
  }

  lemma ZeroHasNoBits(bits: Bits, i: nat)
    requires forall k :: 0 <= k < |bits| ==> bits[k] == 0
    ensures !Test(bits, i)
  {
  }

  /** The check rejects exactly the empty, out-of-range, over-long, misaligned and repeated spans. */
  lemma SpanOkMeaning(size: nat, bits: Bits, offset: nat, length: nat)
    requires |bits| == BitmapLength(size)
    ensures SpanOk(size, bits, offset, length) <==>
            && 0 < length <= PlanLength(size, offset / CHUNK)
            && offset == offset / CHUNK * CHUNK
            && !Test(bits, offset / CHUNK)
    ensures SpanOk(size, bits, offset, length) ==>
            offset / CHUNK < Count(size, CHUNK) && ByteIndex(|bits|, offset).Some?
  {
  }

  // ---- a bitmap is a set of chunk indices ----

  /** The bitmap after marking some chunks in turn. */
  function MarkAll(bits: Bits, chunks: seq<nat>): (r: Bits)
    requires forall k :: 0 <= k < |chunks| ==> chunks[k] / 8 < |bits|
    ensures |r| == |bits|
  {
    if chunks == [] then bits else Mark(MarkAll(bits, chunks[..|chunks| - 1]), chunks[|chunks| - 1])
  }

  lemma {:induction false} MarkAllAdds(bits: Bits, chunks: seq<nat>, i: nat)
    requires forall k :: 0 <= k < |chunks| ==> chunks[k] / 8 < |bits|
    ensures Test(MarkAll(bits, chunks), i) <==> i in chunks || Test(bits, i)
  {
    if chunks != [] {
      var before, last := chunks[..|chunks| - 1], chunks[|chunks| - 1];
      MarkAllAdds(bits, before, i);
      MarkAdds(MarkAll(bits, before), last, i);
      assert chunks == before + [last];
    }
  }

  /** After any marks on a fresh bitmap of the size /accept allots, a span passes exactly when it is a non-empty start
      of a planned chunk not marked yet. */
  lemma CheckAfterMarks(size: nat, bits: Bits, chunks: seq<nat>, offset: nat, length: nat)
    requires |bits| == BitmapLength(size) && forall k :: 0 <= k < |bits| ==> bits[k] == 0
    requires forall k :: 0 <= k < |chunks| ==> chunks[k] < Count(size, CHUNK)
    ensures SpanOk(size, MarkAll(bits, chunks), offset, length) <==>
            && 0 < length <= PlanLength(size, offset / CHUNK)
            && offset % CHUNK == 0
            && offset / CHUNK !in chunks
  {
    MarkAllAdds(bits, chunks, offset / CHUNK);
    ZeroHasNoBits(bits, offset / CHUNK);
    SpanOkMeaning(size, MarkAll(bits, chunks), offset, length);
  }

  // ---- the C functions, in place ----

  method SpanCheck(size: nat, bits: array<bv8>, offset: nat, length: nat) returns (code: int)
    ensures code == 0 || code == -1
    ensures code == 0 <==> SpanOk(size, bits[..], offset, length)
  {
    if size == 0 || length == 0 || offset >= size {
      return -1;
    }
    if length > size - offset || length > CHUNK {
      return -1;
    }
    var at := ByteIndex(bits.Length, offset);
    if at.None? {
      return -1;
    }
    var chunk := offset / CHUNK;
    return if bits[at.value] & Mask(chunk % 8) != 0 then -1 else 0;
  }

  method SpanMark(bits: array<bv8>, offset: nat) returns (code: int)
    modifies bits
    ensures code == if ByteIndex(bits.Length, offset).Some? then 0 else -1
    ensures bits[..] == if code == 0 then Mark(old(bits[..]), offset / CHUNK) else old(bits[..])
  {
    var at := ByteIndex(bits.Length, offset);
    if at.None? {
      return -1;
    }
    var chunk := offset / CHUNK;
    bits[at.value] := bits[at.value] | Mask(chunk % 8);
    return 0;
  }
}
