/** Cutting a file into chunks: file_chunk_count and file_chunk_plan of src/file.c. */
module Chunks {
  import opened Bytes

  /** FILE_CHUNK_DATA_MAX. */
  const CHUNK: nat := 65500

  datatype Span = Span(offset: nat, length: nat)

  function Count(size: nat, chunk: nat): nat
    requires chunk > 0
  {
    if size == 0 then 0 else size / chunk + (if size % chunk != 0 then 1 else 0)
  }

  /** file_chunk_plan. */
  function Plan(size: nat, chunk: nat, index: nat): Option<Span>
    requires chunk > 0
  {
    if index >= Count(size, chunk) then None
    else
      CountIsCeiling(size, chunk, index);
      var offset := index * chunk;
      var remain: int := size - offset;
      Some(Span(offset, if remain >= chunk then chunk else remain))
  }

  lemma MulMonotone(a: nat, b: nat, c: nat)
    requires a <= b
    ensures a * c <= b * c
  {
  }

  /** index is planned exactly when its first byte exists. */
  lemma CountIsCeiling(size: nat, chunk: nat, index: nat)
    requires chunk > 0
    ensures index < Count(size, chunk) <==> index * chunk < size
  {
    var q, r := size / chunk, size % chunk;
    assert size == q * chunk + r && 0 <= r < chunk;
    if index < q {
      MulMonotone(index + 1, q, chunk);
      assert (index + 1) * chunk == index * chunk + chunk;
    } else if index > q {
      MulMonotone(q + 1, index, chunk);
      assert (q + 1) * chunk == q * chunk + chunk;
    }
    if size == 0 {
      assert q == 0;
    }
  }

  predicate Covers(s: Span, p: nat) {
    s.offset <= p < s.offset + s.length
  }

  /** Every planned span is non-empty, at most one chunk long, inside the file, and computed without 64-bit
      wrap-around. */
  lemma PlanBounds(size: u64, chunk: nat, index: nat)
    requires chunk > 0 && index < Count(size, chunk)
    ensures var s := Plan(size, chunk, index);
            && s.Some?
            && s.value.offset == index * chunk < 0x1_0000_0000_0000_0000
            && 0 < s.value.length <= chunk
            && s.value.offset + s.value.length <= size
            && (s.value.length < chunk ==> index + 1 == Count(size, chunk))
  {
    CountIsCeiling(size, chunk, index);
    CountIsCeiling(size, chunk, index + 1);
    assert (index + 1) * chunk == index * chunk + chunk;
  }

  /** The spans tile [0, size): each starts where its predecessor ends, the last one ends the file. */
  lemma PlanContiguous(size: nat, chunk: nat, index: nat)
    requires chunk > 0 && index < Count(size, chunk)
    ensures var s := Plan(size, chunk, index).value;
            if index + 1 < Count(size, chunk)
            then Plan(size, chunk, index + 1).value.offset == s.offset + s.length
            else s.offset + s.length == size
  {
  }

  lemma InChunk(p: nat, chunk: nat, index: nat)
    requires chunk > 0
    ensures index * chunk <= p < index * chunk + chunk <==> index == p / chunk
  {
    var q, r := p / chunk, p % chunk;
    assert p == q * chunk + r && 0 <= r < chunk;
    if index < q {
      MulMonotone(index + 1, q, chunk);
      assert (index + 1) * chunk == index * chunk + chunk;
    } else if index > q {
      MulMonotone(q + 1, index, chunk);
      assert (q + 1) * chunk == q * chunk + chunk;
    }
  }

  /** Position p lies in exactly one planned span, that of p / chunk; no span covers a position past the end. */
  lemma PlanTiles(size: nat, chunk: nat, p: nat, index: nat)
    requires chunk > 0 && index < Count(size, chunk)
    ensures Covers(Plan(size, chunk, index).value, p) <==> p < size && index == p / chunk
    ensures p < size ==> p / chunk < Count(size, chunk)
  {
    CountIsCeiling(size, chunk, index);
    CountIsCeiling(size, chunk, p / chunk);
    InChunk(p, chunk, index);
    InChunk(p, chunk, p / chunk);
  }

  // The same for the constant 65500, where products are linear.

  /** The length planned for an index; zero past the end. */
  function PlanLength(size: nat, index: nat): (n: nat)
    ensures n <= CHUNK
    ensures n > 0 <==> index < Count(size, CHUNK)
    ensures n > 0 ==> index * CHUNK + n <= size
    ensures n > 0 && n < CHUNK ==> index * CHUNK + n == size
  {
    CountIsCeiling(size, CHUNK, index);
    match Plan(size, CHUNK, index)
    case None => 0
    case Some(s) => s.length
  }

  lemma CountBounds(size: nat)
    ensures var n := Count(size, CHUNK);
            n * CHUNK < size + CHUNK && size <= n * CHUNK
  {
  }
}
