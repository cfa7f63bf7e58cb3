/**
 Putting a file together from chunks that arrive in any order: the bitmap, the byte counter and the positioned
 writes of recv_handle_chunk, and the counting argument behind recv_task_finish (src/file.c).
 */
module Assembly {
  import opened Bytes
  import opened Chunks
  import opened Bitmap

  /** What one active receive has accumulated; content is the file on disk. */
  datatype Assembly = Assembly(size: nat, bits: Bits, received: nat, content: Bytes)

  function ZeroBits(n: nat): (bits: Bits)
    ensures |bits| == n && forall k :: 0 <= k < n ==> bits[k] == 0
  {
    seq(n, _ => 0 as bv8)
  }

  /** State right after /accept. */
  function Fresh(size: nat): Assembly {
    Assembly(size, ZeroBits(BitmapLength(size)), 0, [])
  }

  /** fseek then fwrite: a gap before the offset reads as zeros. */
  function WriteAt(content: Bytes, offset: nat, data: Bytes): Bytes {
    var n := if |content| < offset + |data| then offset + |data| else |content|;
    seq(n, p requires 0 <= p < n =>
      if offset <= p < offset + |data| then data[p - offset] else if p < |content| then content[p] else 0)
  }

  lemma WriteAtBytes(content: Bytes, offset: nat, data: Bytes)
    ensures var r := WriteAt(content, offset, data);
            && |r| == (if |content| < offset + |data| then offset + |data| else |content|)
            && forall p :: 0 <= p < |r| ==>
                 r[p] == if offset <= p < offset + |data| then data[p - offset]
                         else if p < |content| then content[p] else 0
  {
  }

  /** An accepted chunk. */
  function Put(a: Assembly, offset: nat, data: Bytes): Assembly
    requires SpanOk(a.size, a.bits, offset, |data|)
  {
    Assembly(a.size, Mark(a.bits, offset / CHUNK), a.received + |data|, WriteAt(a.content, offset, data))
  }

  // ---- the chunks accepted so far ----

  /** The data accepted for each chunk index. */
  type Pieces = map<nat, Bytes>

  function LengthAt(got: Pieces, i: nat): nat {
    if i in got then |got[i]| else 0
  }

  /** Bytes accepted for the indices below n. */
  function Sum(got: Pieces, n: nat): nat {
    if n == 0 then 0 else Sum(got, n - 1) + LengthAt(got, n - 1)
  }

  predicate WithinPlan(size: nat, got: Pieces) {
    forall i :: i in got ==> 0 < |got[i]| <= PlanLength(size, i)
  }

  predicate Holds(content: Bytes, i: nat, data: Bytes) {
    i * CHUNK + |data| <= |content| && content[i * CHUNK..i * CHUNK + |data|] == data
  }

  /** The invariant of an active receive: counter, bitmap and file agree with the accepted chunks. */
  ghost predicate Assembled(a: Assembly, got: Pieces) {
    && |a.bits| == BitmapLength(a.size)
    && WithinPlan(a.size, got)
    && (forall i: nat :: Test(a.bits, i) <==> i in got)
    && a.received == Sum(got, Count(a.size, CHUNK))
    && |a.content| <= a.size
    && (forall i :: i in got ==> Holds(a.content, i, got[i]))
  }

  lemma {:induction false} SumUpdate(got: Pieces, i: nat, data: Bytes, n: nat)
    requires i !in got
    ensures Sum(got[i := data], n) == Sum(got, n) + if i < n then |data| else 0
  {
    if n > 0 {
      SumUpdate(got, i, data, n - 1);
    }
  }

  lemma {:induction false} SumEmpty(n: nat)
    ensures Sum(map[], n) == 0
  {
    if n > 0 {
      SumEmpty(n - 1);
    }
  }

  lemma FreshAssembled(size: nat)
    ensures Assembled(Fresh(size), map[])
  {
    SumEmpty(Count(size, CHUNK));
    forall i: nat ensures !Test(Fresh(size).bits, i) {
      ZeroHasNoBits(Fresh(size).bits, i);
    }
  }

  lemma WriteKeepsOthers(content: Bytes, offset: nat, data: Bytes, i: nat, d: Bytes)
    requires Holds(content, i, d)
    requires i * CHUNK + |d| <= offset || offset + |data| <= i * CHUNK
    ensures Holds(WriteAt(content, offset, data), i, d)
  {
  }

  lemma WriteHolds(content: Bytes, offset: nat, data: Bytes, i: nat)
    requires offset == i * CHUNK
    ensures Holds(WriteAt(content, offset, data), i, data)
  {
  }

  lemma PutKeepsBits(a: Assembly, got: Pieces, i: nat, data: Bytes)
    requires i / 8 < |a.bits|
    requires forall j: nat :: Test(a.bits, j) <==> j in got
    ensures forall j: nat :: Test(Mark(a.bits, i), j) <==> j in got[i := data]
  {
  }

  lemma PutKeepsContent(a: Assembly, got: Pieces, i: nat, data: Bytes, got': Pieces)
    requires WithinPlan(a.size, got) && |a.content| <= a.size
    requires forall j :: j in got ==> Holds(a.content, j, got[j])
    requires 0 < |data| <= PlanLength(a.size, i) && got' == got[i := data]
    ensures WithinPlan(a.size, got') && |WriteAt(a.content, i * CHUNK, data)| <= a.size
    ensures forall j :: j in got' ==> Holds(WriteAt(a.content, i * CHUNK, data), j, got'[j])
  {
    WriteAtBytes(a.content, i * CHUNK, data);
    forall j | j in got' ensures Holds(WriteAt(a.content, i * CHUNK, data), j, got'[j]) {
      if j == i {
        WriteHolds(a.content, i * CHUNK, data, i);
      } else {
        assert |got[j]| <= PlanLength(a.size, j) <= CHUNK;
        WriteKeepsOthers(a.content, i * CHUNK, data, j, got[j]);
      }
    }
  }

  lemma PutAtKeeps(a: Assembly, got: Pieces, i: nat, data: Bytes)
    requires Assembled(a, got)
    requires i !in got && i / 8 < |a.bits| && 0 < |data| <= PlanLength(a.size, i)
    ensures Assembled(Assembly(a.size, Mark(a.bits, i), a.received + |data|, WriteAt(a.content, i * CHUNK, data)),
                      got[i := data])
  {
    SumUpdate(got, i, data, Count(a.size, CHUNK));
    PutKeepsBits(a, got, i, data);
    PutKeepsContent(a, got, i, data, got[i := data]);
  }

  /** Every accepted chunk keeps the invariant. */
  lemma PutKeeps(a: Assembly, got: Pieces, offset: nat, data: Bytes)
    requires Assembled(a, got)
    requires SpanOk(a.size, a.bits, offset, |data|)
    ensures offset / CHUNK !in got && Assembled(Put(a, offset, data), got[offset / CHUNK := data])
  {
    SpanOkMeaning(a.size, a.bits, offset, |data|);
    PutAtKeeps(a, got, offset / CHUNK, data);
  }

  // ---- counting ----

  /** Every planned chunk was accepted at its full planned length. */
  ghost predicate Full(size: nat, got: Pieces) {
    forall i: nat :: i < Count(size, CHUNK) ==> i in got && |got[i]| == PlanLength(size, i)
  }

  /** Accepted bytes never exceed what is planned, and reach it only when nothing is short. */
  lemma {:induction false} SumBound(size: nat, got: Pieces, n: nat)
    requires WithinPlan(size, got) && n <= Count(size, CHUNK)
    ensures Sum(got, n) <= n * CHUNK && Sum(got, n) <= size
    ensures Sum(got, n) == (if n * CHUNK <= size then n * CHUNK else size) <==>
            forall i: nat :: i < n ==> i in got && |got[i]| == PlanLength(size, i)
  {
    if n > 0 {
      SumBound(size, got, n - 1);
      CountIsCeiling(size, CHUNK, n - 1);
      var full := PlanLength(size, n - 1);
      assert LengthAt(got, n - 1) <= full;
      assert LengthAt(got, n - 1) == full <==> n - 1 in got && |got[n - 1]| == full;
    }
  }

  /** The counter is bounded by the size, and equals it exactly when every chunk is there in full. */
  lemma ReceivedCounts(a: Assembly, got: Pieces)
    requires Assembled(a, got)
    ensures a.received <= a.size
    ensures a.received == a.size <==> Full(a.size, got)
  {
    var n := Count(a.size, CHUNK);
    CountBounds(a.size);
    SumBound(a.size, got, n);
  }

  /** A complete receive has every byte from the chunk that covers it. */
  lemma FullContent(a: Assembly, got: Pieces)
    requires Assembled(a, got) && a.received == a.size
    ensures |a.content| == a.size
    ensures forall p: nat :: p < a.size ==>
              p / CHUNK in got && p % CHUNK < |got[p / CHUNK]| && a.content[p] == got[p / CHUNK][p % CHUNK]
  {
    ReceivedCounts(a, got);
    if a.size > 0 {
      PlanTiles(a.size, CHUNK, a.size - 1, (a.size - 1) / CHUNK);
      FullAt(a, got, a.size - 1);
    }
    forall p: nat | p < a.size
      ensures p / CHUNK in got && p % CHUNK < |got[p / CHUNK]| && a.content[p] == got[p / CHUNK][p % CHUNK]
    {
      FullAt(a, got, p);
    }
  }

  lemma FullAt(a: Assembly, got: Pieces, p: nat)
    requires Assembled(a, got) && Full(a.size, got) && p < a.size
    ensures p < |a.content| && p / CHUNK in got && p % CHUNK < |got[p / CHUNK]|
    ensures a.content[p] == got[p / CHUNK][p % CHUNK]
  {
  }

  /** The bytes a sender puts into chunk i. */
  function Slice(source: Bytes, i: nat): (s: Bytes)
    ensures |s| == PlanLength(|source|, i)
  {
    if i < Count(|source|, CHUNK) then source[i * CHUNK..i * CHUNK + PlanLength(|source|, i)] else []
  }

  predicate FromSource(got: Pieces, source: Bytes) {
    forall i :: i in got ==> got[i] == Slice(source, i)
  }

  lemma SliceAt(source: Bytes, p: nat)
    requires p < |source|
    ensures p % CHUNK < |Slice(source, p / CHUNK)| && Slice(source, p / CHUNK)[p % CHUNK] == source[p]
  {
  }

  /** A complete receive of genuine chunks is the source file. */
  lemma FullIsSource(a: Assembly, got: Pieces, source: Bytes)
    requires Assembled(a, got) && a.received == a.size == |source| && FromSource(got, source)
    ensures a.content == source
  {
    FullContent(a, got);
    forall p: nat | p < |source| ensures a.content[p] == source[p] {
      SliceAt(source, p);
    }
  }

  // ---- the counting theorem, over every sequence of chunks ----

  datatype Arrival = Arrival(offset: nat, data: Bytes)

  /** A fresh receive after all the arrivals; None as soon as one fails the check. */
  function PutAll(size: nat, arrivals: seq<Arrival>): (r: Option<Assembly>)
    ensures r.Some? ==> r.value.size == size
  {
    if arrivals == [] then Some(Fresh(size))
    else
      var last := arrivals[|arrivals| - 1];
      match PutAll(size, arrivals[..|arrivals| - 1])
      case None => None
      case Some(a) =>
        if SpanOk(a.size, a.bits, last.offset, |last.data|) then Some(Put(a, last.offset, last.data)) else None
  }

  function TotalLength(arrivals: seq<Arrival>): nat {
    if arrivals == [] then 0
    else TotalLength(arrivals[..|arrivals| - 1]) + |arrivals[|arrivals| - 1].data|
  }

  predicate Wrote(x: Arrival, p: nat) {
    x.offset <= p < x.offset + |x.data|
  }

  /** How many arrivals wrote the byte at p. */
  function Writes(arrivals: seq<Arrival>, p: nat): nat {
    if arrivals == [] then 0
    else Writes(arrivals[..|arrivals| - 1], p) + (if Wrote(arrivals[|arrivals| - 1], p) then 1 else 0)
  }

  predicate InPieces(got: Pieces, p: nat) {
    p / CHUNK in got && p % CHUNK < |got[p / CHUNK]|
  }

  predicate Recorded(got: Pieces, x: Arrival) {
    var i: nat := x.offset / CHUNK;
    i in got && got[i] == x.data && x.offset == i * CHUNK
  }

  ghost predicate Accounts(got: Pieces, arrivals: seq<Arrival>) {
    && (forall p: nat :: Writes(arrivals, p) == if InPieces(got, p) then 1 else 0)
    && (forall x :: x in arrivals ==> Recorded(got, x))
  }

  lemma WritesExtend(got: Pieces, before: seq<Arrival>, x: Arrival, p: nat)
    requires x.offset == x.offset / CHUNK * CHUNK && |x.data| <= CHUNK && x.offset / CHUNK !in got
    requires Writes(before, p) == if InPieces(got, p) then 1 else 0
    ensures Writes(before + [x], p) == if InPieces(got[x.offset / CHUNK := x.data], p) then 1 else 0
  {
  }

  lemma AccountsExtend(got: Pieces, before: seq<Arrival>, x: Arrival)
    requires Accounts(got, before)
    requires x.offset == x.offset / CHUNK * CHUNK && |x.data| <= CHUNK && x.offset / CHUNK !in got
    ensures Accounts(got[x.offset / CHUNK := x.data], before + [x])
  {
    var got' := got[x.offset / CHUNK := x.data];
    forall p: nat ensures Writes(before + [x], p) == if InPieces(got', p) then 1 else 0 {
      WritesExtend(got, before, x, p);
    }
    forall y | y in before + [x] ensures Recorded(got', y) {
      if y in before {
        assert Recorded(got, y);
      }
    }
  }

  lemma AcceptedStep(a: Assembly, got: Pieces, before: seq<Arrival>, x: Arrival) returns (got': Pieces)
    requires Assembled(a, got) && Accounts(got, before)
    requires SpanOk(a.size, a.bits, x.offset, |x.data|)
    ensures Assembled(Put(a, x.offset, x.data), got') && Accounts(got', before + [x])
  {
    PutKeeps(a, got, x.offset, x.data);
    SpanOkMeaning(a.size, a.bits, x.offset, |x.data|);
    AccountsExtend(got, before, x);
    got' := got[x.offset / CHUNK := x.data];
  }

  lemma {:induction false} Collect(size: nat, arrivals: seq<Arrival>) returns (got: Pieces)
    requires PutAll(size, arrivals).Some?
    ensures Assembled(PutAll(size, arrivals).value, got) && Accounts(got, arrivals)
    ensures PutAll(size, arrivals).value.received == TotalLength(arrivals)
  {
    if arrivals == [] {
      FreshAssembled(size);
      got := map[];
    } else {
      var before, last := arrivals[..|arrivals| - 1], arrivals[|arrivals| - 1];
      got := Collect(size, before);
      got := AcceptedStep(PutAll(size, before).value, got, before, last);
      assert before + [last] == arrivals;
    }
  }

  lemma FullCoversAll(size: nat, got: Pieces)
    requires WithinPlan(size, got)
    requires forall p: nat :: p < size ==> InPieces(got, p)
    ensures Full(size, got)
  {
    forall i: nat | i < Count(size, CHUNK) ensures i in got && |got[i]| == PlanLength(size, i) {
      var p: nat := i * CHUNK + PlanLength(size, i) - 1;
      assert p / CHUNK == i && p % CHUNK == PlanLength(size, i) - 1;
      assert InPieces(got, p);
    }
  }

  lemma CompleteIsOnce(a: Assembly, got: Pieces, arrivals: seq<Arrival>)
    requires Assembled(a, got) && Accounts(got, arrivals) && a.received == a.size
    ensures forall p: nat :: p < a.size ==> Writes(arrivals, p) == 1
  {
    FullContent(a, got);
    forall p: nat | p < a.size ensures Writes(arrivals, p) == 1 {
      assert InPieces(got, p);
    }
  }

  lemma OnceIsComplete(a: Assembly, got: Pieces, arrivals: seq<Arrival>)
    requires Assembled(a, got) && Accounts(got, arrivals)
    requires forall p: nat :: p < a.size ==> Writes(arrivals, p) == 1
    ensures a.received == a.size
  {
    forall p: nat | p < a.size ensures InPieces(got, p) {
      assert Writes(arrivals, p) == 1;
    }
    FullCoversAll(a.size, got);
    ReceivedCounts(a, got);
  }

  /** Every position below the size was written by exactly one arrival. */
  ghost predicate EachByteOnce(size: nat, arrivals: seq<Arrival>) {
    forall p: nat :: p < size ==> Writes(arrivals, p) == 1
  }

  /** The byte counter is the number of bytes accepted, never exceeds the size, no position is ever written twice, and
      the counter reaches the size exactly when every position was written exactly once. Short chunks at aligned
      offsets are accepted, so this is not a mere count of chunks. */
  lemma CountingTheorem(size: nat, arrivals: seq<Arrival>)
    requires PutAll(size, arrivals).Some?
    ensures var a := PutAll(size, arrivals).value;
            && a.received == TotalLength(arrivals) <= size
            && (forall p: nat :: Writes(arrivals, p) <= 1)
            && (a.received == size <==> EachByteOnce(size, arrivals))
  {
    var got := Collect(size, arrivals);
    var a := PutAll(size, arrivals).value;
    ReceivedCounts(a, got);
    if a.received == size {
      CompleteIsOnce(a, got, arrivals);
    }
    if EachByteOnce(size, arrivals) {
      OnceIsComplete(a, got, arrivals);
    }
  }

  predicate HoldsArrival(content: Bytes, x: Arrival) {
    x.offset + |x.data| <= |content| && content[x.offset..x.offset + |x.data|] == x.data
  }

  /** What a complete receive leaves on disk is exactly its accepted chunks, each at its offset. */
  lemma CompleteContent(size: nat, arrivals: seq<Arrival>)
    requires PutAll(size, arrivals).Some? && PutAll(size, arrivals).value.received == size
    ensures var content := PutAll(size, arrivals).value.content;
            |content| == size && forall x :: x in arrivals ==> HoldsArrival(content, x)
  {
    var got := Collect(size, arrivals);
    var a := PutAll(size, arrivals).value;
    FullContent(a, got);
    forall x | x in arrivals ensures HoldsArrival(a.content, x) {
      assert Recorded(got, x);
      RecordedIsHeld(a.content, got, x);
    }
  }

  lemma RecordedIsHeld(content: Bytes, got: Pieces, x: Arrival)
    requires Recorded(got, x) && Holds(content, x.offset / CHUNK, got[x.offset / CHUNK])
    ensures HoldsArrival(content, x)
  {
  }
}
