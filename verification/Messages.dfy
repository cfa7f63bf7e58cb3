/** What the engine's messages look like to whoever receives them, by the numbers of include/protocol.h. */
module Messages {
  import opened Bytes
  import opened InitFrame
  import opened Transfer
  import opened Protocol
  import opened Delivery
  import opened SenderTrace

  /** The reading of a transfer frame, written against the protocol's table of types and layouts. */
  function MsgOf(f: Frame): Option<Msg> {
    if f.msgType == 0x09 then
      match ParseInit(f.payload)
      case None => None
      case Some(x) => Some(Init(x.sender, x.filename, x.size))
    else if f.msgType == 0x0C then
      if |f.payload| < 12 then None
      else Some(Chunk(ReadU32(f.payload), ReadU64(f.payload[4..]), f.payload[12..]))
    else if |f.payload| != 4 then None
    else if f.msgType == 0x0A then Some(Accept(ReadU32(f.payload)))
    else if f.msgType == 0x0B then Some(Reject(ReadU32(f.payload)))
    else if f.msgType == 0x0D then Some(Complete(ReadU32(f.payload)))
    else if f.msgType == 0x0E then Some(Cancel(ReadU32(f.payload)))
    else None
  }

  /** C strings within the bounds of the INIT parser; an offset of 64 bits. */
  predicate Sendable(m: Msg) {
    match m
    case Init(target, filename, _) => NulFree(target) && NulFree(filename) && FieldsInBound(target, filename)
    case Chunk(_, offset, _) => offset < 0x1_0000_0000_0000_0000
    case _ => true
  }

  /** Every message is read back from its frame, part by part. */
  lemma MessageRoundTrip(m: Msg)
    requires Sendable(m)
    ensures MsgOf(FrameOfMsg(m)) == Some(m)
  {
    match m
    case Init(target, filename, size) => InitRoundTrip(target, filename, size);
    case Chunk(tid, offset, data) => ReadChunkOfPayload(tid, offset, data);
    case Accept(tid) => TidReadBack(tid);
    case Reject(tid) => TidReadBack(tid);
    case Complete(tid) => TidReadBack(tid);
    case Cancel(tid) => TidReadBack(tid);
  }

  lemma TidReadBack(tid: u32)
    ensures |TidPayload(tid)| == 4 && ReadU32(TidPayload(tid)) == tid
  {
    ReadAfterWrite([]);
    assert BigEndian(tid, 4) + [] == BigEndian(tid, 4);
  }

  /** These bytes are one INIT frame with these three fields. */
  predicate InitOnWire(d: Bytes, target: Bytes, filename: Bytes, size: u64) {
    var p := Parse(d);
    && p.Got? && p.consumed == |d| && p.frame.msgType == 0x09
    && ParseInit(p.frame.payload) == Some(InitFields(target, filename, size))
  }

  lemma InitBytes(target: Bytes, filename: Bytes, size: u64)
    requires Sendable(Init(target, filename, size))
    ensures var f := FrameOfMsg(Init(target, filename, size));
            Fits(f) && InitOnWire(Encode(f), target, filename, size)
  {
    var f := FrameOfMsg(Init(target, filename, size));
    InitPayloadFits(target, filename, size);
    InitRoundTrip(target, filename, size);
    ParseEncoded(f, []);
    assert Encode(f) + [] == Encode(f);
  }

  // ---- everything a run sends can be read back ----

  predicate AllSendable(wire: seq<Sent>) {
    forall k :: 0 <= k < |wire| ==> Sendable(wire[k].msg)
  }

  /** The names of a /sendfile are C strings that fit their buffers, as its argument parser leaves them. */
  predicate NamesOk(e: Event) {
    e.SendFileCommand? ==> NulFree(e.target) && NulFree(e.filename) && FieldsInBound(e.target, e.filename)
  }

  lemma AcceptSendable(s: Engine, tid: u32, io: AcceptIo)
    requires AllSendable(s.wire)
    ensures AllSendable(AcceptCmd(s, tid, io).s.wire)
  {
  }

  lemma AnnouncementSendable(s: Engine, kind: AnnKind, tid: u32, ok: bool)
    requires AllSendable(s.wire)
    ensures AllSendable(Announcement(s, kind, tid, ok).wire)
  {
  }

  lemma FrameSendable(s: Engine, f: Frame, write: WriteResult, ok: bool)
    requires AllSendable(s.wire)
    ensures AllSendable(HandleFrame(s, f, write, ok).wire)
  {
  }

  lemma {:induction false} RoundSendable(s: Engine, io: seq<ChunkIo>)
    requires AllSendable(s.wire) && Cursor(s.send)
    ensures AllSendable(SendChunks(s, io).s.wire)
    decreases |io|
  {
    if io != [] && s.send.sent < s.send.size {
      SendChunkMeaning(s, io[0]);
      if !SendChunk(s, io[0]).halted {
        PlanAtCursor(s.send);
        MovedCursor(s.send);
        RoundSendable(SendChunk(s, io[0]).s, io[1..]);
      }
    }
  }

  lemma {:induction false} ResetSendable(s: Engine, i: nat)
    requires AllSendable(s.wire) && i <= |s.recv|
    ensures AllSendable(ResetSlots(s, i).wire)
    decreases |s.recv| - i
  {
    if i < |s.recv| {
      ResetSendable(if s.recv[i].busy then ClearSlot(s, i) else s, i + 1);
    }
  }

  lemma StepSendable(s: Engine, e: Event)
    requires AllSendable(s.wire) && SendOk(s.send) && NamesOk(e)
    ensures AllSendable(Step(s, e).wire)
  {
    match e
    case SendFileCommand(_, _, _, _) =>
    case AcceptCommand(tid, io) => AcceptSendable(s, tid, io);
    case RejectCommand(_, _) =>
    case CancelCommand(_, _) =>
    case AnnouncementIn(kind, tid, ok) => AnnouncementSendable(s, kind, tid, ok);
    case FrameIn(f, write, ok) => FrameSendable(s, f, write, ok);
    case ErrorIn(_) =>
    case TickTimeout(io) =>
      if s.send.state == Active {
        RoundSendable(s, io);
      }
    case Reset => ResetSendable(if s.send.busy then s.(send := NO_SEND) else s, 0);
  }

  lemma {:induction false} RunSendable(pre: Disk, es: seq<Event>)
    requires forall k :: 0 <= k < |es| ==> NamesOk(es[k])
    ensures AllSendable(Run(Start(pre), es).wire)
    decreases |es|
  {
    if es != [] {
      var before := es[..|es| - 1];
      RunSendable(pre, before);
      var past := SenderLanguage(pre, before);
      StepSendable(Run(Start(pre), before), es[|es| - 1]);
    }
  }
}
