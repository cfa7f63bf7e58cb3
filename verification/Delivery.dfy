/** What an open receive comes to: the file that is kept is the source file, whatever the relay does to the chunks. */
module Delivery {
  import opened Bytes
  import opened Chunks
  import opened Bitmap
  import opened Assembly
  import opened Transfer
  import opened Protocol
  import opened ReceiveTable

  // ---- what one event does to the open slot ----

  /** The event is a CHUNK frame for this task whose span passes the check and whose write succeeds. */
  predicate ChunkAccepted(s: Engine, i: int, e: Event)
    requires SlotIndex(s, i)
  {
    && e.FrameIn? && e.frame.msgType == MSG_FILE_CHUNK && |e.frame.payload| >= 12 && e.write.Written?
    && ReadChunk(e.frame.payload).tid == s.recv[i].tid
    && SpanOk(s.recv[i].size, s.recv[i].bits, ReadChunk(e.frame.payload).offset, |ReadChunk(e.frame.payload).data|)
  }

  predicate Untouched(s: Engine, s': Engine, i: int)
    requires SlotIndex(s, i)
  {
    && |s'.recv| == |s.recv| && s'.recv[i] == s.recv[i] && s'.saved == s.saved
    && FileAt(s'.disk, s.recv[i].saveName) == FileAt(s.disk, s.recv[i].saveName)
  }

  predicate Dropped(s: Engine, s': Engine, i: int)
    requires SlotIndex(s, i)
  {
    |s'.recv| == |s.recv| && s'.recv[i] == FREE && s'.saved == s.saved
  }

  predicate Kept(s: Engine, s': Engine, i: int)
    requires SlotIndex(s, i)
  {
    var t := s.recv[i];
    && |s'.recv| == |s.recv| && s'.recv[i] == FREE && t.received == t.size
    && s'.saved == s.saved + [Saved(t.tid, t.saveName, FileAt(s.disk, t.saveName))]
  }

  /** The four things an event can do to an open receive. */
  predicate OpenSlotFate(s: Engine, e: Event, s': Engine, i: int)
    requires SlotIndex(s, i)
  {
    || Untouched(s, s', i)
    || Dropped(s, s', i)
    || Kept(s, s', i)
    || (ChunkAccepted(s, i, e)
        && s' == StoreChunk(s, i, ReadChunk(e.frame.payload).offset, ReadChunk(e.frame.payload).data))
  }

  lemma ClearFate(s: Engine, s1: Engine, j: int, i: int)
    requires TableOk(s) && SlotIndex(s, i) && s.recv[i].open && SameReceiver(s, s1) && SlotIndex(s, j)
    ensures if j == i then Dropped(s, ClearSlot(s1, j), i) else Untouched(s, ClearSlot(s1, j), i)
  {
  }

  lemma CompleteFate(s: Engine, tid: u32, i: int)
    requires TableOk(s) && SlotIndex(s, i) && s.recv[i].open
    ensures var s' := CompleteReceive(s, tid);
            Untouched(s, s', i) || Dropped(s, s', i) || Kept(s, s', i)
  {
  }

  lemma SignalCancelFate(s: Engine, tid: u32, i: int)
    requires TableOk(s) && SlotIndex(s, i) && s.recv[i].open
    ensures Untouched(s, SignalCancel(s, tid), i) || Dropped(s, SignalCancel(s, tid), i)
  {
  }

  lemma ControlFate(s: Engine, e: Event, i: int)
    requires TableOk(s) && SlotIndex(s, i) && s.recv[i].open && e.FrameIn? && |e.frame.payload| == 4
    ensures OpenSlotFate(s, e, Step(s, e), i)
  {
    SignalCancelFate(s, ReadU32(e.frame.payload), i);
    CompleteFate(s, ReadU32(e.frame.payload), i);
  }

  lemma ChunkFate(s: Engine, e: Event, i: int)
    requires TableOk(s) && SlotIndex(s, i) && s.recv[i].open
    requires e.FrameIn? && e.frame.msgType == MSG_FILE_CHUNK && |e.frame.payload| >= 12
    ensures OpenSlotFate(s, e, HandleChunk(s, e.frame.payload, e.write, e.ok), i)
  {
  }

  lemma FrameFate(s: Engine, e: Event, i: int)
    requires TableOk(s) && SlotIndex(s, i) && s.recv[i].open && e.FrameIn?
    ensures OpenSlotFate(s, e, Step(s, e), i)
  {
    if |e.frame.payload| == 4 {
      ControlFate(s, e, i);
    } else if e.frame.msgType == MSG_FILE_CHUNK && |e.frame.payload| >= 12 {
      ChunkFate(s, e, i);
    }
  }

  lemma AnnouncementFate(s: Engine, e: Event, i: int)
    requires TableOk(s) && SlotIndex(s, i) && s.recv[i].open && e.AnnouncementIn?
    ensures OpenSlotFate(s, e, Step(s, e), i)
  {
    if e.kind.Cancelled? || e.kind.CancelledDisc? {
      SignalCancelFate(s, e.tid, i);
    } else if e.kind.Completed? {
      CompleteFate(s, e.tid, i);
    }
  }

  lemma AcceptFate(s: Engine, e: Event, i: int)
    requires TableOk(s) && SlotIndex(s, i) && s.recv[i].open && e.AcceptCommand?
    ensures Untouched(s, Step(s, e), i)
  {
  }

  lemma CommandFate(s: Engine, e: Event, i: int)
    requires TableOk(s) && SlotIndex(s, i) && s.recv[i].open && (e.RejectCommand? || e.CancelCommand?)
    ensures Untouched(s, Step(s, e), i) || Dropped(s, Step(s, e), i)
  {
  }

  lemma {:induction false} ResetFate(s: Engine, k: nat)
    requires TableOk(s) && k <= |s.recv|
    ensures ResetSlots(s, k).saved == s.saved
    ensures forall j :: k <= j < |s.recv| ==> ResetSlots(s, k).recv[j] == FREE
    ensures forall j :: 0 <= j < k ==> ResetSlots(s, k).recv[j] == s.recv[j]
    decreases |s.recv| - k
  {
    if k < |s.recv| {
      var s1 := if s.recv[k].busy then ClearSlot(s, k) else s;
      if s.recv[k].busy {
        SlotReplaced(s, s1, k, FREE);
      }
      ResetFate(s1, k + 1);
    }
  }

  /** Whatever the event, one of the four. */
  lemma StepFate(s: Engine, e: Event, i: int)
    requires TableOk(s) && SlotIndex(s, i) && s.recv[i].open
    ensures OpenSlotFate(s, e, Step(s, e), i)
  {
    match e
    case SendFileCommand(_, _, _, _) =>
    case AcceptCommand(_, _) => AcceptFate(s, e, i);
    case RejectCommand(_, _) => CommandFate(s, e, i);
    case CancelCommand(_, _) => CommandFate(s, e, i);
    case AnnouncementIn(_, _, _) => AnnouncementFate(s, e, i);
    case FrameIn(_, _, _) => FrameFate(s, e, i);
    case ErrorIn(_) =>
      if ActiveSlot(s.recv) >= 0 {
        ClearFate(s, s.(send := NO_SEND), ActiveSlot(s.recv), i);
        ClearFate(s, s, ActiveSlot(s.recv), i);
      }
    case TickTimeout(io) => TickSameReceiver(s, io);
    case Reset =>
      ResetFate(if s.send.busy then s.(send := NO_SEND) else s, 0);
  }

  // ---- task identity ----

  predicate Announces(e: Event, tid: u32) {
    e.AnnouncementIn? && e.kind == RecvPending && e.tid == tid
  }

  /** t' is the task t: id and announcement never change, and its details, once filled in, neither. */
  predicate SameTask(t: RecvTask, t': RecvTask) {
    && t.busy && t'.tid == t.tid && t'.order == t.order
    && (t.inited ==> t'.inited && t'.sender == t.sender && t'.filename == t.filename && t'.size == t.size)
  }

  /** A slot is the same task as before, or free, or just announced. */
  predicate SameTasks(s: Engine, e: Event, s': Engine) {
    && |s'.recv| == |s.recv|
    && forall j :: 0 <= j < |s.recv| && s'.recv[j].busy ==>
         SameTask(s.recv[j], s'.recv[j])
         || (Announces(e, s'.recv[j].tid) && !s.recv[j].busy && s'.recv[j].order == s.nextOrder
             && !s'.recv[j].inited && !s'.recv[j].open)
  }

  /** Every task is an earlier task with the same id and order. */
  predicate NoNewTasks(recv: seq<RecvTask>, recv': seq<RecvTask>) {
    && |recv'| == |recv|
    && forall j :: 0 <= j < |recv| && recv'[j].busy ==> SameTask(recv[j], recv'[j])
  }

  lemma CompleteNoNewTasks(s: Engine, tid: u32)
    ensures NoNewTasks(s.recv, CompleteReceive(s, tid).recv)
  {
  }

  lemma SignalCancelNoNewTasks(s: Engine, tid: u32)
    ensures NoNewTasks(s.recv, SignalCancel(s, tid).recv)
  {
  }

  lemma ChunkNoNewTasks(s: Engine, c: ChunkIn, write: WriteResult, ok: bool)
    ensures NoNewTasks(s.recv, AcceptChunk(s, c, write, ok).recv)
  {
  }

  lemma InitNoNewTasks(s: Engine, payload: Bytes)
    ensures NoNewTasks(s.recv, HandleInit(s, payload).recv)
  {
  }

  lemma FrameNoNewTasks(s: Engine, f: Frame, write: WriteResult, ok: bool)
    ensures NoNewTasks(s.recv, HandleFrame(s, f, write, ok).recv)
  {
    if |f.payload| == 4 {
      CompleteNoNewTasks(s, ReadU32(f.payload));
      SignalCancelNoNewTasks(s, ReadU32(f.payload));
    } else if f.msgType == MSG_FILE_INIT {
      InitNoNewTasks(s, f.payload);
    } else if f.msgType == MSG_FILE_CHUNK {
      if |f.payload| >= 12 {
        ChunkNoNewTasks(s, ReadChunk(f.payload), write, ok);
      }
    }
  }

  lemma IncomingSameTasks(s: Engine, e: Event)
    requires TableOk(s) && e.AnnouncementIn? && e.kind == RecvPending
    ensures SameTasks(s, e, AnnounceIncoming(s, e.tid, e.ok))
  {
  }

  lemma AnnouncementSameTasks(s: Engine, e: Event)
    requires TableOk(s) && e.AnnouncementIn?
    ensures SameTasks(s, e, Step(s, e))
  {
    match e.kind
    case SendPending =>
    case Accepted =>
    case Rejected =>
    case Cancelled => SignalCancelNoNewTasks(s, e.tid);
    case CancelledDisc => SignalCancelNoNewTasks(s, e.tid);
    case Completed => CompleteNoNewTasks(s, e.tid);
    case RecvPending => IncomingSameTasks(s, e);
  }

  lemma AcceptNoNewTasks(s: Engine, e: Event)
    requires TableOk(s) && e.AcceptCommand?
    ensures NoNewTasks(s.recv, Step(s, e).recv)
  {
    AcceptMeaning(s, e.tid, e.faults);
  }

  lemma CommandNoNewTasks(s: Engine, e: Event)
    requires e.RejectCommand? || e.CancelCommand? || e.ErrorIn?
    ensures NoNewTasks(s.recv, Step(s, e).recv)
  {
  }

  /** Tasks come into being only by announcements, and keep their id and order until they are cleared. */
  lemma StepSameTasks(s: Engine, e: Event)
    requires TableOk(s)
    ensures SameTasks(s, e, Step(s, e))
  {
    match e
    case SendFileCommand(_, _, _, _) =>
    case AcceptCommand(_, _) => AcceptNoNewTasks(s, e);
    case RejectCommand(_, _) => CommandNoNewTasks(s, e);
    case CancelCommand(_, _) => CommandNoNewTasks(s, e);
    case AnnouncementIn(_, _, _) => AnnouncementSameTasks(s, e);
    case FrameIn(f, write, ok) => FrameNoNewTasks(s, f, write, ok);
    case ErrorIn(_) => CommandNoNewTasks(s, e);
    case TickTimeout(io) => TickSameReceiver(s, io);
    case Reset =>
      ResetFate(if s.send.busy then s.(send := NO_SEND) else s, 0);
  }

  predicate NothingIsOpen(s: Engine) {
    forall j :: 0 <= j < |s.recv| ==> !s.recv[j].open
  }

  lemma FrameNoSave(s: Engine, f: Frame, write: WriteResult, ok: bool)
    requires NothingIsOpen(s)
    ensures HandleFrame(s, f, write, ok).saved == s.saved
  {
  }

  lemma AnnouncementNoSave(s: Engine, kind: AnnKind, tid: u32, ok: bool)
    requires NothingIsOpen(s)
    ensures Announcement(s, kind, tid, ok).saved == s.saved
  {
  }

  /** Only an open receive can complete. */
  lemma NoOpenNoSave(s: Engine, e: Event)
    requires TableOk(s) && NothingIsOpen(s)
    ensures Step(s, e).saved == s.saved
  {
    match e
    case SendFileCommand(_, _, _, _) =>
    case AcceptCommand(tid, io) => AcceptMeaning(s, tid, io);
    case RejectCommand(_, _) =>
    case CancelCommand(_, _) =>
    case AnnouncementIn(kind, tid, ok) => AnnouncementNoSave(s, kind, tid, ok);
    case FrameIn(f, write, ok) => FrameNoSave(s, f, write, ok);
    case ErrorIn(_) =>
    case TickTimeout(io) => TickSameReceiver(s, io);
    case Reset =>
      ResetFate(if s.send.busy then s.(send := NO_SEND) else s, 0);
  }

  // ---- genuine chunks ----

  function ChunkFrame(tid: u32, source: FileBytes, k: nat): Frame
    requires k < Count(|source|, CHUNK)
  {
    Frame(MSG_FILE_CHUNK, ChunkPayload(tid, k * CHUNK, Slice(source, k)))
  }

  lemma ReadChunkOfPayload(tid: u32, offset: u64, data: Bytes)
    ensures var p := ChunkPayload(tid, offset, data);
            |p| == 12 + |data| && ReadChunk(p) == ChunkIn(tid, offset, data)
  {
    var p := ChunkPayload(tid, offset, data);
    ReadAfterWrite(BigEndian(offset, 8) + data);
    assert p == BigEndian(tid, 4) + (BigEndian(offset, 8) + data);
    ReadAfterWrite(data);
    assert p[4..] == BigEndian(offset, 8) + data;
    assert p[12..] == data;
  }

  /** Every planned chunk fits a frame whose 16-bit length is exact, and arrives as the id, offset and bytes it left
      with. */
  lemma PlannedChunkRoundTrip(tid: u32, source: FileBytes, k: nat)
    requires k < Count(|source|, CHUNK)
    ensures var f := ChunkFrame(tid, source, k);
            && Fits(f) && |f.payload| >= 12
            && Parse(CastFrame(f.msgType, f.payload)) == Got(f, HEADER_SIZE + |f.payload|)
            && ReadChunk(f.payload) == ChunkIn(tid, k * CHUNK, Slice(source, k))
  {
    CountIsCeiling(|source|, CHUNK, k);
    ReadChunkOfPayload(tid, k * CHUNK, Slice(source, k));
    CastFrameExact(MSG_FILE_CHUNK, ChunkFrame(tid, source, k).payload);
  }

  predicate ChunkFor(e: Event, tid: u32) {
    && e.FrameIn? && e.frame.msgType == MSG_FILE_CHUNK && |e.frame.payload| >= 12
    && ReadChunk(e.frame.payload).tid == tid
  }

  /** Every CHUNK frame for tid is one of the sender's, in whatever order and however often; the id is not reused. */
  predicate Genuine(e: Event, tid: u32, source: FileBytes) {
    && !Announces(e, tid)
    && (ChunkFor(e, tid) ==> exists k: nat :: k < Count(|source|, CHUNK) && e.frame == ChunkFrame(tid, source, k))
  }

  predicate AllGenuine(es: seq<Event>, tid: u32, source: FileBytes) {
    forall k :: 0 <= k < |es| ==> Genuine(es[k], tid, source)
  }

  ghost predicate FromSender(s: Engine, i: int, source: FileBytes)
    requires SlotIndex(s, i)
  {
    && s.recv[i].open && s.recv[i].size == |source|
    && exists got :: Assembled(AssemblyOf(s, i), got) && FromSource(got, source)
  }

  /** Every task with this id is an open receive of chunks of source. */
  ghost predicate Tracks(s: Engine, tid: u32, source: FileBytes) {
    forall i :: SlotIndex(s, i) && s.recv[i].busy && s.recv[i].tid == tid ==> FromSender(s, i, source)
  }

  predicate SavedFrom(saved: seq<Saved>, from: nat, tid: u32, source: FileBytes) {
    forall k :: from <= k < |saved| && saved[k].tid == tid ==> saved[k].content == source
  }

  lemma GenuineChunk(e: Event, tid: u32, source: FileBytes)
    requires ChunkFor(e, tid) && Genuine(e, tid, source)
    ensures var c := ReadChunk(e.frame.payload);
            c.offset / CHUNK < Count(|source|, CHUNK) && c.offset == c.offset / CHUNK * CHUNK
            && c.data == Slice(source, c.offset / CHUNK)
  {
    var k: nat :| k < Count(|source|, CHUNK) && e.frame == ChunkFrame(tid, source, k);
    CountIsCeiling(|source|, CHUNK, k);
    ReadChunkOfPayload(tid, k * CHUNK, Slice(source, k));
    assert k * CHUNK / CHUNK == k;
  }

  lemma FromSourceStep(got: Pieces, k: nat, source: FileBytes)
    requires FromSource(got, source)
    ensures FromSource(got[k := Slice(source, k)], source)
  {
  }

  lemma StoreGenuine(s: Engine, i: int, offset: nat, k: nat, source: FileBytes)
    requires SlotIndex(s, i) && FromSender(s, i, source) && k == offset / CHUNK
    requires SpanOk(s.recv[i].size, s.recv[i].bits, offset, |Slice(source, k)|)
    ensures FromSender(StoreChunk(s, i, offset, Slice(source, k)), i, source)
  {
    var got := PutFromSource(AssemblyOf(s, i), offset, k, source);
    StoredAssembly(s, i, offset, Slice(source, k));
  }

  lemma PutFromSource(a: Assembly, offset: nat, k: nat, source: FileBytes) returns (got: Pieces)
    requires exists g :: Assembled(a, g) && FromSource(g, source)
    requires k == offset / CHUNK && SpanOk(a.size, a.bits, offset, |Slice(source, k)|)
    ensures Assembled(Put(a, offset, Slice(source, k)), got) && FromSource(got, source)
  {
    var g :| Assembled(a, g) && FromSource(g, source);
    PutKeeps(a, g, offset, Slice(source, k));
    FromSourceStep(g, k, source);
    got := g[k := Slice(source, k)];
  }

  lemma KeptIsSource(s: Engine, i: int, source: FileBytes)
    requires SlotIndex(s, i) && FromSender(s, i, source) && s.recv[i].received == s.recv[i].size
    ensures FileAt(s.disk, s.recv[i].saveName) == source
  {
    var got :| Assembled(AssemblyOf(s, i), got) && FromSource(got, source);
    FullIsSource(AssemblyOf(s, i), got, source);
  }

  lemma TrackedSlotStep(s: Engine, e: Event, i: int, tid: u32, source: FileBytes)
    requires TableOk(s) && SlotIndex(s, i) && FromSender(s, i, source) && s.recv[i].tid == tid
    requires Genuine(e, tid, source) && SlotIndex(Step(s, e), i)
    ensures Step(s, e).recv[i].busy ==> FromSender(Step(s, e), i, source)
    ensures Step(s, e).saved == s.saved || Step(s, e).saved == s.saved + [Saved(tid, s.recv[i].saveName, source)]
  {
    StepFate(s, e, i);
    var s' := Step(s, e);
    if Untouched(s, s', i) {
      assert AssemblyOf(s', i) == AssemblyOf(s, i);
    } else if Kept(s, s', i) {
      KeptIsSource(s, i, source);
    } else if ChunkAccepted(s, i, e) && !Dropped(s, s', i) {
      GenuineChunk(e, tid, source);
      StoreGenuine(s, i, ReadChunk(e.frame.payload).offset, ReadChunk(e.frame.payload).offset / CHUNK, source);
    }
  }

  /** Any event with genuine chunks keeps the receive on track, and anything it completes under this id is the source.
      */
  lemma StepTracks(s: Engine, e: Event, from: nat, tid: u32, source: FileBytes, pre: Disk)
    requires Inv(s, pre) && Tracks(s, tid, source) && SavedFrom(s.saved, from, tid, source)
    requires Genuine(e, tid, source)
    ensures Tracks(Step(s, e), tid, source) && SavedFrom(Step(s, e).saved, from, tid, source)
  {
    var s' := Step(s, e);
    StepSameTasks(s, e);
    forall i | SlotIndex(s', i) && s'.recv[i].busy && s'.recv[i].tid == tid ensures FromSender(s', i, source) {
      TrackedSlotStep(s, e, i, tid, source);
    }
    var a := ActiveSlot(s.recv);
    if a < 0 {
      assert forall j :: SlotIndex(s, j) ==> SlotOk(s.recv[j]);
      NoOpenNoSave(s, e);
    } else if s.recv[a].tid == tid {
      TrackedSlotStep(s, e, a, tid, source);
    } else {
      StepFate(s, e, a);
    }
  }

  /** Safety of delivery: whatever else happens, and in whatever order, however often and with whatever gaps the
      sender's chunks arrive, a file completed under this id is the source file byte for byte. */
  lemma {:induction false} DeliverySafe(s: Engine, es: seq<Event>, tid: u32, source: FileBytes, pre: Disk)
    requires Inv(s, pre) && Tracks(s, tid, source) && AllGenuine(es, tid, source)
    ensures var s' := Run(s, es);
            Inv(s', pre) && Tracks(s', tid, source) && SavedFrom(s'.saved, |s.saved|, tid, source)
  {
    if es != [] {
      var before, e := es[..|es| - 1], es[|es| - 1];
      DeliverySafe(s, before, tid, source, pre);
      assert Genuine(e, tid, source);
      StepTracks(Run(s, before), e, |s.saved|, tid, source, pre);
      StepKeeps(Run(s, before), e, pre);
    }
  }
}
