/** What every signal of the server does, as an event: to which task, and to nothing else. */
module Signals {
  import opened Bytes
  import opened Bitmap
  import opened InitFrame
  import opened Transfer
  import opened Protocol
  import opened ReceiveTable
  import opened DualSignal
  import opened InitQueue
  import opened Operations

  /** The signal comes as an announcement of one of these kinds or as a four-byte frame of this type. */
  predicate Says(e: Event, kinds: set<AnnKind>, msgType: byte, tid: u32) {
    || (e.AnnouncementIn? && e.kind in kinds && e.tid == tid)
    || (e.FrameIn? && |e.frame.payload| == 4 && e.frame.msgType == msgType && ReadU32(e.frame.payload) == tid)
  }

  // ---- to the sender ----

  /** A rejection ends the send task with its id, so the slot is idle for the next /sendfile, and does nothing else. */
  lemma Rejection(s: Engine, e: Event, tid: u32)
    requires Says(e, {Rejected}, 0x0B, tid)
    ensures SendMatches(s, tid) ==> Step(s, e) == s.(send := NO_SEND)
    ensures !SendMatches(s, tid) ==> Step(s, e) == s
  {
  }

  /** A consent sets the waiting task with its id going, and does nothing else. */
  lemma Consent(s: Engine, e: Event, tid: u32)
    requires Says(e, {Accepted}, 0x0A, tid)
    ensures var waiting := SendMatches(s, tid) && s.send.state == Pending;
            && (waiting ==> SendActive(Step(s, e)) && Step(s, e) == s.(send := s.send.(state := Active)))
            && (!waiting ==> Step(s, e) == s)
  {
  }

  /** The server's id goes to the task whose INIT is unconfirmed, and to no other. */
  lemma IdGiven(s: Engine, tid: u32, ok: bool)
    ensures var s', unnamed := Step(s, AnnouncementIn(SendPending, tid, ok)), s.send.busy && s.send.state == PendingTid;
            && (unnamed ==> SendMatches(s', tid) && s' == s.(send := s.send.(tid := tid, state := Pending)))
            && (!unnamed ==> s' == s)
  {
  }

  // ---- to either side ----

  /** The receiving task in slot i is over, and nothing else changes; its file goes exactly when it was open. */
  predicate DroppedOnly(s: Engine, s': Engine, i: int)
    requires SlotIndex(s, i)
  {
    s' == s.(recv := s.recv[i := FREE], disk := if s.recv[i].open then s.disk - {s.recv[i].saveName} else s.disk)
  }

  lemma ClearDropsOnly(s: Engine, i: int)
    requires TableOk(s) && SlotIndex(s, i)
    ensures DroppedOnly(s, ClearSlot(s, i), i)
  {
    assert SlotOk(s.recv[i]);
    if s.recv[i].open {
      OpenName(s, i);
    }
  }

  lemma CancelStep(s: Engine, e: Event, tid: u32)
    requires Says(e, {Cancelled, CancelledDisc}, 0x0E, tid)
    ensures Step(s, e) == SignalCancel(s, tid)
  {
  }

  /** A cancellation, in any of its three forms, takes exactly one holder of the id, the sender first and then the first
      receiving task, with its partial file; without a holder nothing changes. */
  lemma Cancellation(s: Engine, e: Event, tid: u32)
    requires TableOk(s) && Says(e, {Cancelled, CancelledDisc}, 0x0E, tid)
    ensures var s', i := Step(s, e), Find(s.recv, tid);
            && Holders(s', tid) == (if Holders(s, tid) == 0 then 0 else Holders(s, tid) - 1)
            && (Holders(s, tid) == 0 ==> s' == s)
            && (SendMatches(s, tid) ==> s' == s.(send := NO_SEND))
            && (!SendMatches(s, tid) && Holders(s, tid) > 0 ==> i >= 0 && DroppedOnly(s, s', i))
  {
    CancelStep(s, e, tid);
    CancelTakesOne(s, tid);
    HoldersFind(s.recv, tid, 0);
    if Find(s.recv, tid) >= 0 {
      ClearDropsOnly(s, Find(s.recv, tid));
    }
  }

  lemma CompleteStep(s: Engine, e: Event, tid: u32)
    requires Says(e, {Completed}, 0x0D, tid)
    ensures Step(s, e) ==
            if e.AnnouncementIn? && AwaitsComplete(s, tid) then s.(send := NO_SEND) else CompleteReceive(s, tid)
  {
    assert MSG_FILE_COMPLETE == 0x0D;
  }

  /** The receive in slot i is kept: its file stays, complete, and is reported. */
  predicate KeptOnly(s: Engine, s': Engine, i: int)
    requires SlotIndex(s, i)
  {
    var t := s.recv[i];
    && t.open && t.received == t.size
    && s' == s.(recv := s.recv[i := FREE], saved := s.saved + [Saved(t.tid, t.saveName, FileAt(s.disk, t.saveName))])
  }

  /** A completion confirms a sender that awaits it, if announced; otherwise it ends the first receiving task with the
      id, which keeps its file exactly when every byte was counted; otherwise nothing changes. */
  lemma CompletionSignals(s: Engine, e: Event, tid: u32)
    requires TableOk(s) && Says(e, {Completed}, 0x0D, tid)
    ensures var s', i := Step(s, e), Find(s.recv, tid);
            if e.AnnouncementIn? && AwaitsComplete(s, tid) then s' == s.(send := NO_SEND)
            else if i < 0 then s' == s
            else if s.recv[i].open && s.recv[i].received == s.recv[i].size then KeptOnly(s, s', i)
            else DroppedOnly(s, s', i)
  {
    CompleteStep(s, e, tid);
    var i := Find(s.recv, tid);
    if i >= 0 {
      ClearDropsOnly(s, i);
    }
  }

  // ---- to the receiver ----

  /** An incoming transfer takes the first free slot and the next number; on a full table only the answer goes out. */
  lemma Incoming(s: Engine, tid: u32, ok: bool)
    requires TableOk(s)
    ensures var s', i := Step(s, AnnouncementIn(RecvPending, tid, ok)), FreeSlot(s.recv);
            if i >= 0 then
              && SlotOk(s'.recv[i]) && Unfilled(s'.recv[i]) && s'.recv[i].tid == tid && s'.recv[i].order == s.nextOrder
              && s' == s.(recv := s.recv[i := s'.recv[i]], nextOrder := s.nextOrder + 1)
            else
              && s' == s.(wire := s'.wire, up := s'.up) && (s'.up <==> s.up && ok)
              && WentOut(s, s', false, Reject(tid))
  {
  }

  /** An INIT frame changes one task's details, those of the task that waits longest, and only when its payload is well
      formed. */
  lemma InitSignal(s: Engine, e: Event)
    requires TableOk(s) && e.FrameIn? && e.frame.msgType == 0x09 && |e.frame.payload| != 4
    ensures var s', f := Step(s, e), ParseInit(e.frame.payload);
            if f.None? || QueueOf(s) == [] then s' == s
            else
              var i := SlotOf(s.recv, QueueOf(s)[0].order, |s.recv|);
              && i >= 0
              && s' == s.(recv := s.recv[i := s.recv[i].(inited := true, sender := f.value.sender,
                                                         filename := f.value.filename, size := f.value.size)])
  {
    if ParseInit(e.frame.payload).Some? {
      InitDequeues(s, e.frame.payload);
    }
  }

  /** A chunk concerns the open receive with its id: slot, file, and the answer when it ends. Any other chunk is
      ignored. */
  lemma ChunkSignal(s: Engine, e: Event)
    requires TableOk(s) && e.FrameIn? && e.frame.msgType == 0x0C && |e.frame.payload| >= 12
    ensures var c, s' := ReadChunk(e.frame.payload), Step(s, e);
            var i := Find(s.recv, c.tid);
            if i < 0 || !s.recv[i].open then s' == s
            else
              && |s'.recv| == |s.recv|
              && s' == s.(recv := s.recv[i := s'.recv[i]], disk := s'.disk, wire := s'.wire, up := s'.up)
              && s'.disk - {s.recv[i].saveName} == s.disk - {s.recv[i].saveName}
              && if SpanOk(s.recv[i].size, s.recv[i].bits, c.offset, |c.data|) && e.write.Written?
                 then ChunkTaken(s, s', i, c) else ReceiveOver(s, s', i)
  {
    var c := ReadChunk(e.frame.payload);
    var i := Find(s.recv, c.tid);
    if i >= 0 && s.recv[i].open {
      ChunkVerdict(s, i, c, e.write, e.ok);
      ChunkTouches(s, i, c, e.write, e.ok);
    }
  }

  lemma ChunkTouches(s: Engine, i: int, c: ChunkIn, write: WriteResult, ok: bool)
    requires TableOk(s) && SlotIndex(s, i) && s.recv[i].open && Find(s.recv, c.tid) == i
    ensures var s' := AcceptChunk(s, c, write, ok);
            && |s'.recv| == |s.recv|
            && s' == s.(recv := s.recv[i := s'.recv[i]], disk := s'.disk, wire := s'.wire, up := s'.up)
            && s'.disk - {s.recv[i].saveName} == s.disk - {s.recv[i].saveName}
  {
    OpenName(s, i);
  }

  /** The frames of the four control signals, of INIT and of CHUNK. */
  predicate TransferFrame(f: Frame) {
    if |f.payload| == 4 then f.msgType in {0x0A, 0x0B, 0x0D, 0x0E}
    else if f.msgType == 0x09 then ParseInit(f.payload).Some?
    else f.msgType == 0x0C && |f.payload| >= 12
  }

  /** No other frame touches a transfer. */
  lemma OtherFrames(s: Engine, e: Event)
    requires e.FrameIn? && !TransferFrame(e.frame)
    ensures Step(s, e) == s
  {
  }
}
