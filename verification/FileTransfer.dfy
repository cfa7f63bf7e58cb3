/**
 src/file.c as it is written: module state updated in place. Every method is proved to do to the state what the
 function of the same role in Transfer does to its value, and the bytes handed to the connection to be the encodings,
 in order, of the messages recorded there.
 */
module FileTransfer {
  import opened Bytes
  import opened Chunks
  import opened Bitmap
  import opened Assembly
  import opened Naming
  import opened InitFrame
  import opened Decimal
  import opened Protocol
  import opened Stream
  import opened Commands
  import opened Messages
  import opened T = Transfer

  // ---- the bytes of a trace ----

  predicate MsgFits(m: Msg) {
    Fits(FrameOfMsg(m))
  }

  predicate WireFits(wire: seq<Sent>) {
    forall k :: 0 <= k < |wire| ==> MsgFits(wire[k].msg)
  }

  function WireBytes(wire: seq<Sent>): Bytes
    requires WireFits(wire)
  {
    if wire == [] then [] else WireBytes(wire[..|wire| - 1]) + Encode(FrameOfMsg(wire[|wire| - 1].msg))
  }

  function WireFrames(wire: seq<Sent>): seq<Frame> {
    if wire == [] then [] else WireFrames(wire[..|wire| - 1]) + [FrameOfMsg(wire[|wire| - 1].msg)]
  }

  lemma WireBytesStep(wire: seq<Sent>, x: Sent)
    requires WireFits(wire) && MsgFits(x.msg)
    ensures WireFits(wire + [x]) && WireBytes(wire + [x]) == WireBytes(wire) + Encode(FrameOfMsg(x.msg))
  {
  }

  /** Whoever decodes the byte stream gets the messages back, in order. */
  lemma {:induction false} WireDecodes(wire: seq<Sent>)
    requires WireFits(wire)
    ensures Decode(WireBytes(wire)) == Decoded(WireFrames(wire), [], true)
  {
    if wire != [] {
      var before, f := wire[..|wire| - 1], FrameOfMsg(wire[|wire| - 1].msg);
      WireDecodes(before);
      DecodeConcat(WireBytes(before), Encode(f));
      assert [] + Encode(f) == Encode(f);
      DecodeEncoded([f]);
      assert EncodeAll([f]) == Encode(f) + EncodeAll([]);
      assert Encode(f) + [] == Encode(f);
    }
  }

  lemma {:induction false} WireFramesRead(wire: seq<Sent>)
    requires AllSendable(wire)
    ensures |WireFrames(wire)| == |wire|
    ensures forall k :: 0 <= k < |wire| ==> MsgOf(WireFrames(wire)[k]) == Some(wire[k].msg)
  {
    if wire != [] {
      WireFramesRead(wire[..|wire| - 1]);
      MessageRoundTrip(wire[|wire| - 1].msg);
    }
  }

  /** And reads each of them as the message it was sent as. */
  lemma WireUnderstood(wire: seq<Sent>)
    requires WireFits(wire) && AllSendable(wire)
    ensures var frames := Decode(WireBytes(wire)).frames;
            && |frames| == |wire|
            && forall k :: 0 <= k < |wire| ==> MsgOf(frames[k]) == Some(wire[k].msg)
  {
    WireDecodes(wire);
    WireFramesRead(wire);
  }

  // ---- a slot in memory ----

  /** file_recv_task_t; the bitmap is a separate allocation. */
  datatype Slot = Slot(
    busy: bool, inited: bool, order: nat, tid: u32, sender: Bytes, filename: Bytes, saveName: Bytes,
    size: u64, received: nat, bitmap: array?<bv8>, open: bool)

  const EMPTY_SLOT := Slot(false, false, 0, 0, [], [], [], 0, 0, null, false)

  /** The value a slot in memory stands for. */
  ghost predicate Shows(slot: Slot, t: RecvTask)
    reads slot.bitmap
  {
    t == RecvTask(slot.busy, slot.inited, slot.order, slot.tid, slot.sender, slot.filename, slot.saveName, slot.size,
                  slot.received, if slot.bitmap == null then [] else slot.bitmap[..], slot.open)
  }

  class Transfers {
    var send: SendTask
    const slots: array<Slot>
    var recvSeq: nat
    /** downloads/. */
    var disk: Disk
    /** The connection: is it up, and what has been written to it. */
    var up: bool
    var out: Bytes
    var progress: nat
    ghost var tasks: seq<RecvTask>
    ghost var wire: seq<Sent>
    ghost var saved: seq<Saved>
    ghost var Bitmaps: set<object>

    ghost predicate Valid()
      reads this, slots, Bitmaps
    {
      && slots.Length == MAX_RECV == |tasks| && slots !in Bitmaps && this !in Bitmaps
      && (forall i :: 0 <= i < MAX_RECV && slots[i].bitmap != null ==> slots[i].bitmap in Bitmaps)
      && (forall i :: 0 <= i < MAX_RECV ==> Shows(slots[i], tasks[i]))
      && (forall i, j :: 0 <= i < j < MAX_RECV && slots[i].bitmap != null ==> slots[i].bitmap != slots[j].bitmap)
      && WireFits(wire) && out == WireBytes(wire)
    }

    ghost function State(): Engine
      reads this
    {
      Engine(send, tasks, recvSeq, disk, wire, up, saved, progress)
    }

    constructor (disk: Disk)
      ensures Valid() && State() == Start(disk) && fresh(slots) && Bitmaps == {}
    {
      send := NO_SEND;
      slots := new Slot[MAX_RECV](_ => EMPTY_SLOT);
      recvSeq := 0;
      this.disk := disk;
      up := true;
      out := [];
      progress := 0;
      tasks := seq(MAX_RECV, _ => FREE);
      wire := [];
      saved := [];
      Bitmaps := {};
    }

    // ---- the connection ----

    /** conn_send_all. */
    method SendAll(frame: Bytes, ghost bySender: bool, ghost msg: Msg, ok: bool) returns (sent: bool)
      requires Valid() && MsgFits(msg) && frame == Encode(FrameOfMsg(msg))
      modifies this`up, this`out, this`wire
      ensures Valid() && State() == Transmit(old(State()), bySender, msg, ok) && sent == up
    {
      if up && ok {
        WireBytesStep(wire, Sent(bySender, msg));
        out := out + frame;
        wire := wire + [Sent(bySender, msg)];
      } else {
        up := false;
      }
      sent := up;
    }

    /** protocol_build_tid and conn_send_all. */
    method SendTid(msgType: byte, tid: u32, ghost bySender: bool, ghost msg: Msg, ok: bool) returns (sent: bool)
      requires Valid() && FrameOfMsg(msg) == Frame(msgType, TidPayload(tid))
      modifies this`up, this`out, this`wire
      ensures Valid() && State() == Transmit(old(State()), bySender, msg, ok) && sent == up
    {
      var frame := new byte[HEADER_SIZE + 4];
      var n := BuildTid(msgType, tid, frame);
      PrefixOf(frame[..], Encode(FrameOfMsg(msg)));
      sent := SendAll(frame[..n], bySender, msg, ok);
    }

    // ---- scans ----

    method TaskFind(tid: u32) returns (i: int)
      requires Valid()
      ensures i == Find(tasks, tid)
    {
      i := 0;
      while i < slots.Length
        invariant 0 <= i <= |tasks| && Find(tasks, tid) == FindFrom(tasks, tid, i)
      {
        assert Shows(slots[i], tasks[i]);
        if slots[i].busy && slots[i].tid == tid {
          return;
        }
        i := i + 1;
      }
      i := -1;
    }

    method TaskActive() returns (i: int)
      requires Valid()
      ensures i == ActiveSlot(tasks)
    {
      i := 0;
      while i < slots.Length
        invariant 0 <= i <= |tasks| && ActiveSlot(tasks) == ActiveFrom(tasks, i)
      {
        assert Shows(slots[i], tasks[i]);
        if slots[i].busy && slots[i].open {
          return;
        }
        i := i + 1;
      }
      i := -1;
    }

    method TaskSlot() returns (i: int)
      requires Valid()
      ensures i == FreeSlot(tasks)
    {
      i := 0;
      while i < slots.Length
        invariant 0 <= i <= |tasks| && FreeSlot(tasks) == FreeFrom(tasks, i)
      {
        assert Shows(slots[i], tasks[i]);
        if !slots[i].busy {
          return;
        }
        i := i + 1;
      }
      i := -1;
    }

    // ---- one slot ----

    /** Overwrites a slot; the bitmap is kept, freed, or a fresh one. */
    method PutSlot(i: int, slot: Slot, ghost t: RecvTask)
      requires Valid() && 0 <= i < MAX_RECV && Shows(slot, t)
      requires slot.bitmap == null || slot.bitmap == slots[i].bitmap
               || (slot.bitmap !in Bitmaps && slot.bitmap as object !in {slots, this})
      modifies slots, this`tasks, this`Bitmaps
      ensures Valid() && State() == old(State()).(recv := old(tasks)[i := t]) && slots[i] == slot
      ensures Bitmaps == old(Bitmaps) + if slot.bitmap == null then {} else {slot.bitmap}
    {
      slots[i] := slot;
      tasks := tasks[i := t];
      if slot.bitmap != null {
        Bitmaps := Bitmaps + {slot.bitmap};
      }
    }

    /** recv_task_clear. */
    method TaskClear(i: int)
      requires Valid() && 0 <= i < MAX_RECV
      modifies slots, this`disk, this`tasks, this`Bitmaps
      ensures Valid() && State() == ClearSlot(old(State()), i) && Bitmaps == old(Bitmaps)
    {
      assert Shows(slots[i], tasks[i]);
      if slots[i].saveName != [] && JoinFits(slots[i].saveName) {
        disk := disk - {slots[i].saveName};
      }
      PutSlot(i, EMPTY_SLOT, FREE);
    }

    /** recv_task_finish. */
    method TaskFinish(i: int)
      requires Valid() && 0 <= i < MAX_RECV
      modifies slots, this`disk, this`tasks, this`Bitmaps, this`saved
      ensures Valid() && State() == FinishSlot(old(State()), i) && Bitmaps == old(Bitmaps)
    {
      var slot := slots[i];
      assert Shows(slot, tasks[i]);
      var ok := slot.received == slot.size;
      if ok {
        saved := saved + [Saved(slot.tid, slot.saveName, FileAt(disk, slot.saveName))];
        PutSlot(i, slot.(saveName := []), tasks[i].(saveName := []));
      }
      TaskClear(i);
    }

    /** recv_task_complete. */
    method TaskComplete(tid: u32)
      requires Valid()
      modifies slots, this`disk, this`tasks, this`Bitmaps, this`saved
      ensures Valid() && State() == CompleteReceive(old(State()), tid) && Bitmaps == old(Bitmaps)
    {
      var i := TaskFind(tid);
      if i < 0 {
        return;
      }
      assert Shows(slots[i], tasks[i]);
      if slots[i].open {
        TaskFinish(i);
      } else {
        TaskClear(i);
      }
    }

    /** recv_task_abort. */
    method TaskAbort(i: int, ok: bool)
      requires Valid() && 0 <= i < MAX_RECV
      modifies slots, this`disk, this`tasks, this`Bitmaps, this`up, this`out, this`wire
      ensures Valid() && State() == AbortSlot(old(State()), i, ok) && Bitmaps == old(Bitmaps)
    {
      assert Shows(slots[i], tasks[i]);
      var _ := SendTid(MSG_FILE_CANCEL, slots[i].tid, false, T.Cancel(slots[i].tid), ok);
      TaskClear(i);
    }

    /** recv_task_reject. */
    method TaskReject(i: int, ok: bool)
      requires Valid() && 0 <= i < MAX_RECV
      modifies slots, this`disk, this`tasks, this`Bitmaps, this`up, this`out, this`wire
      ensures Valid() && State() == RejectSlot(old(State()), i, ok) && Bitmaps == old(Bitmaps)
    {
      assert Shows(slots[i], tasks[i]);
      var _ := SendTid(MSG_FILE_REJECT, slots[i].tid, false, T.Reject(slots[i].tid), ok);
      TaskClear(i);
    }

    // ---- receiving ----

    /** recv_announce_incoming. */
    method AnnounceIncoming(tid: u32, ok: bool)
      requires Valid()
      modifies slots, this`tasks, this`Bitmaps, this`recvSeq, this`up, this`out, this`wire
      ensures Valid() && State() == T.AnnounceIncoming(old(State()), tid, ok) && Bitmaps == old(Bitmaps)
    {
      var i := TaskSlot();
      if i < 0 {
        var _ := SendTid(MSG_FILE_REJECT, tid, false, T.Reject(tid), ok);
        return;
      }
      PutSlot(i, EMPTY_SLOT.(busy := true, tid := tid, order := recvSeq),
              FREE.(busy := true, tid := tid, order := recvSeq));
      recvSeq := recvSeq + 1;
    }

    /** The scan of recv_handle_init. */
    method OldestUnfilled() returns (best: int)
      requires Valid()
      ensures best == Oldest(tasks, |tasks|)
    {
      best := -1;
      var bestOrder := 0;
      for i := 0 to slots.Length
        invariant best == Oldest(tasks, i)
        invariant best >= 0 ==> bestOrder == tasks[best].order
      {
        var slot := slots[i];
        assert Shows(slot, tasks[i]);
        if slot.busy && !slot.inited && (best == -1 || slot.order < bestOrder) {
          best, bestOrder := i, slot.order;
        }
      }
    }

    /** recv_handle_init. */
    method HandleInit(payload: Bytes)
      requires Valid()
      modifies slots, this`tasks, this`Bitmaps
      ensures Valid() && State() == T.HandleInit(old(State()), payload) && Bitmaps == old(Bitmaps)
    {
      var f := ParseInit(payload);
      if f.None? {
        return;
      }
      var best := OldestUnfilled();
      if best >= 0 {
        var slot := slots[best];
        assert Shows(slot, tasks[best]);
        var x := f.value;
        PutSlot(best, slot.(inited := true, sender := x.sender, filename := x.filename, size := x.size),
                tasks[best].(inited := true, sender := x.sender, filename := x.filename, size := x.size));
        assert slot.bitmap != null ==> Bitmaps == old(Bitmaps);
      }
    }

    /** file_recv_span_check on a slot; without a bitmap its length is zero and every span is refused. */
    method SlotCheck(i: int, offset: nat, length: nat) returns (code: int)
      requires Valid() && 0 <= i < MAX_RECV
      ensures code == 0 || code == -1
      ensures code == 0 <==> SpanOk(tasks[i].size, tasks[i].bits, offset, length)
    {
      assert Shows(slots[i], tasks[i]);
      if slots[i].bitmap == null {
        return -1;
      }
      code := SpanCheck(slots[i].size, slots[i].bitmap, offset, length);
    }

    /** A task with one more chunk of n bytes. */
    ghost function Marked(t: RecvTask, offset: nat, n: nat): RecvTask
      requires SpanOk(t.size, t.bits, offset, n)
    {
      t.(bits := Mark(t.bits, offset / CHUNK), received := t.received + n)
    }

    /** The bit, in place. */
    method MarkBit(i: int, offset: nat)
      requires Valid() && 0 <= i < MAX_RECV && ByteIndex(|tasks[i].bits|, offset).Some?
      modifies Bitmaps, this`tasks
      ensures Valid() && Bitmaps == old(Bitmaps)
      ensures tasks == old(tasks)[i := old(tasks[i]).(bits := Mark(old(tasks[i].bits), offset / CHUNK))]
    {
      assert Shows(slots[i], tasks[i]);
      var bitmap := slots[i].bitmap;
      var _ := SpanMark(bitmap, offset);
      tasks := tasks[i := tasks[i].(bits := bitmap[..])];
      OtherSlotsShow(i);
    }

    /** The bit, then the counter. */
    method SlotMark(i: int, offset: nat, n: nat)
      requires Valid() && 0 <= i < MAX_RECV && SpanOk(tasks[i].size, tasks[i].bits, offset, n)
      modifies slots, Bitmaps, this`tasks, this`Bitmaps
      ensures Valid() && Bitmaps == old(Bitmaps)
      ensures State() == old(State()).(recv := old(tasks)[i := Marked(old(tasks[i]), offset, n)])
    {
      MarkBit(i, offset);
      AddReceived(i, n);
    }

    method AddReceived(i: int, n: nat)
      requires Valid() && 0 <= i < MAX_RECV
      modifies slots, this`tasks, this`Bitmaps
      ensures Valid() && Bitmaps == old(Bitmaps)
      ensures State() == old(State()).(recv := old(tasks)[i := old(tasks[i]).(received := old(tasks[i].received) + n)])
    {
      var slot := slots[i];
      assert Shows(slot, tasks[i]);
      PutSlot(i, slot.(received := slot.received + n), tasks[i].(received := slot.received + n));
      assert slot.bitmap != null ==> Bitmaps == old(Bitmaps);
    }

    /** Changing one slot's bitmap does not show in the others. */
    twostate lemma OtherSlotsShow(i: int)
      requires old(Valid()) && slots.Length == |tasks| == MAX_RECV && 0 <= i < MAX_RECV
      requires forall k :: 0 <= k < MAX_RECV && k != i ==> slots[k] == old(slots[k]) && tasks[k] == old(tasks[k])
      requires old(slots[i].bitmap) != null
      requires forall b: array<bv8> ::
                 old(allocated(b)) && b in old(Bitmaps) && b != old(slots[i].bitmap) ==> b[..] == old(b[..])
      ensures forall k :: 0 <= k < MAX_RECV && k != i ==> Shows(slots[k], tasks[k])
    {
      forall k | 0 <= k < MAX_RECV && k != i ensures Shows(slots[k], tasks[k]) {
        assert old(Shows(slots[k], tasks[k]));
      }
    }

    /** fseek and fwrite, when they succeed. */
    method WriteFile(i: int, offset: nat, data: Bytes)
      requires Valid() && 0 <= i < MAX_RECV
      modifies this`disk
      ensures Valid()
      ensures var name := tasks[i].saveName;
              disk == old(disk)[name := WriteAt(FileAt(old(disk), name), offset, data)]
    {
      assert Shows(slots[i], tasks[i]);
      var name := slots[i].saveName;
      disk := disk[name := WriteAt(FileAt(disk, name), offset, data)];
    }

    /** The positioned write that succeeds, and its bookkeeping. */
    method StoreChunk(i: int, offset: nat, data: Bytes)
      requires Valid() && 0 <= i < MAX_RECV && SpanOk(tasks[i].size, tasks[i].bits, offset, |data|)
      modifies slots, Bitmaps, this`disk, this`tasks, this`Bitmaps
      ensures Valid() && State() == T.StoreChunk(old(State()), i, offset, data) && Bitmaps == old(Bitmaps)
    {
      WriteFile(i, offset, data);
      SlotMark(i, offset, |data|);
    }

    /** A chunk for a task that is receiving. */
    method ChunkInto(i: int, c: ChunkIn, write: WriteResult, ok: bool)
      requires Valid() && Find(tasks, c.tid) == i >= 0 && tasks[i].open
      modifies this, slots, Bitmaps
      ensures Valid() && State() == AcceptChunk(old(State()), c, write, ok) && Bitmaps == old(Bitmaps)
    {
      var code := SlotCheck(i, c.offset, |c.data|);
      if code == 0 && write.Written? {
        StoreChunk(i, c.offset, c.data);
      } else {
        if code == 0 {
          assert Shows(slots[i], tasks[i]);
          disk := disk[slots[i].saveName := write.left];
        }
        TaskAbort(i, ok);
      }
    }

    /** recv_handle_chunk behind the frame's own fields. */
    method ReceiveChunk(c: ChunkIn, write: WriteResult, ok: bool)
      requires Valid()
      modifies this, slots, Bitmaps
      ensures Valid() && State() == AcceptChunk(old(State()), c, write, ok) && Bitmaps == old(Bitmaps)
    {
      var i := TaskFind(c.tid);
      if i >= 0 {
        assert Shows(slots[i], tasks[i]);
        if slots[i].open {
          ChunkInto(i, c, write, ok);
        }
      }
    }

    /** recv_handle_chunk. */
    method HandleChunk(payload: Bytes, write: WriteResult, ok: bool)
      requires Valid()
      modifies this, slots, Bitmaps
      ensures Valid() && State() == T.HandleChunk(old(State()), payload, write, ok) && Bitmaps == old(Bitmaps)
    {
      if |payload| >= 12 {
        ReceiveChunk(ReadChunk(payload), write, ok);
      }
    }

    // ---- signals ----

    /** send_task_clear. */
    method SendClear()
      requires Valid()
      modifies this`send
      ensures Valid() && State() == old(State()).(send := NO_SEND)
    {
      send := NO_SEND;
    }

    method OnAccept(tid: u32)
      requires Valid()
      modifies this`send
      ensures Valid() && State() == SignalAccept(old(State()), tid)
    {
      if send.busy && send.tid == tid && send.state == T.Pending {
        send := send.(state := Active);
      }
    }

    method OnReject(tid: u32)
      requires Valid()
      modifies this`send
      ensures Valid() && State() == SignalReject(old(State()), tid)
    {
      if send.busy && send.tid == tid {
        SendClear();
      }
    }

    method OnCancel(tid: u32)
      requires Valid()
      modifies slots, this`send, this`disk, this`tasks, this`Bitmaps
      ensures Valid() && State() == SignalCancel(old(State()), tid) && Bitmaps == old(Bitmaps)
    {
      if send.busy && send.tid == tid {
        SendClear();
        return;
      }
      var i := TaskFind(tid);
      if i >= 0 {
        TaskClear(i);
      }
    }

    /** file_handle_announcement, the text already classified. */
    method HandleAnnouncement(kind: AnnKind, tid: u32, ok: bool)
      requires Valid()
      modifies this, slots
      ensures Valid() && State() == Announcement(old(State()), kind, tid, ok) && Bitmaps == old(Bitmaps)
    {
      match kind
      case SendPending =>
        if send.busy && send.state == PendingTid {
          send := send.(tid := tid, state := T.Pending);
        }
      case Accepted => OnAccept(tid);
      case Rejected => OnReject(tid);
      case Cancelled => OnCancel(tid);
      case CancelledDisc => OnCancel(tid);
      case Completed =>
        if send.busy && send.tid == tid && send.state == WaitComplete {
          SendClear();
        } else {
          TaskComplete(tid);
        }
      case RecvPending => AnnounceIncoming(tid, ok);
    }

    /** The control frames of file_handle_frame. */
    method HandleControl(msgType: byte, tid: u32)
      requires Valid()
      modifies this, slots
      ensures Valid() && State() == ControlSignal(old(State()), msgType, tid) && Bitmaps == old(Bitmaps)
    {
      if msgType == MSG_FILE_ACCEPT {
        OnAccept(tid);
      } else if msgType == MSG_FILE_REJECT {
        OnReject(tid);
      } else if msgType == MSG_FILE_CANCEL {
        OnCancel(tid);
      } else if msgType == MSG_FILE_COMPLETE {
        TaskComplete(tid);
      }
    }

    /** file_handle_frame. */
    method HandleFrame(f: Frame, write: WriteResult, ok: bool)
      requires Valid()
      modifies this, slots, Bitmaps
      ensures Valid() && State() == T.HandleFrame(old(State()), f, write, ok) && Bitmaps == old(Bitmaps)
    {
      if |f.payload| == 4 {
        HandleControl(f.msgType, ReadU32(f.payload));
      } else if f.msgType == MSG_FILE_INIT {
        HandleInit(f.payload);
      } else if f.msgType == MSG_FILE_CHUNK {
        HandleChunk(f.payload, write, ok);
      }
    }

    /** file_handle_error. */
    method HandleError(code: int)
      requires Valid()
      modifies slots, this`send, this`disk, this`tasks, this`Bitmaps
      ensures Valid() && State() == T.HandleError(old(State()), code) && Bitmaps == old(Bitmaps)
    {
      if code == ERR_NO_SUCH_USER {
        if send.busy && send.state == PendingTid {
          SendClear();
        }
      } else if code == ERR_TRANSFER_STATE {
        if send.busy {
          SendClear();
        }
        var i := TaskActive();
        if i >= 0 {
          TaskClear(i);
        }
      }
    }

    // ---- commands ----

    /** file_cmd_sendfile; line is the whole input line, probe what the file system says about the file. */
    method CmdSendfile(line: Bytes, probe: FileProbe, ok: bool) returns (rc: int)
      requires Valid() && |"/sendfile"| <= |line|
      modifies this`send, this`up, this`out, this`wire
      ensures Valid()
      ensures match SplitSendfile(line[|"/sendfile"|..])
              case None => State() == old(State()) && rc == 0
              case Some(a) =>
                && Outcome(State(), rc) == T.SendFile(old(State()), a.name, a.text, probe, ok)
                && (NulFree(line) && !old(send.busy) && send.busy ==>
                      old(out) <= out && InitOnWire(out[|old(out)|..], a.name, a.text, |probe.content|))
    {
      var args := ParseSendfile(line, |"/sendfile"|);
      if args.None? || send.busy || !probe.Opened? || |probe.content| == 0 {
        return 0;
      }
      var target, filename := args.value.name, args.value.text;
      var size: u64 := |probe.content|;
      send := SendTask(true, 0, target, filename, size, 0, PROGRESS_INTERVAL, Some(Source(probe.content, 0)),
                       PendingTid);
      if NulFree(line) {
        SendfileParts(line, |"/sendfile"|);
      }
      var sent := SendInit(target, filename, size, ok);
      if !sent {
        SendClear();
        return -1;
      }
      return 0;
    }

    /** protocol_build_text3 and conn_send_all, in the buffer of file_cmd_sendfile. */
    method SendInit(target: Bytes, filename: Bytes, size: u64, ok: bool) returns (sent: bool)
      requires Valid() && |target| < SENDER_SIZE && |filename| < FILENAME_SIZE
      modifies this`up, this`out, this`wire
      ensures Valid() && State() == Transmit(old(State()), true, Init(target, filename, size), ok) && sent == up
      ensures sent && Sendable(Init(target, filename, size)) ==>
                old(out) <= out && InitOnWire(out[|old(out)|..], target, filename, size)
    {
      InitPayloadFits(target, filename, size);
      var frame := new byte[HEADER_SIZE + SENDER_SIZE + FILENAME_SIZE + 32];
      var n := BuildText3(MSG_FILE_INIT, target, filename, Digits(size), frame);
      ghost var payload := Text3Payload(target, filename, Digits(size));
      CastIsEncoding(MSG_FILE_INIT, payload);
      PrefixOf(frame[..], CastFrame(MSG_FILE_INIT, payload));
      sent := SendAll(frame[..n], true, Init(target, filename, size), ok);
      if sent {
        WireBytesStep(old(wire), Sent(true, Init(target, filename, size)));
        assert out[|old(out)|..] == Encode(FrameOfMsg(Init(target, filename, size)));
        if Sendable(Init(target, filename, size)) {
          InitBytes(target, filename, size);
        }
      }
    }

    /** file_cmd_cancel. */
    method CmdCancel(line: Bytes, ok: bool) returns (rc: int)
      requires Valid() && |"/cancel"| <= |line|
      modifies this, slots
      ensures Valid() && Bitmaps == old(Bitmaps)
      ensures match TidArg(line[|"/cancel"|..])
              case None => State() == old(State()) && rc == 0
              case Some(tid) => Outcome(State(), rc) == CancelCmd(old(State()), tid, ok)
    {
      var arg := ParseTidArg(line[|"/cancel"|..]);
      if arg.None? {
        return 0;
      }
      var tid := arg.value;
      if send.busy && send.tid == tid {
        var sent := SendTid(MSG_FILE_CANCEL, tid, true, T.Cancel(tid), ok);
        if !sent {
          return -1;
        }
        SendClear();
        return 0;
      }
      var i := TaskFind(tid);
      if i < 0 {
        return 0;
      }
      var sent := SendTid(MSG_FILE_CANCEL, tid, false, T.Cancel(tid), ok);
      if !sent {
        return -1;
      }
      TaskClear(i);
      return 0;
    }

    /** file_cmd_reject. */
    method CmdReject(line: Bytes, ok: bool) returns (rc: int)
      requires Valid() && |"/reject"| <= |line|
      modifies this, slots
      ensures Valid() && Bitmaps == old(Bitmaps)
      ensures match TidArg(line[|"/reject"|..])
              case None => State() == old(State()) && rc == 0
              case Some(tid) => Outcome(State(), rc) == RejectCmd(old(State()), tid, ok)
    {
      var arg := ParseTidArg(line[|"/reject"|..]);
      if arg.None? {
        return 0;
      }
      var i := TaskFind(arg.value);
      if i < 0 {
        return 0;
      }
      assert Shows(slots[i], tasks[i]);
      if slots[i].open {
        return 0;
      }
      var sent := SendTid(MSG_FILE_REJECT, arg.value, false, T.Reject(arg.value), ok);
      if !sent {
        return -1;
      }
      TaskClear(i);
      return 0;
    }

    /** file_cmd_accept. */
    method CmdAccept(line: Bytes, io: AcceptIo) returns (rc: int)
      requires Valid() && |"/accept"| <= |line|
      modifies this, slots
      ensures Valid()
      ensures match TidArg(line[|"/accept"|..])
              case None => State() == old(State()) && rc == 0
              case Some(tid) => Outcome(State(), rc) == AcceptCmd(old(State()), tid, io)
    {
      var arg := ParseTidArg(line[|"/accept"|..]);
      if arg.None? {
        return 0;
      }
      var i := TaskFind(arg.value);
      var active := TaskActive();
      if i < 0 {
        return 0;
      }
      assert Shows(slots[i], tasks[i]);
      if slots[i].open || active >= 0 || !slots[i].inited {
        return 0;
      }
      rc := AcceptTask(i, arg.value, io);
    }

    /** The part of file_cmd_accept that prepares the file. */
    method AcceptTask(i: int, tid: u32, io: AcceptIo) returns (rc: int)
      requires Valid() && Find(tasks, tid) == i >= 0
      requires !tasks[i].open && ActiveSlot(tasks) < 0 && tasks[i].inited
      modifies this, slots
      ensures Valid() && Outcome(State(), rc) == AcceptCmd(old(State()), tid, io)
    {
      var slot := slots[i];
      assert Shows(slot, tasks[i]);
      if slot.size == 0 {
        TaskReject(i, io.sendOk);
        return 0;
      }
      var base := SanitizedName(slot.filename);
      if base.None? {
        TaskReject(i, io.sendOk);
        return 0;
      }
      var name := FindUniqueName(base.value, NameTaken(disk.Keys), MAX_FILENAME_LEN);
      if name.None? {
        TaskReject(i, io.sendOk);
        return 0;
      }
      PutSlot(i, slot.(saveName := name.value), tasks[i].(saveName := name.value));
      rc := OpenTask(i, io);
    }

    /** The rest of it: directory, bitmap, file, ACCEPT frame. */
    method OpenTask(i: int, io: AcceptIo) returns (rc: int)
      requires Valid() && 0 <= i < MAX_RECV
      modifies this, slots
      ensures Valid() && Outcome(State(), rc) == AcceptAs(old(State()), i, io)
    {
      if !io.dirOk || !io.memOk {
        TaskReject(i, io.sendOk);
        return 0;
      }
      var slot := slots[i];
      assert Shows(slot, tasks[i]);
      NewBitmap(i);
      if !JoinFits(slot.saveName) || !io.openOk {
        TaskReject(i, io.sendOk);
        return 0;
      }
      assert Shows(slots[i], tasks[i]);
      disk := disk[slot.saveName := []];
      PutSlot(i, slots[i].(open := true), tasks[i].(open := true));
      var sent := SendTid(MSG_FILE_ACCEPT, slot.tid, false, T.Accept(slot.tid), io.sendOk);
      if !sent {
        TaskClear(i);
        return -1;
      }
      return 0;
    }

    /** malloc and memset of the bitmap. */
    method NewBitmap(i: int)
      requires Valid() && 0 <= i < MAX_RECV
      modifies slots, this`tasks, this`Bitmaps
      ensures Valid()
      ensures var t := old(tasks[i]);
              State() == old(State()).(recv := old(tasks)[i := t.(bits := ZeroBits(BitmapLength(t.size)))])
    {
      assert Shows(slots[i], tasks[i]);
      var bitmap := new bv8[BitmapLength(slots[i].size)](_ => 0);
      assert bitmap[..] == ZeroBits(BitmapLength(tasks[i].size));
      PutSlot(i, slots[i].(bitmap := bitmap), tasks[i].(bits := bitmap[..]));
    }

    // ---- the send tick ----

    /** protocol_build_chunk and conn_send_all. */
    method SendChunkFrame(tid: u32, offset: u64, data: Bytes, ok: bool) returns (sent: bool)
      requires Valid() && |data| <= CHUNK
      modifies this`up, this`out, this`wire
      ensures Valid() && State() == Transmit(old(State()), true, Chunk(tid, offset, data), ok) && sent == up
    {
      var frame := new byte[HEADER_SIZE + 12 + CHUNK];
      var n := BuildChunk(tid, offset, data, frame);
      ghost var payload := ChunkPayload(tid, offset, data);
      CastIsEncoding(MSG_FILE_CHUNK, payload);
      PrefixOf(frame[..], CastFrame(MSG_FILE_CHUNK, payload));
      sent := SendAll(frame[..n], true, Chunk(tid, offset, data), ok);
    }

    /** The body of the chunk loop of file_send_tick. */
    method SendOneChunk(io: ChunkIo) returns (halted: bool, rc: int)
      requires Valid()
      modifies this`send, this`up, this`out, this`wire, this`progress
      ensures Valid() && Pass(State(), halted, rc) == SendChunk(old(State()), io)
    {
      var index := send.sent / CHUNK;
      var span := Plan(send.size, CHUNK, index);
      if span.None? {
        SendClear();
        return true, 0;
      }
      PlanBounds(send.size, CHUNK, index);
      var data := Read(send.fp, span.value.length, io.readOk);
      if data.None? {
        var _ := SendTid(MSG_FILE_CANCEL, send.tid, true, T.Cancel(send.tid), io.sendOk);
        SendClear();
        return true, 0;
      }
      var sent := SendChunkFrame(send.tid, span.value.offset, data.value, io.sendOk);
      if !sent {
        SendClear();
        return true, -1;
      }
      CountSent(span.value.length);
      return false, 0;
    }

    /** The count, the file cursor, and a progress line when a mark is crossed. */
    method CountSent(n: nat)
      requires Valid()
      modifies this`send, this`progress
      ensures Valid() && State() == CountChunk(old(State()), n)
    {
      var total := send.sent + n;
      var crossed := total >= send.mark;
      send := send.(sent := total, fp := Advance(send.fp, n));
      if crossed {
        send := send.(mark := send.mark + PROGRESS_INTERVAL);
        progress := progress + 1;
      }
    }

    /** The chunk loop of file_send_tick. */
    method SendRound(io: TickIo) returns (halted: bool, rc: int)
      requires Valid()
      modifies this`send, this`up, this`out, this`wire, this`progress
      ensures Valid() && Pass(State(), halted, rc) == SendChunks(old(State()), io)
    {
      var i := 0;
      assert io[0..] == io;
      while i < CHUNKS_PER_ROUND && send.sent < send.size
        invariant Valid() && 0 <= i <= CHUNKS_PER_ROUND
        invariant SendChunks(State(), io[i..]) == SendChunks(old(State()), io)
      {
        halted, rc := SendOneChunk(io[i]);
        assert io[i..][1..] == io[i + 1..];
        if halted {
          return;
        }
        i := i + 1;
      }
      return false, 0;
    }

    /** file_send_tick. */
    method SendTick(io: TickIo) returns (rc: int)
      requires Valid()
      modifies this`send, this`up, this`out, this`wire, this`progress
      ensures Valid() && Outcome(State(), rc) == Tick(old(State()), io)
    {
      if !send.busy || (send.state != Active && send.state != Done) {
        return 0;
      }
      if send.state == Done {
        var sent := SendTid(MSG_FILE_COMPLETE, send.tid, true, Complete(send.tid), io[0].sendOk);
        if !sent {
          return -1;
        }
        send := send.(state := WaitComplete);
        return 0;
      }
      var halted;
      halted, rc := SendRound(io);
      if halted {
        return;
      }
      if send.sent >= send.size {
        send := send.(state := Done);
      }
      return 0;
    }

    /** file_reset_all. */
    method Reset()
      requires Valid()
      modifies slots, this`send, this`disk, this`tasks, this`Bitmaps
      ensures Valid() && State() == ResetAll(old(State())) && Bitmaps == old(Bitmaps)
    {
      if send.busy {
        SendClear();
      }
      var i := 0;
      while i < slots.Length
        invariant Valid() && 0 <= i <= |tasks| && Bitmaps == old(Bitmaps)
        invariant ResetSlots(State(), i) == ResetAll(old(State()))
      {
        assert Shows(slots[i], tasks[i]);
        if slots[i].busy {
          TaskClear(i);
        }
        i := i + 1;
      }
    }
  }
}
