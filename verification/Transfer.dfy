/**
 The transfer engine of src/file.c on values: its module state, one function for each C function that changes it, and
 the events that drive it. The class in FileTransfer.dfy updates the state in place and is proved against this module.
 Whatever the environment decides (does a write succeed, is the connection still up) is a parameter of the event.
 */
module Transfer {
  import opened Bytes
  import opened Chunks
  import opened Bitmap
  import opened Assembly
  import opened Naming
  import opened InitFrame
  import opened Decimal
  import opened Protocol

  const MAX_RECV: nat := 8
  const CHUNKS_PER_ROUND: nat := 2
  const PROGRESS_INTERVAL: nat := 0x10_0000
  const ERR_NO_SUCH_USER := 200
  const ERR_TRANSFER_STATE := 300

  /** File sizes come from ftell, a 64-bit long. */
  type FileBytes = b: Bytes | |b| < 0x8000_0000_0000_0000

  // ---- state ----

  datatype SendState = NoSend | PendingTid | Pending | Active | Done | WaitComplete

  /** A file open for reading and its cursor. */
  datatype Source = Source(content: FileBytes, pos: nat)

  datatype SendTask = SendTask(
    busy: bool, tid: u32, target: Bytes, filename: Bytes, size: u64, sent: nat, mark: nat,
    fp: Option<Source>, state: SendState)

  const NO_SEND := SendTask(false, 0, [], [], 0, 0, 0, None, NoSend)

  /** open says that the task holds its file open for writing; order is the announcement's sequence number. */
  datatype RecvTask = RecvTask(
    busy: bool, inited: bool, order: nat, tid: u32, sender: Bytes, filename: Bytes, saveName: Bytes,
    size: u64, received: nat, bits: Bits, open: bool)

  const FREE := RecvTask(false, false, 0, 0, [], [], [], 0, 0, [], false)

  /** The messages the engine puts on the wire. */
  datatype Msg =
    | Init(target: Bytes, filename: Bytes, size: u64)
    | Accept(tid: u32)
    | Reject(tid: u32)
    | Chunk(tid: u32, offset: nat, data: Bytes)
    | Complete(tid: u32)
    | Cancel(tid: u32)

  /** The frame that carries a message. */
  function FrameOfMsg(m: Msg): Frame {
    match m
    case Init(target, filename, size) => Frame(MSG_FILE_INIT, Text3Payload(target, filename, Digits(size)))
    case Accept(tid) => Frame(MSG_FILE_ACCEPT, TidPayload(tid))
    case Reject(tid) => Frame(MSG_FILE_REJECT, TidPayload(tid))
    case Chunk(tid, offset, data) => Frame(MSG_FILE_CHUNK, ChunkPayload(tid, offset, data))
    case Complete(tid) => Frame(MSG_FILE_COMPLETE, TidPayload(tid))
    case Cancel(tid) => Frame(MSG_FILE_CANCEL, TidPayload(tid))
  }

  datatype Sent = Sent(bySender: bool, msg: Msg)

  /** The notice that a received file was verified and kept. */
  datatype Saved = Saved(tid: u32, name: Bytes, content: Bytes)

  /** The contents of downloads/. */
  type Disk = map<Bytes, Bytes>

  datatype Engine = Engine(
    send: SendTask, recv: seq<RecvTask>, nextOrder: nat, disk: Disk,
    wire: seq<Sent>, up: bool, saved: seq<Saved>, progress: nat)

  function Start(disk: Disk): Engine {
    Engine(NO_SEND, seq(MAX_RECV, _ => FREE), 0, disk, [], true, [], 0)
  }

  /** The new state and the value the C function returns. */
  datatype Outcome = Outcome(s: Engine, rc: int)

  // ---- the connection ----

  /** conn_send_all: the whole frame, or failure for good. */
  function Transmit(s: Engine, bySender: bool, msg: Msg, ok: bool): Engine {
    if s.up && ok then s.(wire := s.wire + [Sent(bySender, msg)]) else s.(up := false)
  }

  // ---- finding slots ----

  predicate SendMatches(s: Engine, tid: u32) {
    s.send.busy && s.send.tid == tid
  }

  /** recv_task_find: the first busy slot with this id, or -1. */
  function FindFrom(recv: seq<RecvTask>, tid: u32, i: nat): (r: int)
    requires i <= |recv|
    ensures r == -1 || i <= r < |recv|
    ensures r >= 0 ==> recv[r].busy && recv[r].tid == tid
    ensures forall j :: i <= j < (if r >= 0 then r else |recv|) ==> !(recv[j].busy && recv[j].tid == tid)
    decreases |recv| - i
  {
    if i == |recv| then -1 else if recv[i].busy && recv[i].tid == tid then i else FindFrom(recv, tid, i + 1)
  }

  function Find(recv: seq<RecvTask>, tid: u32): int {
    FindFrom(recv, tid, 0)
  }

  /** recv_task_active. */
  function ActiveFrom(recv: seq<RecvTask>, i: nat): (r: int)
    requires i <= |recv|
    ensures r == -1 || i <= r < |recv|
    ensures r >= 0 ==> recv[r].busy && recv[r].open
    ensures forall j :: i <= j < (if r >= 0 then r else |recv|) ==> !(recv[j].busy && recv[j].open)
    decreases |recv| - i
  {
    if i == |recv| then -1 else if recv[i].busy && recv[i].open then i else ActiveFrom(recv, i + 1)
  }

  function ActiveSlot(recv: seq<RecvTask>): int {
    ActiveFrom(recv, 0)
  }

  /** recv_task_slot. */
  function FreeFrom(recv: seq<RecvTask>, i: nat): (r: int)
    requires i <= |recv|
    ensures r == -1 || i <= r < |recv|
    ensures r >= 0 ==> !recv[r].busy
    ensures forall j :: i <= j < (if r >= 0 then r else |recv|) ==> recv[j].busy
    decreases |recv| - i
  {
    if i == |recv| then -1 else if !recv[i].busy then i else FreeFrom(recv, i + 1)
  }

  function FreeSlot(recv: seq<RecvTask>): int {
    FreeFrom(recv, 0)
  }

  predicate Unfilled(t: RecvTask) {
    t.busy && !t.inited
  }

  /** The scan of recv_handle_init: the unfilled task with the smallest order among the first n slots. */
  function Oldest(recv: seq<RecvTask>, n: nat): (r: int)
    requires n <= |recv|
    ensures r == -1 || 0 <= r < n
    ensures r >= 0 ==> Unfilled(recv[r])
    ensures forall j :: 0 <= j < n && Unfilled(recv[j]) ==> r >= 0 && recv[r].order <= recv[j].order
  {
    if n == 0 then -1
    else
      var best := Oldest(recv, n - 1);
      if Unfilled(recv[n - 1]) && (best == -1 || recv[n - 1].order < recv[best].order) then n - 1 else best
  }

  // ---- the receiver's helpers ----

  predicate SlotIndex(s: Engine, i: int) {
    0 <= i < |s.recv|
  }

  /** recv_task_clear: close, remove a file whose name is still set, zero the slot. */
  function ClearSlot(s: Engine, i: int): Engine
    requires SlotIndex(s, i)
  {
    var t := s.recv[i];
    s.(disk := if t.saveName != [] && JoinFits(t.saveName) then s.disk - {t.saveName} else s.disk,
       recv := s.recv[i := FREE])
  }

  function FileAt(disk: Disk, name: Bytes): Bytes {
    if name in disk then disk[name] else []
  }

  /** recv_task_finish: keep the file when the byte count is right, otherwise remove it. */
  function FinishSlot(s: Engine, i: int): Engine
    requires SlotIndex(s, i)
  {
    var t := s.recv[i];
    if t.received == t.size then
      ClearSlot(s.(saved := s.saved + [Saved(t.tid, t.saveName, FileAt(s.disk, t.saveName))],
                   recv := s.recv[i := t.(saveName := [])]), i)
    else ClearSlot(s, i)
  }

  /** recv_task_complete. */
  function CompleteReceive(s: Engine, tid: u32): Engine {
    var i := Find(s.recv, tid);
    if i < 0 then s
    else if s.recv[i].open then FinishSlot(s, i)
    else ClearSlot(s, i)
  }

  /** recv_task_abort. */
  function AbortSlot(s: Engine, i: int, ok: bool): Engine
    requires SlotIndex(s, i)
  {
    ClearSlot(Transmit(s, false, Cancel(s.recv[i].tid), ok), i)
  }

  /** recv_task_reject. */
  function RejectSlot(s: Engine, i: int, ok: bool): Engine
    requires SlotIndex(s, i)
  {
    ClearSlot(Transmit(s, false, Reject(s.recv[i].tid), ok), i)
  }

  /** recv_announce_incoming. */
  function AnnounceIncoming(s: Engine, tid: u32, ok: bool): Engine {
    var i := FreeSlot(s.recv);
    if i < 0 then Transmit(s, false, Reject(tid), ok)
    else s.(recv := s.recv[i := FREE.(busy := true, tid := tid, order := s.nextOrder)], nextOrder := s.nextOrder + 1)
  }

  /** recv_handle_init. */
  function HandleInit(s: Engine, payload: Bytes): Engine {
    match ParseInit(payload)
    case None => s
    case Some(f) =>
      var i := Oldest(s.recv, |s.recv|);
      if i < 0 then s
      else
        s.(recv := s.recv[i := s.recv[i].(inited := true, sender := f.sender, filename := f.filename, size := f.size)])
  }

  /** fwrite at an offset either writes everything or leaves the file in some state. */
  datatype WriteResult = Written | Torn(left: Bytes)

  datatype ChunkIn = ChunkIn(tid: u32, offset: u64, data: Bytes)

  function ReadChunk(payload: Bytes): ChunkIn
    requires |payload| >= 12
  {
    ChunkIn(ReadU32(payload), ReadU64(payload[4..]), payload[12..])
  }

  /** recv_handle_chunk behind the frame's own fields. */
  function AcceptChunk(s: Engine, c: ChunkIn, write: WriteResult, ok: bool): Engine {
    var i := Find(s.recv, c.tid);
    if i < 0 || !s.recv[i].open then s
    else
      var t := s.recv[i];
      if !SpanOk(t.size, t.bits, c.offset, |c.data|) then AbortSlot(s, i, ok)
      else match write
        case Torn(left) => AbortSlot(s.(disk := s.disk[t.saveName := left]), i, ok)
        case Written => StoreChunk(s, i, c.offset, c.data)
  }

  /** recv_handle_chunk. */
  function HandleChunk(s: Engine, payload: Bytes, write: WriteResult, ok: bool): Engine {
    if |payload| < 12 then s else AcceptChunk(s, ReadChunk(payload), write, ok)
  }

  /** The accepted chunk: positioned write, mark, count. */
  function StoreChunk(s: Engine, i: int, offset: nat, data: Bytes): Engine
    requires SlotIndex(s, i) && SpanOk(s.recv[i].size, s.recv[i].bits, offset, |data|)
  {
    var t := s.recv[i];
    s.(disk := s.disk[t.saveName := WriteAt(FileAt(s.disk, t.saveName), offset, data)],
       recv := s.recv[i := t.(bits := Mark(t.bits, offset / CHUNK), received := t.received + |data|)])
  }

  // ---- commands ----

  datatype FileProbe = CannotOpen | CannotMeasure | Opened(content: FileBytes)

  /** file_cmd_sendfile behind its argument parser. */
  function SendFile(s: Engine, target: Bytes, filename: Bytes, probe: FileProbe, ok: bool): Outcome {
    if s.send.busy then Outcome(s, 0)
    else match probe
      case CannotOpen => Outcome(s, 0)
      case CannotMeasure => Outcome(s, 0)
      case Opened(content) =>
        if |content| == 0 then Outcome(s, 0)
        else
          var task := SendTask(true, 0, target, filename, |content|, 0, PROGRESS_INTERVAL, Some(Source(content, 0)),
                               PendingTid);
          var s1 := Transmit(s.(send := task), true, Init(target, filename, |content|), ok);
          if s1.up then Outcome(s1, 0) else Outcome(s1.(send := NO_SEND), -1)
  }

  /** file_cmd_cancel. */
  function CancelCmd(s: Engine, tid: u32, ok: bool): Outcome {
    if SendMatches(s, tid) then
      var s1 := Transmit(s, true, Cancel(tid), ok);
      if s1.up then Outcome(s1.(send := NO_SEND), 0) else Outcome(s1, -1)
    else
      var i := Find(s.recv, tid);
      if i < 0 then Outcome(s, 0)
      else
        var s1 := Transmit(s, false, Cancel(tid), ok);
        if s1.up then Outcome(ClearSlot(s1, i), 0) else Outcome(s1, -1)
  }

  /** file_cmd_reject. */
  function RejectCmd(s: Engine, tid: u32, ok: bool): Outcome {
    var i := Find(s.recv, tid);
    if i < 0 || s.recv[i].open then Outcome(s, 0)
    else
      var s1 := Transmit(s, false, Reject(tid), ok);
      if s1.up then Outcome(ClearSlot(s1, i), 0) else Outcome(s1, -1)
  }

  /** What can go wrong in /accept: mkdir, malloc, fopen, send. */
  datatype AcceptIo = AcceptIo(dirOk: bool, memOk: bool, openOk: bool, sendOk: bool)

  /** file_cmd_accept. */
  function AcceptCmd(s: Engine, tid: u32, io: AcceptIo): Outcome {
    var i := Find(s.recv, tid);
    if i < 0 || s.recv[i].open || ActiveSlot(s.recv) >= 0 || !s.recv[i].inited then Outcome(s, 0)
    else if s.recv[i].size == 0 then Outcome(RejectSlot(s, i, io.sendOk), 0)
    else
      match Sanitize(s.recv[i].filename, MAX_FILENAME_LEN)
      case None => Outcome(RejectSlot(s, i, io.sendOk), 0)
      case Some(base) =>
        match UniqueName(base, NameTaken(s.disk.Keys), MAX_FILENAME_LEN)
        case None => Outcome(RejectSlot(s, i, io.sendOk), 0)
        case Some(name) => AcceptAs(s.(recv := s.recv[i := s.recv[i].(saveName := name)]), i, io)
  }

  /** The rest of file_cmd_accept, once the save name is set. */
  function AcceptAs(s: Engine, i: int, io: AcceptIo): Outcome
    requires SlotIndex(s, i)
  {
    var t := s.recv[i];
    if !io.dirOk || !io.memOk then Outcome(RejectSlot(s, i, io.sendOk), 0)
    else
      var s1 := s.(recv := s.recv[i := t.(bits := ZeroBits(BitmapLength(t.size)))]);
      if !JoinFits(t.saveName) || !io.openOk then Outcome(RejectSlot(s1, i, io.sendOk), 0)
      else
        var s2 := s1.(disk := s.disk[t.saveName := []], recv := s1.recv[i := s1.recv[i].(open := true)]);
        var s3 := Transmit(s2, false, Accept(t.tid), io.sendOk);
        if s3.up then Outcome(s3, 0) else Outcome(ClearSlot(s3, i), -1)
  }

  // ---- signals from the server ----

  datatype AnnKind = SendPending | RecvPending | Accepted | Rejected | Completed | Cancelled | CancelledDisc

  function SignalAccept(s: Engine, tid: u32): Engine {
    if SendMatches(s, tid) && s.send.state == Pending then s.(send := s.send.(state := Active)) else s
  }

  function SignalReject(s: Engine, tid: u32): Engine {
    if SendMatches(s, tid) then s.(send := NO_SEND) else s
  }

  function SignalCancel(s: Engine, tid: u32): Engine {
    if SendMatches(s, tid) then s.(send := NO_SEND)
    else
      var i := Find(s.recv, tid);
      if i < 0 then s else ClearSlot(s, i)
  }

  /** file_handle_announcement, its text already classified. */
  function Announcement(s: Engine, kind: AnnKind, tid: u32, ok: bool): Engine {
    match kind
    case SendPending =>
      if s.send.busy && s.send.state == PendingTid then s.(send := s.send.(tid := tid, state := Pending)) else s
    case Accepted => SignalAccept(s, tid)
    case Rejected => SignalReject(s, tid)
    case Cancelled => SignalCancel(s, tid)
    case CancelledDisc => SignalCancel(s, tid)
    case Completed =>
      if SendMatches(s, tid) && s.send.state == WaitComplete then s.(send := NO_SEND) else CompleteReceive(s, tid)
    case RecvPending => AnnounceIncoming(s, tid, ok)
  }

  /** The control frames of file_handle_frame. */
  function ControlSignal(s: Engine, msgType: byte, tid: u32): Engine {
    if msgType == MSG_FILE_ACCEPT then SignalAccept(s, tid)
    else if msgType == MSG_FILE_REJECT then SignalReject(s, tid)
    else if msgType == MSG_FILE_CANCEL then SignalCancel(s, tid)
    else if msgType == MSG_FILE_COMPLETE then CompleteReceive(s, tid)
    else s
  }

  /** file_handle_frame: four bytes are always a control frame. */
  function HandleFrame(s: Engine, f: Frame, write: WriteResult, ok: bool): Engine {
    if |f.payload| == 4 then ControlSignal(s, f.msgType, ReadU32(f.payload))
    else if f.msgType == MSG_FILE_INIT then HandleInit(s, f.payload)
    else if f.msgType == MSG_FILE_CHUNK then HandleChunk(s, f.payload, write, ok)
    else s
  }

  /** file_handle_error. */
  function HandleError(s: Engine, code: int): Engine {
    if code == ERR_NO_SUCH_USER then
      if s.send.busy && s.send.state == PendingTid then s.(send := NO_SEND) else s
    else if code == ERR_TRANSFER_STATE then
      var s1 := if s.send.busy then s.(send := NO_SEND) else s;
      var i := ActiveSlot(s1.recv);
      if i < 0 then s1 else ClearSlot(s1, i)
    else s
  }

  // ---- the send tick ----

  /** Does fread return the whole chunk, does conn_send_all succeed. */
  datatype ChunkIo = ChunkIo(readOk: bool, sendOk: bool)

  predicate SendActive(s: Engine) {
    s.send.busy && (s.send.state == Active || s.send.state == Done)
  }

  /** One pass of the chunk loop; halted when the C function returns from inside it. */
  datatype Pass = Pass(s: Engine, halted: bool, rc: int)

  /** fread of n bytes: a fault, or the file's own bytes at the cursor, as far as they go. */
  function Read(fp: Option<Source>, n: nat, ok: bool): Option<Bytes> {
    match fp
    case None => None
    case Some(f) => if ok && f.pos + n <= |f.content| then Some(f.content[f.pos..f.pos + n]) else None
  }

  function Advance(fp: Option<Source>, n: nat): Option<Source> {
    match fp
    case None => None
    case Some(f) => Some(f.(pos := f.pos + n))
  }

  /** The bookkeeping behind a chunk that went out. */
  function CountChunk(s: Engine, n: nat): Engine {
    var sent := s.send.sent + n;
    var crossed := sent >= s.send.mark;
    s.(send := s.send.(sent := sent, fp := Advance(s.send.fp, n),
                       mark := s.send.mark + if crossed then PROGRESS_INTERVAL else 0),
       progress := s.progress + if crossed then 1 else 0)
  }

  function SendChunk(s: Engine, io: ChunkIo): Pass {
    match Plan(s.send.size, CHUNK, s.send.sent / CHUNK)
    case None => Pass(s.(send := NO_SEND), true, 0)
    case Some(span) =>
      match Read(s.send.fp, span.length, io.readOk)
      case None => Pass(Transmit(s, true, Cancel(s.send.tid), io.sendOk).(send := NO_SEND), true, 0)
      case Some(data) =>
        var s1 := Transmit(s, true, Chunk(s.send.tid, span.offset, data), io.sendOk);
        if s1.up then Pass(CountChunk(s1, span.length), false, 0) else Pass(s1.(send := NO_SEND), true, -1)
  }

  function SendChunks(s: Engine, io: seq<ChunkIo>): Pass
    decreases |io|
  {
    if io == [] || s.send.sent >= s.send.size then Pass(s, false, 0)
    else
      var pass := SendChunk(s, io[0]);
      if pass.halted then pass else SendChunks(pass.s, io[1..])
  }

  type TickIo = io: seq<ChunkIo> | |io| == CHUNKS_PER_ROUND witness [ChunkIo(true, true), ChunkIo(true, true)]

  /** file_send_tick. */
  function Tick(s: Engine, io: TickIo): Outcome {
    if !SendActive(s) then Outcome(s, 0)
    else if s.send.state == Done then
      var s1 := Transmit(s, true, Complete(s.send.tid), io[0].sendOk);
      if s1.up then Outcome(s1.(send := s1.send.(state := WaitComplete)), 0) else Outcome(s1, -1)
    else
      var pass := SendChunks(s, io);
      if pass.halted then Outcome(pass.s, pass.rc)
      else if pass.s.send.sent >= pass.s.send.size then
        Outcome(pass.s.(send := pass.s.send.(state := Done)), 0)
      else Outcome(pass.s, 0)
  }

  /** The loop of file_reset_all over the slots from i on. */
  function ResetSlots(s: Engine, i: nat): (r: Engine)
    requires i <= |s.recv|
    ensures |r.recv| == |s.recv|
    decreases |s.recv| - i
  {
    if i == |s.recv| then s else ResetSlots(if s.recv[i].busy then ClearSlot(s, i) else s, i + 1)
  }

  /** file_reset_all. */
  function ResetAll(s: Engine): Engine {
    ResetSlots(if s.send.busy then s.(send := NO_SEND) else s, 0)
  }

  // ---- runs ----

  datatype Event =
    | SendFileCommand(target: Bytes, filename: Bytes, probe: FileProbe, ok: bool)
    | AcceptCommand(tid: u32, faults: AcceptIo)
    | RejectCommand(tid: u32, ok: bool)
    | CancelCommand(tid: u32, ok: bool)
    | AnnouncementIn(kind: AnnKind, tid: u32, ok: bool)
    | FrameIn(frame: Frame, write: WriteResult, ok: bool)
    | ErrorIn(code: int)
    | TickTimeout(io: TickIo)
    | Reset

  function Step(s: Engine, e: Event): Engine {
    match e
    case SendFileCommand(target, filename, probe, ok) => SendFile(s, target, filename, probe, ok).s
    case AcceptCommand(tid, io) => AcceptCmd(s, tid, io).s
    case RejectCommand(tid, ok) => RejectCmd(s, tid, ok).s
    case CancelCommand(tid, ok) => CancelCmd(s, tid, ok).s
    case AnnouncementIn(kind, tid, ok) => Announcement(s, kind, tid, ok)
    case FrameIn(f, write, ok) => HandleFrame(s, f, write, ok)
    case ErrorIn(code) => HandleError(s, code)
    case TickTimeout(io) => Tick(s, io).s
    case Reset => ResetAll(s)
  }

  /** The state after a sequence of events. */
  function Run(s: Engine, es: seq<Event>): Engine {
    if es == [] then s else Step(Run(s, es[..|es| - 1]), es[|es| - 1])
  }

  /** A run may be cut anywhere. */
  lemma {:induction false} RunConcat(s: Engine, a: seq<Event>, b: seq<Event>)
    ensures Run(s, a + b) == Run(Run(s, a), b)
    decreases |b|
  {
    if b == [] {
      assert a + b == a;
    } else {
      assert (a + b)[..|a + b| - 1] == a + b[..|b| - 1];
      RunConcat(s, a, b[..|b| - 1]);
    }
  }
}
