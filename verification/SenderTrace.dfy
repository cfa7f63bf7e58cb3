/** What the sending side puts on the wire, over all runs, and how long it takes. */
module SenderTrace {
  import opened Bytes
  import opened Chunks
  import opened Assembly
  import opened Transfer
  import opened Protocol

  // ---- the send task ----

  /** The next progress mark is the first multiple of 1 MiB above what was sent. */
  predicate MarkOk(t: SendTask) {
    t.mark == (t.sent / PROGRESS_INTERVAL + 1) * PROGRESS_INTERVAL
  }

  /** A task with its file open: the cursor stands at sent, and sent is a whole number of chunks or the whole file. */
  predicate Cursor(t: SendTask) {
    && t.busy && t.fp.Some? && 0 < t.size == |t.fp.value.content|
    && t.fp.value.pos == t.sent <= t.size
    && (t.sent % CHUNK == 0 || t.sent == t.size)
    && MarkOk(t)
  }

  /** The invariant between events. */
  predicate SendOk(t: SendTask) {
    match t.state
    case NoSend => t == NO_SEND
    case PendingTid => Cursor(t) && t.sent == 0
    case Pending => Cursor(t) && t.sent == 0
    case Active => Cursor(t) && t.sent < t.size
    case Done => Cursor(t) && t.sent == t.size
    case WaitComplete => Cursor(t) && t.sent == t.size
  }

  // ---- the words of the language ----

  /** The frames of one send task: INIT, the first so many chunks of the plan, COMPLETE and CANCEL where they occur. */
  datatype Word = Word(
    target: Bytes, filename: Bytes, tid: u32, source: FileBytes, chunks: nat, done: bool, cancelled: bool)

  /** COMPLETE only follows the last chunk. */
  predicate WordOk(w: Word) {
    0 < |w.source| && w.chunks <= Count(|w.source|, CHUNK) && (w.done ==> w.chunks == Count(|w.source|, CHUNK))
  }

  function ChunkMsg(tid: u32, source: FileBytes, k: nat): Msg {
    Chunk(tid, k * CHUNK, Slice(source, k))
  }

  function ChunkMsgs(tid: u32, source: FileBytes, n: nat): seq<Msg> {
    if n == 0 then [] else ChunkMsgs(tid, source, n - 1) + [ChunkMsg(tid, source, n - 1)]
  }

  function Body(w: Word): seq<Msg> {
    [Init(w.target, w.filename, |w.source|)] + ChunkMsgs(w.tid, w.source, w.chunks)
  }

  function WordMsgs(w: Word): seq<Msg> {
    Body(w) + (if w.done then [Complete(w.tid)] else []) + (if w.cancelled then [Cancel(w.tid)] else [])
  }

  function Flatten(ws: seq<Word>): seq<Msg> {
    if ws == [] then [] else Flatten(ws[..|ws| - 1]) + WordMsgs(ws[|ws| - 1])
  }

  predicate WordsOk(ws: seq<Word>) {
    forall k :: 0 <= k < |ws| ==> WordOk(ws[k])
  }

  /** The frames the sending functions emitted. */
  function SenderMsgs(wire: seq<Sent>): seq<Msg> {
    if wire == [] then []
    else SenderMsgs(wire[..|wire| - 1]) + if wire[|wire| - 1].bySender then [wire[|wire| - 1].msg] else []
  }

  /** The word in progress: what the busy slot has sent so far. */
  function CurrentWord(t: SendTask): Word
    requires t.fp.Some?
  {
    Word(t.target, t.filename, t.tid, t.fp.value.content, Count(t.sent, CHUNK), t.state == WaitComplete, false)
  }

  function CurrentMsgs(t: SendTask): seq<Msg> {
    if t.fp.Some? then WordMsgs(CurrentWord(t)) else []
  }

  /** The sender's frames so far are the words of past tasks and the beginning of the current one. */
  predicate Traced(s: Engine, past: seq<Word>) {
    SendOk(s.send) && WordsOk(past) && SenderMsgs(s.wire) == Flatten(past) + CurrentMsgs(s.send)
  }

  lemma SenderMsgsStep(wire: seq<Sent>, x: Sent)
    ensures SenderMsgs(wire + [x]) == SenderMsgs(wire) + if x.bySender then [x.msg] else []
  {
  }

  lemma FlattenStep(ws: seq<Word>, w: Word)
    ensures Flatten(ws + [w]) == Flatten(ws) + WordMsgs(w)
  {
  }

  // ---- events that leave the sender alone ----

  predicate SenderSame(s: Engine, s': Engine) {
    s'.send == s.send && s'.progress == s.progress && SenderMsgs(s'.wire) == SenderMsgs(s.wire)
  }

  lemma ReceiverTransmit(s: Engine, msg: Msg, ok: bool)
    ensures SenderSame(s, Transmit(s, false, msg, ok))
  {
  }

  lemma RejectSenderSame(s: Engine, i: int, ok: bool)
    requires SlotIndex(s, i)
    ensures SenderSame(s, RejectSlot(s, i, ok))
  {
  }

  lemma AcceptAsSenderSame(s: Engine, i: int, io: AcceptIo)
    requires SlotIndex(s, i)
    ensures SenderSame(s, AcceptAs(s, i, io).s)
  {
  }

  lemma AcceptSenderSame(s: Engine, tid: u32, io: AcceptIo)
    ensures SenderSame(s, AcceptCmd(s, tid, io).s)
  {
    var i := Find(s.recv, tid);
    if i >= 0 {
      RejectSenderSame(s, i, io.sendOk);
      forall name ensures SenderSame(s, AcceptAs(s.(recv := s.recv[i := s.recv[i].(saveName := name)]), i, io).s) {
        AcceptAsSenderSame(s.(recv := s.recv[i := s.recv[i].(saveName := name)]), i, io);
      }
    }
  }

  lemma ChunkSenderSame(s: Engine, payload: Bytes, write: WriteResult, ok: bool)
    ensures SenderSame(s, HandleChunk(s, payload, write, ok))
  {
  }

  lemma {:induction false} ResetSlotsSenderSame(s: Engine, i: nat)
    requires i <= |s.recv|
    ensures SenderSame(s, ResetSlots(s, i))
    decreases |s.recv| - i
  {
    if i < |s.recv| {
      ResetSlotsSenderSame(if s.recv[i].busy then ClearSlot(s, i) else s, i + 1);
    }
  }

  // ---- the chunk loop ----

  lemma PlanAtCursor(t: SendTask)
    requires Cursor(t) && t.sent < t.size
    ensures var k := t.sent / CHUNK;
            && Plan(t.size, CHUNK, k) == Some(Span(t.sent, PlanLength(t.size, k)))
            && PlanLength(t.size, k) > 0
            && t.sent == k * CHUNK && Count(t.sent, CHUNK) == k
            && Count(t.sent + PlanLength(t.size, k), CHUNK) == k + 1
            && t.fp.value.content[t.sent..t.sent + PlanLength(t.size, k)] == Slice(t.fp.value.content, k)
  {
  }

  /** The task after one more chunk. */
  function Moved(t: SendTask): SendTask {
    var n := PlanLength(t.size, t.sent / CHUNK);
    CountChunk(Start(map[]).(send := t), n).send
  }

  lemma MarkMoves(sent: nat, n: nat, mark: nat)
    requires mark == (sent / PROGRESS_INTERVAL + 1) * PROGRESS_INTERVAL && n <= CHUNK
    ensures var mark' := mark + if sent + n >= mark then PROGRESS_INTERVAL else 0;
            mark' == ((sent + n) / PROGRESS_INTERVAL + 1) * PROGRESS_INTERVAL
  {
  }

  lemma MovedCursor(t: SendTask)
    requires Cursor(t) && t.sent < t.size
    ensures Cursor(Moved(t)) && Moved(t).sent == t.sent + PlanLength(t.size, t.sent / CHUNK)
    ensures CurrentWord(Moved(t)) == CurrentWord(t).(chunks := Count(t.sent, CHUNK) + 1)
  {
    PlanAtCursor(t);
    var n := PlanLength(t.size, t.sent / CHUNK);
    MarkMoves(t.sent, n, t.mark);
    assert n < CHUNK ==> t.sent + n == t.size;
  }

  /** One pass of the chunk loop: the plan is always found, and the pass sends the next chunk of the plan, or fails. */
  lemma SendChunkMeaning(s: Engine, io: ChunkIo)
    requires Cursor(s.send) && s.send.sent < s.send.size
    ensures var k := s.send.sent / CHUNK;
            var pass := SendChunk(s, io);
            var chunk := ChunkMsg(s.send.tid, s.send.fp.value.content, k);
            if !io.readOk then
              pass == Pass(Transmit(s, true, Cancel(s.send.tid), io.sendOk).(send := NO_SEND), true, 0)
            else if s.up && io.sendOk then
              && !pass.halted && pass.rc == 0 && pass.s.send == Moved(s.send) && pass.s.up
              && pass.s.wire == s.wire + [Sent(true, chunk)]
              && pass.s.progress ==
                 s.progress + Moved(s.send).sent / PROGRESS_INTERVAL - s.send.sent / PROGRESS_INTERVAL
            else
              pass == Pass(s.(up := false, send := NO_SEND), true, -1)
  {
  }

  // ---- every event extends the trace by the rules ----

  lemma TransmitMsgs(s: Engine, msg: Msg, ok: bool)
    ensures var s' := Transmit(s, true, msg, ok);
            SenderMsgs(s'.wire) == SenderMsgs(s.wire) + if s'.up then [msg] else []
  {
  }

  /** The task ends, by a CANCEL of its own or silently: its word is complete. */
  lemma TaskEnds(s: Engine, s': Engine, past: seq<Word>, cancel: bool) returns (past': seq<Word>)
    requires Cursor(s.send) && WordsOk(past) && SenderMsgs(s.wire) == Flatten(past) + CurrentMsgs(s.send)
    requires s.send.state == WaitComplete ==> s.send.sent == s.send.size
    requires s'.send == NO_SEND
    requires SenderMsgs(s'.wire) == SenderMsgs(s.wire) + if cancel then [Cancel(s.send.tid)] else []
    ensures Traced(s', past') && past' == past + [CurrentWord(s.send).(cancelled := cancel)]
  {
    var w := CurrentWord(s.send).(cancelled := cancel);
    past' := past + [w];
    FlattenStep(past, w);
    CountMonotone(s.send.sent, s.send.size);
  }

  lemma CountMonotone(a: nat, b: nat)
    requires a <= b
    ensures Count(a, CHUNK) <= Count(b, CHUNK)
  {
  }

  /** The loop state: like Traced, with the whole file possibly sent. */
  predicate LoopTraced(s: Engine, past: seq<Word>) {
    && Cursor(s.send) && s.send.state == Active && WordsOk(past)
    && SenderMsgs(s.wire) == Flatten(past) + CurrentMsgs(s.send)
  }

  lemma WordGrows(w: Word)
    requires !w.done && !w.cancelled
    ensures WordMsgs(w.(chunks := w.chunks + 1)) == WordMsgs(w) + [ChunkMsg(w.tid, w.source, w.chunks)]
  {
  }

  lemma MovedMsgs(t: SendTask)
    requires Cursor(t) && t.state == Active && t.sent < t.size
    ensures CurrentMsgs(Moved(t)) == CurrentMsgs(t) + [ChunkMsg(t.tid, t.fp.value.content, t.sent / CHUNK)]
  {
    PlanAtCursor(t);
    MovedCursor(t);
    WordGrows(CurrentWord(t));
  }

  lemma ChunkExtends(s: Engine, s': Engine, past: seq<Word>)
    requires LoopTraced(s, past) && s.send.sent < s.send.size
    requires s'.send == Moved(s.send)
    requires s'.wire == s.wire + [Sent(true, ChunkMsg(s.send.tid, s.send.fp.value.content, s.send.sent / CHUNK))]
    ensures LoopTraced(s', past)
  {
    var m := ChunkMsg(s.send.tid, s.send.fp.value.content, s.send.sent / CHUNK);
    MovedCursor(s.send);
    MovedMsgs(s.send);
    SenderMsgsStep(s.wire, Sent(true, m));
    assert (Flatten(past) + CurrentMsgs(s.send)) + [m] == Flatten(past) + (CurrentMsgs(s.send) + [m]);
  }

  lemma {:induction false} SendChunksTraced(s: Engine, io: seq<ChunkIo>, past: seq<Word>) returns (past': seq<Word>)
    requires LoopTraced(s, past)
    ensures var pass := SendChunks(s, io);
            if pass.halted then Traced(pass.s, past') else past' == past && LoopTraced(pass.s, past)
    decreases |io|
  {
    past' := past;
    if io != [] && s.send.sent < s.send.size {
      var pass := SendChunk(s, io[0]);
      SendChunkMeaning(s, io[0]);
      if pass.halted {
        TransmitMsgs(s, Cancel(s.send.tid), io[0].sendOk);
        past' := TaskEnds(s, pass.s, past, !io[0].readOk && s.up && io[0].sendOk);
      } else {
        ChunkExtends(s, pass.s, past);
        past' := SendChunksTraced(pass.s, io[1..], past);
      }
    }
  }

  lemma CompleteTraced(s: Engine, s': Engine, past: seq<Word>)
    requires Traced(s, past) && s.send.state == Done && s'.send == s.send.(state := WaitComplete)
    requires SenderMsgs(s'.wire) == SenderMsgs(s.wire) + [Complete(s.send.tid)]
    ensures Traced(s', past)
  {
  }

  lemma LoopEnds(s: Engine, past: seq<Word>)
    requires LoopTraced(s, past)
    ensures Traced(if s.send.sent >= s.send.size then s.(send := s.send.(state := Done)) else s, past)
  {
    assert CurrentWord(s.send.(state := Done)) == CurrentWord(s.send);
  }

  lemma ActiveTickTraced(s: Engine, io: TickIo, past: seq<Word>) returns (past': seq<Word>)
    requires Traced(s, past) && s.send.state == Active
    ensures Traced(Tick(s, io).s, past')
  {
    past' := SendChunksTraced(s, io, past);
    if !SendChunks(s, io).halted {
      LoopEnds(SendChunks(s, io).s, past);
    }
  }

  lemma DoneTickTraced(s: Engine, io: TickIo, past: seq<Word>)
    requires Traced(s, past) && s.send.state == Done
    ensures Traced(Tick(s, io).s, past)
  {
    TransmitMsgs(s, Complete(s.send.tid), io[0].sendOk);
    if s.up && io[0].sendOk {
      CompleteTraced(s, Tick(s, io).s, past);
    }
  }

  lemma TickTraced(s: Engine, io: TickIo, past: seq<Word>) returns (past': seq<Word>)
    requires Traced(s, past)
    ensures Traced(Tick(s, io).s, past')
  {
    past' := past;
    if s.send.state == Done {
      DoneTickTraced(s, io, past);
    } else if s.send.state == Active {
      past' := ActiveTickTraced(s, io, past);
    }
  }

  /** A new task opens a new word. */
  lemma StartTraced(s: Engine, s': Engine, past: seq<Word>, target: Bytes, filename: Bytes, content: FileBytes)
    requires Traced(s, past) && s.send == NO_SEND && content != []
    requires s'.send == SendTask(true, 0, target, filename, |content|, 0, PROGRESS_INTERVAL, Some(Source(content, 0)),
                                 PendingTid)
    requires SenderMsgs(s'.wire) == SenderMsgs(s.wire) + [Init(target, filename, |content|)]
    ensures Traced(s', past)
  {
    assert CurrentMsgs(s'.send) == [Init(target, filename, |content|)];
    assert Flatten(past) + CurrentMsgs(s.send) == Flatten(past);
  }

  lemma SendFileTraced(s: Engine, e: Event, past: seq<Word>)
    requires Traced(s, past) && e.SendFileCommand?
    ensures Traced(Step(s, e), past)
  {
    if !s.send.busy && e.probe.Opened? && e.probe.content != [] && s.up && e.ok {
      SenderMsgsStep(s.wire, Sent(true, Init(e.target, e.filename, |e.probe.content|)));
      StartTraced(s, Step(s, e), past, e.target, e.filename, e.probe.content);
    } else {
      SameTraced(s, Step(s, e), past);
    }
  }

  /** The task is cleared without a frame. */
  lemma ClearedTraced(s: Engine, s': Engine, past: seq<Word>) returns (past': seq<Word>)
    requires Traced(s, past) && s.send.busy && s'.send == NO_SEND && SenderMsgs(s'.wire) == SenderMsgs(s.wire)
    ensures Traced(s', past')
  {
    past' := TaskEnds(s, s', past, false);
  }

  lemma CancelCmdTraced(s: Engine, e: Event, past: seq<Word>) returns (past': seq<Word>)
    requires Traced(s, past) && e.CancelCommand?
    ensures Traced(Step(s, e), past')
  {
    past' := past;
    if SendMatches(s, e.tid) {
      TransmitMsgs(s, Cancel(e.tid), e.ok);
      if s.up && e.ok {
        past' := TaskEnds(s, Step(s, e), past, true);
      }
    } else {
      ReceiverTransmit(s, Cancel(e.tid), e.ok);
    }
  }

  /** Signals move the task on, clear it, or do not concern it; they never put anything on the wire for it. */
  predicate SignalEffect(s: Engine, s': Engine) {
    && SenderMsgs(s'.wire) == SenderMsgs(s.wire)
    && (|| s'.send == s.send
        || (s.send.busy && s'.send == NO_SEND)
        || (s.send.state == PendingTid && exists tid :: s'.send == s.send.(tid := tid, state := Pending))
        || (s.send.state == Pending && s'.send == s.send.(state := Active)))
  }

  lemma SignalTraced(s: Engine, s': Engine, past: seq<Word>) returns (past': seq<Word>)
    requires Traced(s, past) && SignalEffect(s, s')
    ensures Traced(s', past')
  {
    past' := past;
    if s'.send == NO_SEND && s.send.busy {
      past' := ClearedTraced(s, s', past);
    } else if s'.send != s.send {
      assert Count(s.send.sent, CHUNK) == 0;
      assert WordMsgs(CurrentWord(s'.send)) == WordMsgs(CurrentWord(s.send));
    }
  }

  lemma FrameEffect(s: Engine, f: Frame, write: WriteResult, ok: bool)
    ensures SignalEffect(s, HandleFrame(s, f, write, ok))
  {
    if |f.payload| != 4 && f.msgType == MSG_FILE_CHUNK {
      ChunkSenderSame(s, f.payload, write, ok);
    }
  }

  lemma AnnouncementEffect(s: Engine, kind: AnnKind, tid: u32, ok: bool)
    ensures SignalEffect(s, Announcement(s, kind, tid, ok))
  {
  }

  lemma ErrorEffect(s: Engine, code: int)
    ensures SignalEffect(s, HandleError(s, code))
  {
  }

  lemma ResetEffect(s: Engine)
    ensures SignalEffect(s, ResetAll(s))
  {
    ResetSlotsSenderSame(if s.send.busy then s.(send := NO_SEND) else s, 0);
  }

  lemma SameTraced(s: Engine, s': Engine, past: seq<Word>)
    requires Traced(s, past) && SenderSame(s, s')
    ensures Traced(s', past)
  {
  }

  lemma CommandTraced(s: Engine, e: Event, past: seq<Word>) returns (past': seq<Word>)
    requires Traced(s, past)
    requires e.SendFileCommand? || e.AcceptCommand? || e.RejectCommand? || e.CancelCommand?
    ensures Traced(Step(s, e), past')
  {
    past' := past;
    match e
    case SendFileCommand(_, _, _, _) => SendFileTraced(s, e, past);
    case AcceptCommand(tid, io) =>
      AcceptSenderSame(s, tid, io);
      SameTraced(s, Step(s, e), past);
    case RejectCommand(tid, ok) =>
      ReceiverTransmit(s, Reject(tid), ok);
      SameTraced(s, Step(s, e), past);
    case CancelCommand(_, _) => past' := CancelCmdTraced(s, e, past);
  }

  lemma EventEffect(s: Engine, e: Event)
    requires e.AnnouncementIn? || e.FrameIn? || e.ErrorIn? || e.Reset?
    ensures SignalEffect(s, Step(s, e))
  {
    match e
    case AnnouncementIn(kind, tid, ok) => AnnouncementEffect(s, kind, tid, ok);
    case FrameIn(f, write, ok) => FrameEffect(s, f, write, ok);
    case ErrorIn(code) => ErrorEffect(s, code);
    case Reset => ResetEffect(s);
  }

  /** Every event keeps the sender's frames within the language. */
  lemma StepTraced(s: Engine, e: Event, past: seq<Word>) returns (past': seq<Word>)
    requires Traced(s, past)
    ensures Traced(Step(s, e), past')
  {
    if e.TickTimeout? {
      past' := TickTraced(s, e.io, past);
    } else if e.AnnouncementIn? || e.FrameIn? || e.ErrorIn? || e.Reset? {
      EventEffect(s, e);
      past' := SignalTraced(s, Step(s, e), past);
    } else {
      past' := CommandTraced(s, e, past);
    }
  }

  /** The sender's frames over any run are a sequence of task words: INIT, then chunks 0, 1, 2, ... of the plan without
      gap or repetition, COMPLETE at most once and only after the last chunk, nothing after the task's own CANCEL. */
  lemma {:induction false} SenderLanguage(pre: Disk, es: seq<Event>) returns (past: seq<Word>)
    ensures Traced(Run(Start(pre), es), past)
  {
    past := [];
    if es != [] {
      past := SenderLanguage(pre, es[..|es| - 1]);
      past := StepTraced(Run(Start(pre), es[..|es| - 1]), es[|es| - 1], past);
    }
  }
}
