/** How a transfer gets on when nothing ends it: how many ticks a file takes, and what has gone out at every moment. */
module SenderProgress {
  import opened Bytes
  import opened Chunks
  import opened Transfer
  import opened Protocol
  import opened SenderTrace
  import opened SenderTiming

  // ---- events that do not concern the send task ----

  predicate SparesSignal(kind: AnnKind, same: bool, state: SendState) {
    match kind
    case SendPending => state != PendingTid
    case RecvPending => true
    case Accepted => !same || state != Pending
    case Completed => !same || state != WaitComplete
    case Rejected => !same
    case Cancelled => !same
    case CancelledDisc => !same
  }

  /** The event neither ends nor moves a send task with this id in this state, and no frame it sends fails. */
  predicate Spares(e: Event, tid: u32, state: SendState) {
    match e
    case SendFileCommand(_, _, _, _) => true
    case AcceptCommand(_, io) => io.sendOk
    case RejectCommand(_, ok) => ok
    case CancelCommand(t, ok) => t != tid && ok
    case AnnouncementIn(kind, t, ok) => SparesSignal(kind, t == tid, state) && (kind == RecvPending ==> ok)
    case FrameIn(f, _, ok) =>
      if |f.payload| == 4 then
        ReadU32(f.payload) == tid ==>
          f.msgType !in {MSG_FILE_REJECT, MSG_FILE_CANCEL} && (f.msgType == MSG_FILE_ACCEPT ==> state != Pending)
      else f.msgType == MSG_FILE_CHUNK ==> ok
    case ErrorIn(code) => code != ERR_TRANSFER_STATE && (code == ERR_NO_SUCH_USER ==> state != PendingTid)
    case TickTimeout(_) => state in {PendingTid, Pending}
    case Reset => false
  }

  /** The sender's side of the state is as before, and the connection is up. */
  predicate Spared(s: Engine, s': Engine) {
    SenderSame(s, s') && s'.up
  }

  lemma AcceptSpares(s: Engine, tid: u32, io: AcceptIo)
    requires s.up && io.sendOk
    ensures Spared(s, AcceptCmd(s, tid, io).s)
  {
    AcceptSenderSame(s, tid, io);
  }

  lemma FrameSpares(s: Engine, e: Event)
    requires s.send.busy && s.up && e.FrameIn? && Spares(e, s.send.tid, s.send.state)
    ensures Spared(s, Step(s, e))
  {
    if |e.frame.payload| != 4 && e.frame.msgType == MSG_FILE_CHUNK {
      ChunkSenderSame(s, e.frame.payload, e.write, e.ok);
    }
  }

  lemma AnnouncementSpares(s: Engine, e: Event)
    requires s.send.busy && s.up && e.AnnouncementIn? && Spares(e, s.send.tid, s.send.state)
    ensures Spared(s, Step(s, e))
  {
  }

  lemma StepSpares(s: Engine, e: Event)
    requires s.send.busy && s.up && Spares(e, s.send.tid, s.send.state)
    ensures Spared(s, Step(s, e))
  {
    match e
    case SendFileCommand(_, _, _, _) =>
    case AcceptCommand(tid, io) => AcceptSpares(s, tid, io);
    case RejectCommand(tid, ok) => ReceiverTransmit(s, Reject(tid), ok);
    case CancelCommand(tid, ok) => ReceiverTransmit(s, Cancel(tid), ok);
    case AnnouncementIn(_, _, _) => AnnouncementSpares(s, e);
    case FrameIn(_, _, _) => FrameSpares(s, e);
    case ErrorIn(_) =>
    case TickTimeout(_) =>
  }

  lemma {:induction false} RunSpares(s: Engine, es: seq<Event>)
    requires s.send.busy && s.up && forall k :: 0 <= k < |es| ==> Spares(es[k], s.send.tid, s.send.state)
    ensures Spared(s, Run(s, es))
    decreases |es|
  {
    if es != [] {
      RunSpares(s, es[..|es| - 1]);
      StepSpares(Run(s, es[..|es| - 1]), es[|es| - 1]);
    }
  }

  // ---- good ticks ----

  const GOOD: ChunkIo := ChunkIo(true, true)
  const GOOD_TICK: TickIo := [GOOD, GOOD]

  /** Chunks still to send. */
  function Left(t: SendTask): int {
    Count(t.size, CHUNK) - Count(t.sent, CHUNK)
  }

  lemma LeftMeaning(t: SendTask)
    requires Cursor(t)
    ensures Left(t) >= 0 && (Left(t) == 0 <==> t.sent == t.size)
    ensures t.sent < t.size ==> Left(Moved(t)) == Left(t) - 1 && Moved(t).size == t.size
  {
  }

  predicate SameTransfer(t: SendTask, t': SendTask)
    requires t.fp.Some? && t'.fp.Some?
  {
    && t'.tid == t.tid && t'.target == t.target && t'.filename == t.filename && t'.size == t.size
    && t'.fp.value.content == t.fp.value.content
  }

  /** What the task looks like k chunks later: every full MiB crossed printed one line. */
  predicate ChunksLater(s: Engine, s': Engine, k: int)
    requires Cursor(s.send)
  {
    && Cursor(s'.send) && s'.up && SameTransfer(s.send, s'.send)
    && Left(s'.send) == Left(s.send) - k
    && s'.progress - s'.send.sent / PROGRESS_INTERVAL == s.progress - s.send.sent / PROGRESS_INTERVAL
  }

  lemma GoodPass(s: Engine)
    requires Cursor(s.send) && s.send.sent < s.send.size && s.up
    ensures var pass := SendChunk(s, GOOD);
            !pass.halted && ChunksLater(s, pass.s, 1) && pass.s.send.state == s.send.state
  {
    SendChunkMeaning(s, GOOD);
    MovedCursor(s.send);
    LeftMeaning(s.send);
  }

  function Min(a: int, b: int): int {
    if a <= b then a else b
  }

  lemma {:induction false} GoodRound(s: Engine, io: seq<ChunkIo>)
    requires Cursor(s.send) && s.up && forall k :: 0 <= k < |io| ==> io[k] == GOOD
    ensures var pass := SendChunks(s, io);
            && !pass.halted && pass.s.send.state == s.send.state
            && ChunksLater(s, pass.s, Min(|io|, Left(s.send)))
    decreases |io|
  {
    LeftMeaning(s.send);
    if io != [] && s.send.sent < s.send.size {
      GoodPass(s);
      GoodRound(SendChunk(s, GOOD).s, io[1..]);
    }
  }

  /** A good tick sends two chunks, or the last one. */
  lemma GoodTick(s: Engine)
    requires SendOk(s.send) && s.send.state == Active && s.up
    ensures var s' := Tick(s, GOOD_TICK).s;
            && SendOk(s'.send) && ChunksLater(s, s', Min(CHUNKS_PER_ROUND, Left(s.send)))
            && s'.send.state == if Left(s.send) <= CHUNKS_PER_ROUND then Done else Active
  {
    GoodRound(s, GOOD_TICK);
    LeftMeaning(SendChunks(s, GOOD_TICK).s.send);
  }

  lemma GoodTickTraced(s: Engine, past: seq<Word>)
    requires Traced(s, past) && s.send.state == Active && s.up
    ensures Traced(Tick(s, GOOD_TICK).s, past)
  {
    var past' := SendChunksTraced(s, GOOD_TICK, past);
    GoodRound(s, GOOD_TICK);
    LoopEnds(SendChunks(s, GOOD_TICK).s, past);
  }

  lemma LastTick(s: Engine)
    requires SendOk(s.send) && s.send.state == Done && s.up
    ensures var s' := Tick(s, GOOD_TICK).s;
            SendOk(s'.send) && s'.send.state == WaitComplete && ChunksLater(s, s', 0)
  {
  }

  // ---- runs ----

  /** A tick without failures, or an event that does not concern the task. */
  predicate Proceeds(e: Event, tid: u32) {
    e == TickTimeout(GOOD_TICK) || Spares(e, tid, WaitComplete)
  }

  function TickCount(es: seq<Event>): nat {
    if es == [] then 0 else TickCount(es[..|es| - 1]) + if es[|es| - 1].TickTimeout? then 1 else 0
  }

  /** Where a task with so many chunks left stands after n ticks. */
  function StateAfter(left: int, n: nat): SendState {
    if CHUNKS_PER_ROUND * n < left then Active
    else if CHUNKS_PER_ROUND * n < left + CHUNKS_PER_ROUND then Done
    else WaitComplete
  }

  /** s' is s, n good ticks later. */
  predicate TicksLater(s: Engine, s': Engine, past: seq<Word>, n: nat)
    requires Cursor(s.send)
  {
    && Traced(s', past) && ChunksLater(s, s', Min(CHUNKS_PER_ROUND * n, Left(s.send)))
    && s'.send.state == StateAfter(Left(s.send), n)
  }

  lemma TickProceeds(s: Engine, s1: Engine, past: seq<Word>, n: nat)
    requires Cursor(s.send) && Left(s.send) > 0 && TicksLater(s, s1, past, n)
    ensures TicksLater(s, Tick(s1, GOOD_TICK).s, past, n + 1)
  {
    if s1.send.state == Active {
      GoodTick(s1);
      GoodTickTraced(s1, past);
    } else if s1.send.state == Done {
      LastTick(s1);
      DoneTickTraced(s1, GOOD_TICK, past);
    }
  }

  lemma SparedProceeds(s: Engine, s1: Engine, e: Event, past: seq<Word>, n: nat)
    requires Cursor(s.send) && TicksLater(s, s1, past, n) && Spares(e, s.send.tid, WaitComplete)
    ensures TicksLater(s, Step(s1, e), past, n)
  {
    StepSpares(s1, e);
  }

  lemma StepProceeds(s: Engine, s1: Engine, e: Event, past: seq<Word>, n: nat)
    requires Cursor(s.send) && Left(s.send) > 0 && TicksLater(s, s1, past, n) && Proceeds(e, s.send.tid)
    ensures TicksLater(s, Step(s1, e), past, n + if e.TickTimeout? then 1 else 0)
  {
    if e == TickTimeout(GOOD_TICK) {
      TickProceeds(s, s1, past, n);
    } else {
      SparedProceeds(s, s1, e, past, n);
    }
  }

  lemma NoTicksYet(s: Engine, past: seq<Word>)
    requires Traced(s, past) && s.send.state == Active && s.up
    ensures Left(s.send) > 0 && TicksLater(s, s, past, 0)
  {
    LeftMeaning(s.send);
  }

  lemma {:induction false} EventsProceed(s: Engine, es: seq<Event>, past: seq<Word>)
    requires Cursor(s.send) && Left(s.send) > 0 && TicksLater(s, s, past, 0)
    requires forall k :: 0 <= k < |es| ==> Proceeds(es[k], s.send.tid)
    ensures TicksLater(s, Run(s, es), past, TickCount(es))
    decreases |es|
  {
    if es != [] {
      var before, e := es[..|es| - 1], es[|es| - 1];
      EventsProceed(s, before, past);
      StepProceeds(s, Run(s, before), e, past, TickCount(before));
    }
  }

  lemma RunProceeds(s: Engine, es: seq<Event>, past: seq<Word>)
    requires Traced(s, past) && s.send.state == Active && s.up
    requires forall k :: 0 <= k < |es| ==> Proceeds(es[k], s.send.tid)
    ensures TicksLater(s, Run(s, es), past, TickCount(es))
  {
    NoTicksYet(s, past);
    EventsProceed(s, es, past);
  }

  /** What a task has said n ticks after its consent: its INIT, the first 2n chunks, and COMPLETE one tick after the
      last chunk. */
  function WordAfter(target: Bytes, filename: Bytes, tid: u32, content: FileBytes, n: nat): Word {
    var left := Count(|content|, CHUNK);
    Word(target, filename, tid, content, Min(CHUNKS_PER_ROUND * n, left), StateAfter(left, n) == WaitComplete, false)
  }

  /** How many ticks a file takes, the one for COMPLETE included. */
  function TicksFor(content: FileBytes): nat {
    (Count(|content|, CHUNK) + 1) / CHUNKS_PER_ROUND + 1
  }

  lemma WordOfTask(s: Engine, s': Engine, past: seq<Word>, n: nat)
    requires Cursor(s.send) && s.send.sent == 0 && TicksLater(s, s', past, n)
    ensures CurrentWord(s'.send) ==
            WordAfter(s.send.target, s.send.filename, s.send.tid, s.send.fp.value.content, n)
    ensures SenderMsgs(s'.wire) == Flatten(past) + WordMsgs(CurrentWord(s'.send))
  {
    LeftMeaning(s.send);
  }

  /** From its consent on, with no failure and whatever events that do not concern it, a task with a file of n chunks is
      sending for exactly ceil(n / 2) ticks, sends COMPLETE in the next one, and has printed one line per full MiB. */
  lemma TransferTime(s: Engine, es: seq<Event>, past: seq<Word>)
    requires Traced(s, past) && s.send.state == Active && s.send.sent == 0 && s.up
    requires forall k :: 0 <= k < |es| ==> Proceeds(es[k], s.send.tid)
    ensures var n, ticks, s' := (Count(s.send.size, 65500) + 1) / 2, TickCount(es), Run(s, es);
            && s'.up
            && s'.send.state == (if ticks < n then Active else if ticks == n then Done else WaitComplete)
            && s'.send.sent == Min(2 * ticks * 65500, s.send.size)
            && s'.progress == s.progress + s'.send.sent / 0x10_0000
  {
    RunProceeds(s, es, past);
    LeftMeaning(s.send);
    SentByCount(s.send, Run(s, es).send, CHUNKS_PER_ROUND * TickCount(es));
  }

  lemma SentByCount(t: SendTask, t': SendTask, k: nat)
    requires Cursor(t) && t.sent == 0 && Cursor(t') && t'.size == t.size && Left(t') == Left(t) - Min(k, Left(t))
    ensures t'.sent == Min(k * CHUNK, t.size)
  {
    LeftMeaning(t');
  }

  // ---- a whole transfer ----

  function TaskAt(target: Bytes, filename: Bytes, content: FileBytes, tid: u32, state: SendState): SendTask {
    SendTask(true, tid, target, filename, |content|, 0, PROGRESS_INTERVAL, Some(Source(content, 0)), state)
  }

  /** The sender is at this task, has said this, and the connection is up. */
  predicate At(s: Engine, t: SendTask, said: seq<Msg>) {
    s.up && s.send == t && SenderMsgs(s.wire) == said
  }

  lemma Commanded(s: Engine, target: Bytes, filename: Bytes, content: FileBytes)
    requires s.up && !s.send.busy && content != []
    ensures At(Step(s, SendFileCommand(target, filename, Opened(content), true)),
               TaskAt(target, filename, content, 0, PendingTid),
               SenderMsgs(s.wire) + [Init(target, filename, |content|)])
  {
    SenderMsgsStep(s.wire, Sent(true, Init(target, filename, |content|)));
  }

  lemma Consented(s: Engine, e: Event)
    requires s.send.busy && s.send.state == Pending && AcceptSignal(e, s.send.tid)
    ensures At(Step(s, e), s.send.(state := Active), SenderMsgs(s.wire)) <==> s.up
  {
  }

  lemma ActiveTraced(s: Engine, past: seq<Word>, target: Bytes, filename: Bytes, content: FileBytes, tid: u32)
    requires WordsOk(past) && content != []
    requires At(s, TaskAt(target, filename, content, tid, Active), Flatten(past) + [Init(target, filename, |content|)])
    ensures Traced(s, past)
  {
    assert CurrentMsgs(s.send) == [Init(target, filename, |content|)];
  }

  /** From the command to the consent. */
  lemma UntilConsent(s: Engine, target: Bytes, filename: Bytes, content: FileBytes, tid: u32,
                     unnamed: seq<Event>, waiting: seq<Event>, consent: Event)
    requires s.up && !s.send.busy && content != [] && AcceptSignal(consent, tid)
    requires forall k :: 0 <= k < |unnamed| ==> Spares(unnamed[k], 0, PendingTid)
    requires forall k :: 0 <= k < |waiting| ==> Spares(waiting[k], tid, Pending)
    ensures var s1 := Run(Step(s, SendFileCommand(target, filename, Opened(content), true)), unnamed);
            var s2 := Run(Step(s1, AnnouncementIn(SendPending, tid, true)), waiting);
            At(Step(s2, consent), TaskAt(target, filename, content, tid, Active),
               SenderMsgs(s.wire) + [Init(target, filename, |content|)])
  {
    var s0 := Step(s, SendFileCommand(target, filename, Opened(content), true));
    Commanded(s, target, filename, content);
    RunSpares(s0, unnamed);
    var s1 := Step(Run(s0, unnamed), AnnouncementIn(SendPending, tid, true));
    assert At(s1, TaskAt(target, filename, content, tid, Pending), SenderMsgs(s0.wire));
    RunSpares(s1, waiting);
    Consented(Run(s1, waiting), consent);
  }

  lemma RunStep(s: Engine, es: seq<Event>, e: Event)
    ensures Run(s, es + [e]) == Step(Run(s, es), e)
  {
    assert (es + [e])[..|es|] == es;
  }

  /** The events of a whole transfer: /sendfile, the server's id, the peer's consent, ticks, and others in between. */
  datatype Outgoing = Outgoing(target: Bytes, filename: Bytes, content: FileBytes, tid: u32, unnamed: seq<Event>,
                         waiting: seq<Event>, consent: Event, sending: seq<Event>)

  function Command(x: Outgoing): Event {
    SendFileCommand(x.target, x.filename, Opened(x.content), true)
  }

  function Named(x: Outgoing): Event {
    AnnouncementIn(SendPending, x.tid, true)
  }

  function Events(x: Outgoing): seq<Event> {
    var named := [Command(x)] + x.unnamed + [Named(x)];
    var granted := named + x.waiting + [x.consent];
    granted + x.sending
  }

  /** The events in between do not concern the task, and no tick fails. */
  predicate GoesWell(x: Outgoing) {
    && x.content != [] && AcceptSignal(x.consent, x.tid)
    && (forall k :: 0 <= k < |x.unnamed| ==> Spares(x.unnamed[k], 0, PendingTid))
    && (forall k :: 0 <= k < |x.waiting| ==> Spares(x.waiting[k], x.tid, Pending))
    && (forall k :: 0 <= k < |x.sending| ==> Proceeds(x.sending[k], x.tid))
  }

  function WordOf(x: Outgoing): Word {
    WordAfter(x.target, x.filename, x.tid, x.content, TickCount(x.sending))
  }

  lemma RunInParts(s: Engine, x: Outgoing)
    ensures Run(s, Events(x)) ==
            Run(Step(Run(Step(Run(Step(s, Command(x)), x.unnamed), Named(x)), x.waiting), x.consent), x.sending)
  {
    var started := [Command(x)] + x.unnamed;
    var named := started + [Named(x)];
    var waited := named + x.waiting;
    RunStep(s, [], Command(x));
    assert [] + [Command(x)] == [Command(x)];
    RunConcat(s, [Command(x)], x.unnamed);
    RunStep(s, started, Named(x));
    RunConcat(s, named, x.waiting);
    RunStep(s, waited, x.consent);
    RunConcat(s, waited + [x.consent], x.sending);
  }

  /** A whole transfer from any idle, connected state: the sender's frames are those before, and then exactly what
      WordAfter says, however the ticks are spread among events that do not concern the task. */
  lemma FileGoesOut(pre: Disk, before: seq<Event>, x: Outgoing)
    requires !Run(Start(pre), before).send.busy && Run(Start(pre), before).up && GoesWell(x)
    ensures Said(pre, before + Events(x)) == Said(pre, before) + WordMsgs(WordOf(x))
  {
    var s := Run(Start(pre), before);
    var past := SenderLanguage(pre, before);
    UntilConsent(s, x.target, x.filename, x.content, x.tid, x.unnamed, x.waiting, x.consent);
    var s1 := Run(Step(s, Command(x)), x.unnamed);
    var s2 := Step(Run(Step(s1, Named(x)), x.waiting), x.consent);
    assert SenderMsgs(s.wire) == Flatten(past);
    ActiveTraced(s2, past, x.target, x.filename, x.content, x.tid);
    RunProceeds(s2, x.sending, past);
    WordOfTask(s2, Run(s2, x.sending), past, TickCount(x.sending));
    RunInParts(s, x);
    RunConcat(Start(pre), before, Events(x));
  }
}
