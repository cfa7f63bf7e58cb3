/** When the sender may send what: consent before chunks, COMPLETE in a tick of its own. */
module SenderTiming {
  import opened Bytes
  import opened Chunks
  import opened Transfer
  import opened Protocol
  import opened SenderTrace

  // ---- one tick ----

  predicate ChunkOrCancel(m: Msg, tid: u32) {
    (m.Chunk? || m.Cancel?) && m.tid == tid
  }

  /** later is earlier and at most n further frames, chunks of this task or its CANCEL. */
  predicate GrowsBy(earlier: seq<Msg>, later: seq<Msg>, n: nat, tid: u32) {
    && |earlier| <= |later| <= |earlier| + n && later[..|earlier|] == earlier
    && forall k :: |earlier| <= k < |later| ==> ChunkOrCancel(later[k], tid)
  }

  lemma GrowsOn(a: seq<Msg>, m: Msg, c: seq<Msg>, n: nat, tid: u32)
    requires ChunkOrCancel(m, tid) && GrowsBy(a + [m], c, n, tid)
    ensures GrowsBy(a, c, n + 1, tid)
  {
    assert c[..|a|] == c[..|a| + 1][..|a|];
    assert c[|a|] == c[..|a| + 1][|a|];
  }

  /** COMPLETE goes out only in a tick that found the task drained by an earlier one, and alone. */
  lemma CompleteIsLater(s: Engine, io: TickIo)
    requires SendOk(s.send)
    ensures var s', sent := Tick(s, io).s, SenderMsgs(s.wire);
            if s.send.state == Done then
              SenderMsgs(s'.wire) == sent || SenderMsgs(s'.wire) == sent + [Complete(s.send.tid)]
            else if s.send.state == Active then GrowsBy(sent, SenderMsgs(s'.wire), CHUNKS_PER_ROUND, s.send.tid)
            else s' == s
  {
    if s.send.state == Done {
      TransmitMsgs(s, Complete(s.send.tid), io[0].sendOk);
    } else if s.send.state == Active {
      RoundMsgs(s, io);
    }
  }

  lemma {:induction false} RoundMsgs(s: Engine, io: seq<ChunkIo>)
    requires Cursor(s.send)
    ensures GrowsBy(SenderMsgs(s.wire), SenderMsgs(SendChunks(s, io).s.wire), |io|, s.send.tid)
    decreases |io|
  {
    if io != [] && s.send.sent < s.send.size {
      var pass := SendChunk(s, io[0]);
      SendChunkMeaning(s, io[0]);
      TransmitMsgs(s, Cancel(s.send.tid), io[0].sendOk);
      if !pass.halted {
        var m := ChunkMsg(s.send.tid, s.send.fp.value.content, s.send.sent / CHUNK);
        SenderMsgsStep(s.wire, Sent(true, m));
        MovedCursor(s.send);
        RoundMsgs(pass.s, io[1..]);
        GrowsOn(SenderMsgs(s.wire), m, SenderMsgs(SendChunks(s, io).s.wire), |io| - 1, s.send.tid);
      }
    }
  }

  /** The frame m of this event is the INIT of a /sendfile in an idle state, or the CANCEL of a /cancel for the task. */
  predicate CommandFrame(t: SendTask, e: Event, m: Msg) {
    || (e.SendFileCommand? && !t.busy && e.probe.Opened? && e.probe.content != []
        && m == Init(e.target, e.filename, |e.probe.content|))
    || (e.CancelCommand? && t.busy && t.tid == e.tid && m == Cancel(e.tid))
  }

  /** Events other than ticks put at most one frame of the sender on the wire, and only these. */
  lemma OnlyTicksSend(s: Engine, e: Event)
    requires SendOk(s.send) && !e.TickTimeout?
    ensures var sent, sent' := SenderMsgs(s.wire), SenderMsgs(Step(s, e).wire);
            sent' == sent || exists m :: CommandFrame(s.send, e, m) && sent' == sent + [m]
  {
    match e
    case SendFileCommand(target, filename, probe, _) =>
      if probe.Opened? {
        TransmitMsgs(s, Init(target, filename, |probe.content|), e.ok);
      }
    case AcceptCommand(tid, io) => AcceptSenderSame(s, tid, io);
    case RejectCommand(tid, ok) => ReceiverTransmit(s, Reject(tid), ok);
    case CancelCommand(tid, ok) =>
      TransmitMsgs(s, Cancel(tid), ok);
      ReceiverTransmit(s, Cancel(tid), ok);
    case AnnouncementIn(kind, tid, ok) => AnnouncementEffect(s, kind, tid, ok);
    case FrameIn(f, write, ok) => FrameEffect(s, f, write, ok);
    case ErrorIn(_) =>
    case Reset => ResetSlotsSenderSame(if s.send.busy then s.(send := NO_SEND) else s, 0);
  }

  // ---- consent ----

  predicate AcceptSignal(e: Event, tid: u32) {
    || (e.AnnouncementIn? && e.kind == Accepted && e.tid == tid)
    || (e.FrameIn? && |e.frame.payload| == 4 && e.frame.msgType == MSG_FILE_ACCEPT && ReadU32(e.frame.payload) == tid)
  }

  predicate Granted(t: SendTask) {
    t.state in {Active, Done, WaitComplete}
  }

  /** The frames that open a task. */
  function Inits(ms: seq<Msg>): nat {
    if ms == [] then 0 else Inits(ms[..|ms| - 1]) + if ms[|ms| - 1].Init? then 1 else 0
  }

  /** The i-th event was the consent for the task now in the slot: its id, the slot waiting for it, no INIT since. */
  predicate ConsentAt(pre: Disk, es: seq<Event>, i: nat) {
    && i < |es|
    && AcceptSignal(es[i], Run(Start(pre), es).send.tid)
    && Run(Start(pre), es[..i]).send.state == Pending
    && Run(Start(pre), es[..i]).send.tid == Run(Start(pre), es).send.tid
    && Inits(SenderMsgs(Run(Start(pre), es[..i]).wire)) == Inits(SenderMsgs(Run(Start(pre), es).wire))
  }

  lemma InitsStep(ms: seq<Msg>, m: Msg)
    ensures Inits(ms + [m]) == Inits(ms) + if m.Init? then 1 else 0
  {
  }

  lemma {:induction false} RoundInits(s: Engine, io: seq<ChunkIo>)
    requires Cursor(s.send) && s.send.state == Active
    ensures var s' := SendChunks(s, io).s;
            && Inits(SenderMsgs(s'.wire)) == Inits(SenderMsgs(s.wire))
            && (if SendChunks(s, io).halted then s'.send == NO_SEND
                else s'.send.tid == s.send.tid && s'.send.state == Active)
    decreases |io|
  {
    if io != [] && s.send.sent < s.send.size {
      var pass := SendChunk(s, io[0]);
      SendChunkMeaning(s, io[0]);
      TransmitMsgs(s, Cancel(s.send.tid), io[0].sendOk);
      InitsStep(SenderMsgs(s.wire), Cancel(s.send.tid));
      if !pass.halted {
        SenderMsgsStep(s.wire, pass.s.wire[|s.wire|]);
        InitsStep(SenderMsgs(s.wire), pass.s.wire[|s.wire|].msg);
        MovedCursor(s.send);
        RoundInits(pass.s, io[1..]);
      }
    }
  }

  /** A granted task was granted before, as the same task, or is being granted by this event. */
  predicate GrantedStep(s: Engine, e: Event, s': Engine) {
    Granted(s'.send) ==>
      && s'.send.tid == s.send.tid
      && Inits(SenderMsgs(s'.wire)) == Inits(SenderMsgs(s.wire))
      && (Granted(s.send) || (s.send.state == Pending && AcceptSignal(e, s.send.tid)))
  }

  lemma TickGranted(s: Engine, io: TickIo)
    requires SendOk(s.send)
    ensures GrantedStep(s, TickTimeout(io), Tick(s, io).s)
  {
    if s.send.state == Done {
      TransmitMsgs(s, Complete(s.send.tid), io[0].sendOk);
      InitsStep(SenderMsgs(s.wire), Complete(s.send.tid));
    } else if s.send.state == Active {
      RoundInits(s, io);
    }
  }

  lemma SendFileGranted(s: Engine, e: Event)
    requires e.SendFileCommand?
    ensures GrantedStep(s, e, Step(s, e))
  {
  }

  lemma CancelGranted(s: Engine, e: Event)
    requires e.CancelCommand?
    ensures GrantedStep(s, e, Step(s, e))
  {
    ReceiverTransmit(s, Cancel(e.tid), e.ok);
  }

  predicate Activates(t: SendTask, e: Event, t': SendTask) {
    t == t' || t' == NO_SEND || (t.state == Pending && AcceptSignal(e, t.tid) && t'.tid == t.tid)
  }

  lemma ControlActivates(s: Engine, e: Event)
    requires e.FrameIn? && |e.frame.payload| == 4
    ensures Activates(s.send, e, Step(s, e).send)
  {
  }

  lemma FrameActivates(s: Engine, e: Event)
    requires e.FrameIn?
    ensures Activates(s.send, e, Step(s, e).send)
  {
    if |e.frame.payload| == 4 {
      ControlActivates(s, e);
    } else if e.frame.msgType == MSG_FILE_CHUNK {
      ChunkSenderSame(s, e.frame.payload, e.write, e.ok);
    }
  }

  lemma AnnouncementActivates(s: Engine, e: Event)
    requires e.AnnouncementIn?
    ensures Activates(s.send, e, Step(s, e).send) || Step(s, e).send.state == Pending
  {
  }

  lemma SignalGranted(s: Engine, e: Event)
    requires e.FrameIn? || e.AnnouncementIn?
    ensures GrantedStep(s, e, Step(s, e))
  {
    if e.FrameIn? {
      FrameEffect(s, e.frame, e.write, e.ok);
      FrameActivates(s, e);
    } else {
      AnnouncementEffect(s, e.kind, e.tid, e.ok);
      AnnouncementActivates(s, e);
    }
  }

  lemma StepGranted(s: Engine, e: Event)
    requires SendOk(s.send)
    ensures GrantedStep(s, e, Step(s, e))
  {
    match e
    case SendFileCommand(_, _, _, _) => SendFileGranted(s, e);
    case AcceptCommand(tid, io) => AcceptSenderSame(s, tid, io);
    case RejectCommand(tid, ok) => ReceiverTransmit(s, Reject(tid), ok);
    case CancelCommand(_, _) => CancelGranted(s, e);
    case AnnouncementIn(_, _, _) => SignalGranted(s, e);
    case FrameIn(_, _, _) => SignalGranted(s, e);
    case ErrorIn(_) =>
    case TickTimeout(io) => TickGranted(s, io);
    case Reset => ResetSlotsSenderSame(if s.send.busy then s.(send := NO_SEND) else s, 0);
  }

  lemma RunGranted(pre: Disk, es: seq<Event>)
    requires es != []
    ensures GrantedStep(Run(Start(pre), es[..|es| - 1]), es[|es| - 1], Run(Start(pre), es))
  {
    var past := SenderLanguage(pre, es[..|es| - 1]);
    StepGranted(Run(Start(pre), es[..|es| - 1]), es[|es| - 1]);
  }

  lemma ConsentKept(pre: Disk, es: seq<Event>, before: seq<Event>, e: Event, i: nat)
    requires es == before + [e] && ConsentAt(pre, before, i)
    requires GrantedStep(Run(Start(pre), before), e, Run(Start(pre), es)) && Granted(Run(Start(pre), es).send)
    ensures ConsentAt(pre, es, i)
  {
    assert es[..i] == before[..i];
  }

  /** Every granted task had its consent: an ACCEPT for its id, received while it was waiting under that id, with no new
      INIT since. */
  lemma {:induction false} ConsentFirst(pre: Disk, es: seq<Event>) returns (i: nat)
    requires Granted(Run(Start(pre), es).send)
    ensures ConsentAt(pre, es, i)
    decreases |es|
  {
    var before, e := es[..|es| - 1], es[|es| - 1];
    RunGranted(pre, es);
    if Granted(Run(Start(pre), before).send) {
      i := ConsentFirst(pre, before);
      ConsentKept(pre, es, before, e, i);
    } else {
      i := |before|;
      assert es[..i] == before;
    }
  }

  /** A tick that puts anything on the wire does so with consent. */
  lemma NothingWithoutConsent(pre: Disk, es: seq<Event>, io: TickIo) returns (i: nat)
    requires SenderMsgs(Tick(Run(Start(pre), es), io).s.wire) != SenderMsgs(Run(Start(pre), es).wire)
    ensures ConsentAt(pre, es, i)
  {
    var past := SenderLanguage(pre, es);
    CompleteIsLater(Run(Start(pre), es), io);
    i := ConsentFirst(pre, es);
  }

  // ---- which event sent a frame ----

  /** What the sender has put on the wire in a run. */
  function Said(pre: Disk, es: seq<Event>): seq<Msg> {
    SenderMsgs(Run(Start(pre), es).wire)
  }

  lemma SaidStep(pre: Disk, es: seq<Event>)
    requires es != []
    ensures Said(pre, es[..|es| - 1]) <= Said(pre, es)
  {
    var before, e := es[..|es| - 1], es[|es| - 1];
    var past := SenderLanguage(pre, before);
    if e.TickTimeout? {
      CompleteIsLater(Run(Start(pre), before), e.io);
    } else {
      OnlyTicksSend(Run(Start(pre), before), e);
    }
  }

  lemma {:induction false} SaidGrows(pre: Disk, es: seq<Event>, i: nat)
    requires i <= |es|
    ensures Said(pre, es[..i]) <= Said(pre, es)
    decreases |es|
  {
    if i == |es| {
      assert es[..i] == es;
    } else {
      SaidStep(pre, es);
      SaidGrows(pre, es[..|es| - 1], i);
      assert es[..|es| - 1][..i] == es[..i];
    }
  }

  /** Event j put frame k on the wire. */
  predicate SentBy(pre: Disk, es: seq<Event>, k: nat, j: nat) {
    j < |es| && |Said(pre, es[..j])| <= k < |Said(pre, es[..j + 1])|
  }

  lemma {:induction false} SomeEventSent(pre: Disk, es: seq<Event>, k: nat) returns (j: nat)
    requires k < |Said(pre, es)|
    ensures SentBy(pre, es, k, j) && Said(pre, es[..j + 1])[k] == Said(pre, es)[k]
    decreases |es|
  {
    var before := es[..|es| - 1];
    if k < |Said(pre, before)| {
      j := SomeEventSent(pre, before, k);
      assert before[..j] == es[..j] && before[..j + 1] == es[..j + 1];
      SaidStep(pre, es);
    } else {
      j := |before|;
      assert es[..j + 1] == es;
    }
  }

  lemma {:induction false} NoInitSince(ms: seq<Msg>, n: nat)
    requires n <= |ms|
    ensures Inits(ms[..n]) <= Inits(ms)
    ensures Inits(ms[..n]) == Inits(ms) ==> forall k :: n <= k < |ms| ==> !ms[k].Init?
    decreases |ms|
  {
    if n == |ms| {
      assert ms[..n] == ms;
    } else {
      NoInitSince(ms[..|ms| - 1], n);
      assert ms[..|ms| - 1][..n] == ms[..n];
    }
  }

  /** Event i consented to frame k: an ACCEPT for its id while the task was waiting under that id, before the frame and
      with no INIT between them. */
  predicate ConsentTo(pre: Disk, es: seq<Event>, i: nat, k: nat, tid: u32)
    requires k < |Said(pre, es)|
  {
    && i < |es| && AcceptSignal(es[i], tid)
    && Run(Start(pre), es[..i]).send.state == Pending && Run(Start(pre), es[..i]).send.tid == tid
    && |Said(pre, es[..i])| <= k
    && forall q :: |Said(pre, es[..i])| <= q <= k ==> !Said(pre, es)[q].Init?
  }

  /** now is was and further frames of this task, none of them an INIT. */
  predicate NewFrames(was: seq<Msg>, now: seq<Msg>, tid: u32) {
    was <= now && forall q :: |was| <= q < |now| ==> !now[q].Init? && now[q].tid == tid
  }

  lemma TickSays(s: Engine, io: TickIo)
    requires SendOk(s.send)
    ensures NewFrames(SenderMsgs(s.wire), SenderMsgs(Tick(s, io).s.wire), s.send.tid)
  {
    CompleteIsLater(s, io);
  }

  lemma TickSpeaks(pre: Disk, es: seq<Event>, j: nat) returns (i: nat)
    requires j < |es| && es[j].TickTimeout? && |Said(pre, es[..j])| < |Said(pre, es[..j + 1])|
    ensures ConsentAt(pre, es[..j], i)
    ensures NewFrames(Said(pre, es[..j]), Said(pre, es[..j + 1]), Run(Start(pre), es[..j]).send.tid)
  {
    var past := SenderLanguage(pre, es[..j]);
    assert es[..j + 1][..j] == es[..j];
    TickSays(Run(Start(pre), es[..j]), es[j].io);
    i := NothingWithoutConsent(pre, es[..j], es[j].io);
  }

  lemma NoInitAt(m0: seq<Msg>, m1: seq<Msg>, m2: seq<Msg>, m: seq<Msg>, q: nat)
    requires m0 <= m1 && m1 <= m && m2 <= m && |m0| <= q < |m2| && Inits(m0) == Inits(m1)
    requires |m1| <= q ==> !m2[q].Init?
    ensures !m[q].Init?
  {
    if q < |m1| {
      NoInitSince(m1, |m0|);
      assert m1[..|m0|] == m0;
      assert m[q] == m1[q];
    } else {
      assert m[q] == m2[q];
    }
  }

  lemma NoInitUpTo(m0: seq<Msg>, m1: seq<Msg>, m2: seq<Msg>, m: seq<Msg>, k: nat, tid: u32)
    requires m0 <= m1 && m1 <= m && m2 <= m && k < |m2| && Inits(m0) == Inits(m1)
    requires NewFrames(m1, m2, tid)
    ensures forall q :: |m0| <= q <= k ==> !m[q].Init?
  {
    forall q | |m0| <= q <= k ensures !m[q].Init? {
      NoInitAt(m0, m1, m2, m, q);
    }
  }

  lemma ConsentStands(pre: Disk, es: seq<Event>, k: nat, j: nat, i: nat, tid: u32)
    requires SentBy(pre, es, k, j) && k < |Said(pre, es)|
    requires ConsentAt(pre, es[..j], i) && Run(Start(pre), es[..j]).send.tid == tid
    requires NewFrames(Said(pre, es[..j]), Said(pre, es[..j + 1]), tid)
    ensures ConsentTo(pre, es, i, k, tid)
  {
    assert es[..j][..i] == es[..i];
    SaidGrows(pre, es[..j], i);
    SaidGrows(pre, es, j);
    SaidGrows(pre, es, j + 1);
    NoInitUpTo(Said(pre, es[..i]), Said(pre, es[..j]), Said(pre, es[..j + 1]), Said(pre, es), k, tid);
  }

  lemma CommandSpeaks(pre: Disk, es: seq<Event>, k: nat, j: nat)
    requires SentBy(pre, es, k, j) && !es[j].TickTimeout?
    ensures CommandFrame(Run(Start(pre), es[..j]).send, es[j], Said(pre, es[..j + 1])[k])
  {
    var past := SenderLanguage(pre, es[..j]);
    assert es[..j + 1][..j] == es[..j];
    OnlyTicksSend(Run(Start(pre), es[..j]), es[j]);
  }

  /** Every INIT on the wire is that of a /sendfile that found the slot idle, with the length of the file it opened. */
  lemma InitFromCommand(pre: Disk, es: seq<Event>, k: nat) returns (j: nat)
    requires k < |Said(pre, es)| && Said(pre, es)[k].Init?
    ensures SentBy(pre, es, k, j) && es[j].SendFileCommand? && !Run(Start(pre), es[..j]).send.busy
    ensures es[j].probe.Opened? && es[j].probe.content != []
    ensures Said(pre, es)[k] == Init(es[j].target, es[j].filename, |es[j].probe.content|)
  {
    j := SomeEventSent(pre, es, k);
    if es[j].TickTimeout? {
      var i := TickSpeaks(pre, es, j);
    } else {
      CommandSpeaks(pre, es, k, j);
    }
  }

  /** No chunk and no COMPLETE is on the wire, at any time in any run, without such an ACCEPT before it. */
  lemma ConsentBefore(pre: Disk, es: seq<Event>, k: nat) returns (i: nat)
    requires k < |Said(pre, es)| && (Said(pre, es)[k].Chunk? || Said(pre, es)[k].Complete?)
    ensures ConsentTo(pre, es, i, k, Said(pre, es)[k].tid)
  {
    var j := SomeEventSent(pre, es, k);
    if es[j].TickTimeout? {
      i := TickSpeaks(pre, es, j);
      ConsentStands(pre, es, k, j, i, Said(pre, es)[k].tid);
    } else {
      CommandSpeaks(pre, es, k, j);
    }
  }

  lemma DoneTick(pre: Disk, es: seq<Event>, k: nat, j: nat)
    requires SentBy(pre, es, k, j) && es[j].TickTimeout? && Said(pre, es[..j + 1])[k].Complete?
    ensures Run(Start(pre), es[..j]).send.state == Done
    ensures |Said(pre, es[..j])| == k && |Said(pre, es[..j + 1])| == k + 1
  {
    var past := SenderLanguage(pre, es[..j]);
    assert es[..j + 1][..j] == es[..j];
    CompleteIsLater(Run(Start(pre), es[..j]), es[j].io);
  }

  /** COMPLETE is put on the wire by a tick that found every chunk sent by earlier events, and that sent nothing else.
      */
  lemma CompleteAlone(pre: Disk, es: seq<Event>, k: nat) returns (j: nat)
    requires k < |Said(pre, es)| && Said(pre, es)[k].Complete?
    ensures SentBy(pre, es, k, j) && es[j].TickTimeout? && Run(Start(pre), es[..j]).send.state == Done
    ensures |Said(pre, es[..j])| == k && |Said(pre, es[..j + 1])| == k + 1
  {
    j := SomeEventSent(pre, es, k);
    if es[j].TickTimeout? {
      DoneTick(pre, es, k, j);
    } else {
      CommandSpeaks(pre, es, k, j);
    }
  }
}
