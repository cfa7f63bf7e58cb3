/** The wire is a log: what was sent never changes what happens later. So an announcement the client has no room for,
    and that it answers with REJECT, has no other effect, ever. */
module Log {
  import opened Bytes
  import opened Naming
  import opened Transfer
  import opened Protocol

  /** s' has sent more than s; t' is s' with the log w in place of that of s. */
  predicate Logged(s: Engine, w: seq<Sent>, s': Engine, t': Engine) {
    s.wire <= s'.wire && t' == s'.(wire := w + s'.wire[|s.wire|..])
  }

  function Relogged(s: Engine, w: seq<Sent>): Engine {
    s.(wire := w)
  }

  lemma LoggedSilent(s: Engine, w: seq<Sent>, s': Engine)
    requires s'.wire == s.wire
    ensures Logged(s, w, s', Relogged(s', w))
  {
    assert w + [] == w;
  }

  lemma LoggedThen(s: Engine, w: seq<Sent>, s1: Engine, t1: Engine, s2: Engine, t2: Engine)
    requires Logged(s, w, s1, t1) && Logged(s1, t1.wire, s2, t2)
    ensures Logged(s, w, s2, t2)
  {
    assert w + s1.wire[|s.wire|..] + s2.wire[|s1.wire|..] == w + s2.wire[|s.wire|..];
  }

  lemma TransmitLogged(s: Engine, w: seq<Sent>, bySender: bool, msg: Msg, ok: bool)
    ensures Logged(s, w, Transmit(s, bySender, msg, ok), Transmit(Relogged(s, w), bySender, msg, ok))
  {
    assert w + [] == w;
  }

  lemma SendFileLogged(s: Engine, w: seq<Sent>, e: Event)
    requires e.SendFileCommand?
    ensures Logged(s, w, Step(s, e), Step(Relogged(s, w), e))
  {
    assert w + [] == w;
  }

  lemma AcceptAsLogged(s: Engine, w: seq<Sent>, i: int, io: AcceptIo)
    requires SlotIndex(s, i)
    ensures Logged(s, w, AcceptAs(s, i, io).s, AcceptAs(Relogged(s, w), i, io).s)
  {
    assert w + [] == w;
  }

  lemma RejectSlotLogged(s: Engine, w: seq<Sent>, i: int, ok: bool)
    requires SlotIndex(s, i)
    ensures Logged(s, w, RejectSlot(s, i, ok), RejectSlot(Relogged(s, w), i, ok))
  {
    assert w + [] == w;
  }

  lemma AcceptLogged(s: Engine, w: seq<Sent>, tid: u32, io: AcceptIo)
    ensures Logged(s, w, AcceptCmd(s, tid, io).s, AcceptCmd(Relogged(s, w), tid, io).s)
  {
    var i := Find(s.recv, tid);
    if i < 0 || s.recv[i].open || ActiveSlot(s.recv) >= 0 || !s.recv[i].inited {
      LoggedSilent(s, w, s);
    } else {
      RejectSlotLogged(s, w, i, io.sendOk);
      var base := Sanitize(s.recv[i].filename, MAX_FILENAME_LEN);
      if s.recv[i].size > 0 && base.Some? {
        var name := UniqueName(base.value, NameTaken(s.disk.Keys), MAX_FILENAME_LEN);
        if name.Some? {
          AcceptAsLogged(s.(recv := s.recv[i := s.recv[i].(saveName := name.value)]), w, i, io);
        }
      }
    }
  }

  lemma CommandLogged(s: Engine, w: seq<Sent>, e: Event)
    requires e.RejectCommand? || e.CancelCommand?
    ensures Logged(s, w, Step(s, e), Step(Relogged(s, w), e))
  {
    assert w + [] == w;
  }

  lemma SignalsSilent(s: Engine, w: seq<Sent>, tid: u32)
    ensures SignalAccept(s, tid).wire == s.wire
    ensures SignalAccept(Relogged(s, w), tid) == Relogged(SignalAccept(s, tid), w)
    ensures SignalReject(s, tid).wire == s.wire
    ensures SignalReject(Relogged(s, w), tid) == Relogged(SignalReject(s, tid), w)
    ensures SignalCancel(s, tid).wire == s.wire
    ensures SignalCancel(Relogged(s, w), tid) == Relogged(SignalCancel(s, tid), w)
  {
  }

  lemma CompleteSilent(s: Engine, w: seq<Sent>, tid: u32)
    ensures CompleteReceive(s, tid).wire == s.wire
    ensures CompleteReceive(Relogged(s, w), tid) == Relogged(CompleteReceive(s, tid), w)
  {
  }

  lemma IncomingLogged(s: Engine, w: seq<Sent>, tid: u32, ok: bool)
    ensures Logged(s, w, AnnounceIncoming(s, tid, ok), AnnounceIncoming(Relogged(s, w), tid, ok))
  {
    assert w + [] == w;
  }

  lemma AnnouncementLogged(s: Engine, w: seq<Sent>, kind: AnnKind, tid: u32, ok: bool)
    ensures Logged(s, w, Announcement(s, kind, tid, ok), Announcement(Relogged(s, w), kind, tid, ok))
  {
    if kind == RecvPending {
      IncomingLogged(s, w, tid, ok);
    } else {
      SignalsSilent(s, w, tid);
      CompleteSilent(s, w, tid);
      LoggedSilent(s, w, Announcement(s, kind, tid, ok));
    }
  }

  lemma ChunkLogged(s: Engine, w: seq<Sent>, c: ChunkIn, write: WriteResult, ok: bool)
    ensures Logged(s, w, AcceptChunk(s, c, write, ok), AcceptChunk(Relogged(s, w), c, write, ok))
  {
    assert w + [] == w;
  }

  lemma ControlLogged(s: Engine, w: seq<Sent>, msgType: byte, tid: u32)
    ensures Logged(s, w, ControlSignal(s, msgType, tid), ControlSignal(Relogged(s, w), msgType, tid))
  {
    SignalsSilent(s, w, tid);
    CompleteSilent(s, w, tid);
    LoggedSilent(s, w, ControlSignal(s, msgType, tid));
  }

  lemma FrameLogged(s: Engine, w: seq<Sent>, e: Event)
    requires e.FrameIn?
    ensures Logged(s, w, Step(s, e), Step(Relogged(s, w), e))
  {
    var f := e.frame;
    if |f.payload| == 4 {
      ControlLogged(s, w, f.msgType, ReadU32(f.payload));
    } else if f.msgType == MSG_FILE_INIT {
      LoggedSilent(s, w, HandleInit(s, f.payload));
    } else if f.msgType == MSG_FILE_CHUNK && |f.payload| >= 12 {
      ChunkLogged(s, w, ReadChunk(f.payload), e.write, e.ok);
    } else {
      LoggedSilent(s, w, s);
    }
  }

  lemma ErrorLogged(s: Engine, w: seq<Sent>, e: Event)
    requires e.ErrorIn?
    ensures Logged(s, w, Step(s, e), Step(Relogged(s, w), e))
  {
    assert w + [] == w;
  }

  lemma PassLogged(s: Engine, w: seq<Sent>, io: ChunkIo)
    ensures var p, q := SendChunk(s, io), SendChunk(Relogged(s, w), io);
            q.halted == p.halted && q.rc == p.rc && Logged(s, w, p.s, q.s)
  {
    assert w + [] == w;
  }

  lemma {:induction false} RoundLogged(s: Engine, w: seq<Sent>, io: seq<ChunkIo>)
    ensures var p, q := SendChunks(s, io), SendChunks(Relogged(s, w), io);
            q.halted == p.halted && q.rc == p.rc && Logged(s, w, p.s, q.s)
    decreases |io|
  {
    if io == [] || s.send.sent >= s.send.size {
      LoggedSilent(s, w, s);
    } else {
      var p, q := SendChunk(s, io[0]), SendChunk(Relogged(s, w), io[0]);
      PassLogged(s, w, io[0]);
      if !p.halted {
        RoundLogged(p.s, q.s.wire, io[1..]);
        LoggedThen(s, w, p.s, q.s, SendChunks(p.s, io[1..]).s, SendChunks(q.s, io[1..]).s);
      }
    }
  }

  lemma TickLogged(s: Engine, w: seq<Sent>, io: TickIo)
    ensures Logged(s, w, Tick(s, io).s, Tick(Relogged(s, w), io).s)
  {
    if !SendActive(s) {
      LoggedSilent(s, w, s);
    } else if s.send.state == Done {
      TransmitLogged(s, w, true, Complete(s.send.tid), io[0].sendOk);
    } else {
      RoundLogged(s, w, io);
    }
  }

  lemma {:induction false} ResetLogged(s: Engine, w: seq<Sent>, i: nat)
    requires i <= |s.recv|
    ensures ResetSlots(s, i).wire == s.wire && ResetSlots(Relogged(s, w), i) == Relogged(ResetSlots(s, i), w)
    decreases |s.recv| - i
  {
    if i < |s.recv| {
      ResetLogged(if s.recv[i].busy then ClearSlot(s, i) else s, w, i + 1);
    }
  }

  /** No event looks at what was sent before. */
  lemma StepLogged(s: Engine, w: seq<Sent>, e: Event)
    ensures Logged(s, w, Step(s, e), Step(Relogged(s, w), e))
  {
    match e
    case SendFileCommand(_, _, _, _) => SendFileLogged(s, w, e);
    case AcceptCommand(tid, io) => AcceptLogged(s, w, tid, io);
    case RejectCommand(_, _) => CommandLogged(s, w, e);
    case CancelCommand(_, _) => CommandLogged(s, w, e);
    case AnnouncementIn(kind, tid, ok) => AnnouncementLogged(s, w, kind, tid, ok);
    case FrameIn(_, _, _) => FrameLogged(s, w, e);
    case ErrorIn(_) => ErrorLogged(s, w, e);
    case TickTimeout(io) => TickLogged(s, w, io);
    case Reset =>
      var s1 := if s.send.busy then s.(send := NO_SEND) else s;
      ResetLogged(s1, w, 0);
      LoggedSilent(s, w, Step(s, e));
  }

  lemma {:induction false} RunLogged(s: Engine, w: seq<Sent>, es: seq<Event>)
    ensures Logged(s, w, Run(s, es), Run(Relogged(s, w), es))
    decreases |es|
  {
    if es == [] {
      LoggedSilent(s, w, s);
    } else {
      var before, e := es[..|es| - 1], es[|es| - 1];
      var s1, t1 := Run(s, before), Run(Relogged(s, w), before);
      RunLogged(s, w, before);
      StepLogged(s1, t1.wire, e);
      LoggedThen(s, w, s1, t1, Step(s1, e), Step(t1, e));
    }
  }

  /** An announcement that finds the table full, whatever happens after it: when its REJECT goes out, every later
      state is the one without that announcement, but for the REJECT in the log; no task is lost, and no number is
      used up. Otherwise the only difference is that the connection is down. */
  lemma FullTableNoTrace(s: Engine, tid: u32, ok: bool, es: seq<Event>)
    requires forall j :: 0 <= j < |s.recv| ==> s.recv[j].busy
    ensures s.wire <= Run(s, es).wire
    ensures Run(s, [AnnouncementIn(RecvPending, tid, ok)] + es) ==
            if s.up && ok then
              Run(s, es).(wire := s.wire + [Sent(false, Reject(tid))] + Run(s, es).wire[|s.wire|..])
            else Run(s.(up := false), es)
  {
    var e := AnnouncementIn(RecvPending, tid, ok);
    var w := s.wire + [Sent(false, Reject(tid))];
    assert Run(s, [e]) == Step(s, e);
    assert Step(s, e) == if s.up && ok then Relogged(s, w) else s.(up := false);
    RunConcat(s, [e], es);
    RunLogged(s, w, es);
  }
}
