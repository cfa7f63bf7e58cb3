/** The server says everything twice, as an announcement and as a control frame: what the second signal does. */
module DualSignal {
  import opened Bytes
  import opened Transfer
  import opened Protocol
  import opened ReceiveTable

  /** Ticks between the two signals. */
  function Ticking(s: Engine, ios: seq<TickIo>): Engine
    decreases |ios|
  {
    if ios == [] then s else Ticking(Tick(s, ios[0]).s, ios[1..])
  }

  function ControlFrame(msgType: byte, tid: u32): Frame {
    Frame(msgType, TidPayload(tid))
  }

  /** The frame form of a signal reaches the same code as the announcement. */
  lemma FrameForms(s: Engine, tid: u32, write: WriteResult, ok: bool)
    ensures HandleFrame(s, ControlFrame(MSG_FILE_ACCEPT, tid), write, ok) == SignalAccept(s, tid)
    ensures HandleFrame(s, ControlFrame(MSG_FILE_REJECT, tid), write, ok) == SignalReject(s, tid)
    ensures HandleFrame(s, ControlFrame(MSG_FILE_CANCEL, tid), write, ok) == SignalCancel(s, tid)
    ensures HandleFrame(s, ControlFrame(MSG_FILE_COMPLETE, tid), write, ok) == CompleteReceive(s, tid)
  {
    ReadAfterWrite([]);
    assert BigEndian(tid, 4) + [] == BigEndian(tid, 4);
  }

  // ---- what ticks cannot do ----

  /** The send task is the same one, further on, or gone. */
  predicate Onward(t: SendTask, t': SendTask) {
    || t' == NO_SEND
    || t' == t
    || (t'.tid == t.tid && t'.busy && t.busy && t.state in {Active, Done} && t'.state in {Active, Done, WaitComplete})
  }

  lemma {:induction false} RoundOnward(s: Engine, io: seq<ChunkIo>)
    requires s.send.busy && s.send.state == Active
    ensures var pass := SendChunks(s, io);
            if pass.halted then pass.s.send == NO_SEND
            else pass.s.send.busy && pass.s.send.tid == s.send.tid && pass.s.send.state == Active
    decreases |io|
  {
    if io != [] && s.send.sent < s.send.size && !SendChunk(s, io[0]).halted {
      RoundOnward(SendChunk(s, io[0]).s, io[1..]);
    }
  }

  lemma TickOnward(s: Engine, io: TickIo)
    ensures Onward(s.send, Tick(s, io).s.send)
  {
    if SendActive(s) && s.send.state == Active {
      RoundOnward(s, io);
    }
  }

  lemma {:induction false} TickingOnward(s: Engine, ios: seq<TickIo>)
    ensures Onward(s.send, Ticking(s, ios).send) && SameReceiver(s, Ticking(s, ios))
    decreases |ios|
  {
    if ios != [] {
      TickOnward(s, ios[0]);
      TickSameReceiver(s, ios[0]);
      TickingOnward(Tick(s, ios[0]).s, ios[1..]);
    }
  }

  // ---- accept and reject ----

  /** A second ACCEPT, however late, neither restarts nor rewinds the transfer. */
  lemma AcceptTwice(s: Engine, tid: u32, ios: seq<TickIo>)
    ensures var s1 := Ticking(SignalAccept(s, tid), ios);
            SignalAccept(s1, tid) == s1
  {
    TickingOnward(SignalAccept(s, tid), ios);
  }

  /** After a REJECT no send task has the id, so a second one finds nothing. */
  lemma RejectTwice(s: Engine, tid: u32, ios: seq<TickIo>)
    ensures var s1 := Ticking(SignalReject(s, tid), ios);
            SignalReject(s1, tid) == s1 && !SendMatches(s1, tid)
  {
    TickingOnward(SignalReject(s, tid), ios);
  }

  // ---- cancel ----

  function ReceivingFrom(recv: seq<RecvTask>, tid: u32, i: nat): nat
    requires i <= |recv|
    decreases |recv| - i
  {
    if i == |recv| then 0
    else (if recv[i].busy && recv[i].tid == tid then 1 else 0) + ReceivingFrom(recv, tid, i + 1)
  }

  /** How many tasks, sending and receiving, have this id. */
  function Holders(s: Engine, tid: u32): nat {
    (if SendMatches(s, tid) then 1 else 0) + ReceivingFrom(s.recv, tid, 0)
  }

  lemma {:induction false} HoldersFind(recv: seq<RecvTask>, tid: u32, i: nat)
    requires i <= |recv|
    ensures FindFrom(recv, tid, i) < 0 <==> ReceivingFrom(recv, tid, i) == 0
    decreases |recv| - i
  {
    if i < |recv| {
      HoldersFind(recv, tid, i + 1);
    }
  }

  lemma {:induction false} HoldersCleared(recv: seq<RecvTask>, tid: u32, k: int, i: nat)
    requires i <= |recv| && 0 <= k < |recv| && recv[k].busy && recv[k].tid == tid
    ensures ReceivingFrom(recv[k := FREE], tid, i) == ReceivingFrom(recv, tid, i) - if i <= k then 1 else 0
    decreases |recv| - i
  {
    if i < |recv| {
      HoldersCleared(recv, tid, k, i + 1);
    }
  }

  /** A cancel signal takes one holder away. */
  lemma CancelTakesOne(s: Engine, tid: u32)
    requires |s.recv| == MAX_RECV
    ensures Holders(SignalCancel(s, tid), tid) == if Holders(s, tid) == 0 then 0 else Holders(s, tid) - 1
    ensures SignalCancel(s, tid) == s <==> Holders(s, tid) == 0
    ensures !SendMatches(SignalCancel(s, tid), tid)
  {
    var i := Find(s.recv, tid);
    HoldersFind(s.recv, tid, 0);
    if !SendMatches(s, tid) && i >= 0 {
      HoldersCleared(s.recv, tid, i, 0);
    }
  }

  /** The pair of cancel signals acts like the first alone exactly when at most one task has the id. */
  lemma CancelTwice(s: Engine, tid: u32, ios: seq<TickIo>)
    requires |s.recv| == MAX_RECV
    ensures var s1 := Ticking(SignalCancel(s, tid), ios);
            SignalCancel(s1, tid) == s1 <==> Holders(s, tid) <= 1
  {
    var s0 := SignalCancel(s, tid);
    CancelTakesOne(s, tid);
    TickingOnward(s0, ios);
    CancelTakesOne(Ticking(s0, ios), tid);
  }

  /** A transfer to oneself: the pair removes the sending and the receiving task. */
  lemma CancelBothSides(s: Engine, tid: u32, ios: seq<TickIo>)
    requires |s.recv| == MAX_RECV && SendMatches(s, tid) && ReceivingFrom(s.recv, tid, 0) == 1
    ensures Holders(SignalCancel(Ticking(SignalCancel(s, tid), ios), tid), tid) == 0
  {
    var s0 := SignalCancel(s, tid);
    CancelTakesOne(s, tid);
    TickingOnward(s0, ios);
    CancelTakesOne(Ticking(s0, ios), tid);
  }

  // ---- complete ----

  function AnnounceComplete(s: Engine, tid: u32): Engine {
    Announcement(s, Completed, tid, true)
  }

  predicate AwaitsComplete(s: Engine, tid: u32) {
    SendMatches(s, tid) && s.send.state == WaitComplete
  }

  /** A completion takes one receiving task away. */
  lemma CompleteTakesOne(s: Engine, tid: u32)
    ensures var n, s' := ReceivingFrom(s.recv, tid, 0), CompleteReceive(s, tid);
            && |s'.recv| == |s.recv| && s'.send == s.send
            && ReceivingFrom(s'.recv, tid, 0) == (if n == 0 then 0 else n - 1)
            && (s' == s <==> n == 0)
  {
    var i := Find(s.recv, tid);
    HoldersFind(s.recv, tid, 0);
    if i >= 0 {
      HoldersCleared(s.recv, tid, i, 0);
      assert CompleteReceive(s, tid).recv == s.recv[i := FREE];
    }
  }

  /** The two forms act alike exactly when no send task with this id awaits its confirmation: the frame never reaches
      the sender. */
  lemma CompleteForms(s: Engine, tid: u32)
    ensures AnnounceComplete(s, tid) == CompleteReceive(s, tid) <==> !AwaitsComplete(s, tid)
    ensures CompleteReceive(s, tid).send == s.send
  {
  }

  /** Announcement, ticks, frame: the frame changes nothing exactly when the announcement left no receiving task with
      this id. The announcement takes the send task if that awaits its confirmation, and otherwise one receiving task.
      */
  lemma CompleteAnnouncedFirst(s: Engine, tid: u32, ios: seq<TickIo>)
    ensures var s1 := Ticking(AnnounceComplete(s, tid), ios);
            CompleteReceive(s1, tid) == s1 <==>
            ReceivingFrom(s.recv, tid, 0) <= (if AwaitsComplete(s, tid) then 0 else 1)
  {
    CompleteTakesOne(s, tid);
    TickingOnward(AnnounceComplete(s, tid), ios);
    CompleteTakesOne(Ticking(AnnounceComplete(s, tid), ios), tid);
  }

  /** Frame, ticks, announcement: the announcement changes nothing exactly when by then no send task awaits its
      confirmation, and the frame left no receiving task with this id. */
  lemma CompleteFramedFirst(s: Engine, tid: u32, ios: seq<TickIo>)
    ensures var s1 := Ticking(CompleteReceive(s, tid), ios);
            AnnounceComplete(s1, tid) == s1 <==>
            !AwaitsComplete(s1, tid) && ReceivingFrom(s.recv, tid, 0) <= 1
  {
    CompleteTakesOne(s, tid);
    TickingOnward(CompleteReceive(s, tid), ios);
    CompleteTakesOne(Ticking(CompleteReceive(s, tid), ios), tid);
  }

  /** A transfer to oneself, once COMPLETE is out: the pair, in either order, finishes both sides. */
  lemma CompleteBothSides(s: Engine, tid: u32, ios: seq<TickIo>)
    requires AwaitsComplete(s, tid) && ReceivingFrom(s.recv, tid, 0) == 1
    ensures Holders(CompleteReceive(Ticking(AnnounceComplete(s, tid), ios), tid), tid) == 0
    ensures Holders(AnnounceComplete(Ticking(CompleteReceive(s, tid), ios), tid), tid) == 0
  {
    var a, f := AnnounceComplete(s, tid), CompleteReceive(s, tid);
    TickingOnward(a, ios);
    CompleteTakesOne(Ticking(a, ios), tid);
    CompleteTakesOne(s, tid);
    TickingOnward(f, ios);
    CompleteTakesOne(Ticking(f, ios), tid);
    IdleTicks(f, ios);
  }

  lemma {:induction false} IdleTicks(s: Engine, ios: seq<TickIo>)
    requires s.send.state == WaitComplete
    ensures Ticking(s, ios) == s
    decreases |ios|
  {
    if ios != [] {
      IdleTicks(s, ios[1..]);
    }
  }
}
