/** Runs from the start that reach the states in which a signal is not idempotent, or an INIT finds the wrong task. */
module Reachable {
  import opened Bytes
  import opened InitFrame
  import opened Transfer
  import opened Protocol
  import opened ReceiveTable
  import opened SenderTrace
  import opened SenderProgress
  import opened DualSignal
  import opened InitQueue

  function Incoming(tid: u32): Event {
    AnnouncementIn(RecvPending, tid, true)
  }

  /** One client sends itself a file: its id is held on both sides, and the second CANCEL still acts. */
  lemma CancelTwiceActs(pre: Disk, target: Bytes, filename: Bytes, content: FileBytes, tid: u32)
    requires content != []
    ensures var s := Run(Start(pre), [SendFileCommand(target, filename, Opened(content), true),
                                      AnnouncementIn(SendPending, tid, true), Incoming(tid)]);
            && Holders(s, tid) == 2
            && SignalCancel(SignalCancel(s, tid), tid) != SignalCancel(s, tid)
  {
    var command, named := SendFileCommand(target, filename, Opened(content), true),
                          AnnouncementIn(SendPending, tid, true);
    var s1 := Step(Start(pre), command);
    var s2 := Step(s1, named);
    var s := Step(s2, Incoming(tid));
    ThreeSteps(Start(pre), command, named, Incoming(tid));
    assert SendMatches(s, tid);
    OneIncoming(s2, tid);
    CancelTwice(s, tid, []);
  }

  lemma ThreeSteps(s: Engine, a: Event, b: Event, c: Event)
    ensures Run(s, [a, b]) == Step(Step(s, a), b)
    ensures Run(s, [a, b, c]) == Step(Step(Step(s, a), b), c)
  {
    RunStep(s, [], a);
    assert [] + [a] == [a];
    RunStep(s, [a], b);
    assert [a] + [b] == [a, b];
    RunStep(s, [a, b], c);
    assert [a, b] + [c] == [a, b, c];
  }

  /** An announcement meeting an empty table. */
  lemma OneIncoming(s: Engine, tid: u32)
    requires s.recv == Start(map[]).recv
    ensures var s' := Step(s, Incoming(tid));
            && s'.recv == s.recv[0 := FREE.(busy := true, tid := tid, order := s.nextOrder)]
            && s'.send == s.send && s'.nextOrder == s.nextOrder + 1
            && ReceivingFrom(s'.recv, tid, 0) == 1
  {
    NoneFrom(s.recv, tid, 0);
    CountReplaced(s.recv, 0, FREE.(busy := true, tid := tid, order := s.nextOrder), tid, 0);
  }

  lemma {:induction false} NoneFrom(recv: seq<RecvTask>, tid: u32, i: nat)
    requires i <= |recv| && forall j :: 0 <= j < |recv| ==> !recv[j].busy
    ensures ReceivingFrom(recv, tid, i) == 0
    decreases |recv| - i
  {
    if i < |recv| {
      NoneFrom(recv, tid, i + 1);
    }
  }

  lemma {:induction false} CountReplaced(recv: seq<RecvTask>, k: nat, t: RecvTask, tid: u32, i: nat)
    requires i <= |recv| && k < |recv| && !recv[k].busy && t.busy && t.tid == tid
    ensures ReceivingFrom(recv[k := t], tid, i) == ReceivingFrom(recv, tid, i) + if i <= k then 1 else 0
    decreases |recv| - i
  {
    if i < |recv| {
      CountReplaced(recv, k, t, tid, i + 1);
    }
  }

  // ---- completion ----

  function GoodTicks(n: nat): seq<Event> {
    seq(n, _ => TickTimeout(GOOD_TICK))
  }

  lemma {:induction false} GoodTicksCount(s: Engine, n: nat)
    ensures TickCount(GoodTicks(n)) == n && SameReceiver(s, Run(s, GoodTicks(n)))
  {
    if n > 0 {
      assert GoodTicks(n)[..n - 1] == GoodTicks(n - 1);
      GoodTicksCount(s, n - 1);
      TickSameReceiver(Run(s, GoodTicks(n - 1)), GOOD_TICK);
    }
  }

  /** A transfer with nothing else going on. */
  function Alone(target: Bytes, filename: Bytes, content: FileBytes, tid: u32): Outgoing {
    Outgoing(target, filename, content, tid, [], [], AnnouncementIn(Accepted, tid, true), GoodTicks(TicksFor(content)))
  }

  lemma AloneAwaits(pre: Disk, x: Outgoing)
    requires x == Alone(x.target, x.filename, x.content, x.tid) && x.content != []
    ensures var s := Run(Start(pre), Events(x));
            AwaitsComplete(s, x.tid) && s.recv == Start(pre).recv
  {
    var s0 := Start(pre);
    var past := SenderLanguage(pre, []);
    UntilConsent(s0, x.target, x.filename, x.content, x.tid, [], [], x.consent);
    var s1 := Step(Run(Step(Run(Step(s0, Command(x)), []), Named(x)), []), x.consent);
    ActiveTraced(s1, past, x.target, x.filename, x.content, x.tid);
    GoodTicksCount(s1, TicksFor(x.content));
    TransferTime(s1, x.sending, past);
    RunProceeds(s1, x.sending, past);
    RunInParts(s0, x);
  }

  /** A sender that has sent its COMPLETE: the frame does nothing for it, so the announcement behind it still acts. When
      the same client also has an incoming task of this id, the frame behind the announcement still acts, too. */
  lemma CompleteTwiceActs(pre: Disk, target: Bytes, filename: Bytes, content: FileBytes, tid: u32)
    requires content != []
    ensures var es := Events(Alone(target, filename, content, tid));
            var s, t := Run(Start(pre), es), Run(Start(pre), es + [Incoming(tid)]);
            && AnnounceComplete(CompleteReceive(s, tid), tid) != CompleteReceive(s, tid)
            && CompleteReceive(AnnounceComplete(t, tid), tid) != AnnounceComplete(t, tid)
  {
    var x := Alone(target, filename, content, tid);
    var s := Run(Start(pre), Events(x));
    AloneAwaits(pre, x);
    CompleteTakesOne(s, tid);
    CompleteFramedFirst(s, tid, []);
    RunStep(Start(pre), Events(x), Incoming(tid));
    OneIncoming(s, tid);
    CompleteAnnouncedFirst(Step(s, Incoming(tid)), tid, []);
  }

  /** Two incoming tasks of one id: nothing in the client keeps a server from announcing an id twice. */
  lemma TwoSlotsTwiceActs(pre: Disk, tid: u32)
    ensures var s := Run(Start(pre), [Incoming(tid), Incoming(tid)]);
            && ReceivingFrom(s.recv, tid, 0) == 2
            && SignalCancel(SignalCancel(s, tid), tid) != SignalCancel(s, tid)
            && CompleteReceive(CompleteReceive(s, tid), tid) != CompleteReceive(s, tid)
  {
    var s1 := Step(Start(pre), Incoming(tid));
    var s := Step(s1, Incoming(tid));
    ThreeSteps(Start(pre), Incoming(tid), Incoming(tid), Incoming(tid));
    OneIncoming(Start(pre), tid);
    assert FreeSlot(s1.recv) == 1;
    CountReplaced(s1.recv, 1, s.recv[1], tid, 0);
    CancelTwice(s, tid, []);
    CompleteTakesOne(s, tid);
    CompleteTakesOne(CompleteReceive(s, tid), tid);
  }

  // ---- INIT ----

  function WaitingTask(tid: u32, order: nat): RecvTask {
    FREE.(busy := true, tid := tid, order := order)
  }

  lemma TwoIncoming(pre: Disk, a: u32, b: u32)
    ensures var s := Run(Start(pre), [Incoming(a), Incoming(b)]);
            && s.recv == Start(pre).recv[0 := WaitingTask(a, 0)][1 := WaitingTask(b, 1)]
            && s.send == NO_SEND && s.nextOrder == 2
  {
    var s1 := Step(Start(pre), Incoming(a));
    ThreeSteps(Start(pre), Incoming(a), Incoming(b), Incoming(b));
    OneIncoming(Start(pre), a);
    assert FreeSlot(s1.recv) == 1;
  }

  lemma FirstCancelled(s: Engine, a: u32, b: u32, pre: Disk)
    requires s.recv == Start(pre).recv[0 := WaitingTask(a, 0)][1 := WaitingTask(b, 1)] && s.send == NO_SEND
    ensures SignalCancel(s, a).recv == Start(pre).recv[1 := WaitingTask(b, 1)]
  {
    assert Find(s.recv, a) == 0;
    assert SignalCancel(s, a).recv == s.recv[0 := FREE];
  }

  lemma OnlyOneWaits(s: Engine, b: u32, payload: Bytes, pre: Disk)
    requires s.recv == Start(pre).recv[1 := WaitingTask(b, 1)] && ParseInit(payload).Some?
    ensures var f := ParseInit(payload).value;
            HandleInit(s, payload).recv ==
            s.recv[1 := WaitingTask(b, 1).(inited := true, sender := f.sender, filename := f.filename, size := f.size)]
  {
    assert Unfilled(s.recv[1]);
    assert Oldest(s.recv, |s.recv|) == 1;
  }

  lemma InputsStep(es: seq<Event>, e: Event)
    ensures Announced(es + [e]) == Announced(es) + if IsAnnouncement(e) then [e.tid] else []
    ensures InitsIn(es + [e]) == InitsIn(es) + if IsInit(e) then [ParseInit(e.frame.payload).value] else []
  {
    assert (es + [e])[..|es|] == es;
  }

  function CancelledBeforeInit(a: u32, b: u32, payload: Bytes): seq<Event> {
    [Incoming(a), Incoming(b), AnnouncementIn(Cancelled, a, true),
     FrameIn(Frame(MSG_FILE_INIT, payload), Written, true)]
  }

  lemma InputsOf(a: u32, b: u32, payload: Bytes)
    requires ParseInit(payload).Some?
    ensures Announced(CancelledBeforeInit(a, b, payload)) == [a, b]
    ensures InitsIn(CancelledBeforeInit(a, b, payload)) == [ParseInit(payload).value]
  {
    var es := CancelledBeforeInit(a, b, payload);
    assert es[..1] == [] + [es[0]] && es[..2] == es[..1] + [es[1]] && es[..3] == es[..2] + [es[2]];
    assert es == es[..3] + [es[3]];
    InputsStep([], es[0]);
    InputsStep(es[..1], es[1]);
    InputsStep(es[..2], es[2]);
    InputsStep(es[..3], es[3]);
  }

  /** Transfer a is announced, then b; a is cancelled before its INIT; the INIT of a arrives, and b gets its details,
      although the INIT came in the order of the announcements and the table was never full. */
  lemma InitOfCancelled(pre: Disk, a: u32, b: u32, payload: Bytes, other: InitFields)
    requires a != b && ParseInit(payload).Some? && ParseInit(payload).value != other
    ensures var s := Run(Start(pre), CancelledBeforeInit(a, b, payload));
            var ts := [Offer(a, ParseInit(payload).value), Offer(b, other)];
            && InOrder(CancelledBeforeInit(a, b, payload), ts)
            && SlotIndex(s, 1) && s.recv[1].busy && s.recv[1].order == 1 && s.recv[1].tid == b && s.recv[1].inited
            && InitFields(s.recv[1].sender, s.recv[1].filename, s.recv[1].size) == ts[0].fields
            && !OwnDetails(s.recv[1], ts[1])
  {
    var es := CancelledBeforeInit(a, b, payload);
    var s2 := Run(Start(pre), [Incoming(a), Incoming(b)]);
    TwoIncoming(pre, a, b);
    FirstCancelled(s2, a, b, pre);
    var s3 := Step(s2, es[2]);
    OnlyOneWaits(s3, b, payload, pre);
    ParseInitLength(payload);
    assert es == [Incoming(a), Incoming(b)] + [es[2]] + [es[3]];
    RunStep(Start(pre), [Incoming(a), Incoming(b)], es[2]);
    RunStep(Start(pre), [Incoming(a), Incoming(b)] + [es[2]], es[3]);
    InputsOf(a, b, payload);
  }
}
