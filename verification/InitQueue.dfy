/** INIT frames carry no transfer id: how they find their task. */
module InitQueue {
  import opened Bytes
  import opened InitFrame
  import opened Transfer
  import opened Protocol
  import opened ReceiveTable
  import opened Delivery

  // ---- the abstract queue ----

  /** An announcement that still waits for its INIT. */
  datatype Waiting = Waiting(order: nat, tid: u32)

  /** The slot of the unfilled task with a given order, or -1. */
  function SlotOf(recv: seq<RecvTask>, order: nat, n: nat): (r: int)
    requires n <= |recv|
    ensures r == -1 || 0 <= r < n
    ensures r >= 0 ==> Unfilled(recv[r]) && recv[r].order == order
    ensures r < 0 ==> forall j :: 0 <= j < n ==> !(Unfilled(recv[j]) && recv[j].order == order)
  {
    if n == 0 then -1
    else if Unfilled(recv[n - 1]) && recv[n - 1].order == order then n - 1
    else SlotOf(recv, order, n - 1)
  }

  /** The announcement with this order, if it still waits. */
  function Item(recv: seq<RecvTask>, order: nat): (item: seq<Waiting>)
    ensures |item| <= 1 && (item != [] ==> item[0].order == order)
  {
    var i := SlotOf(recv, order, |recv|);
    if i >= 0 then [Waiting(order, recv[i].tid)] else []
  }

  function Items(recv: seq<RecvTask>): nat -> seq<Waiting> {
    (order: nat) => Item(recv, order)
  }

  function Joined(item: nat -> seq<Waiting>, n: nat): seq<Waiting> {
    if n == 0 then [] else Joined(item, n - 1) + item(n - 1)
  }

  /** The unfilled announcements, oldest first. */
  function QueueOf(s: Engine): seq<Waiting> {
    Joined(Items(s.recv), s.nextOrder)
  }

  // Sequences joined item by item.

  lemma {:induction false} JoinedSame(item: nat -> seq<Waiting>, item': nat -> seq<Waiting>, n: nat)
    requires forall q: nat :: q < n ==> item'(q) == item(q)
    ensures Joined(item', n) == Joined(item, n)
  {
    if n > 0 {
      JoinedSame(item, item', n - 1);
    }
  }

  lemma {:induction false} JoinedEmpty(item: nat -> seq<Waiting>, n: nat)
    requires forall q: nat :: q < n ==> item(q) == []
    ensures Joined(item, n) == []
  {
    if n > 0 {
      JoinedEmpty(item, n - 1);
    }
  }

  lemma {:induction false} JoinedHead(item: nat -> seq<Waiting>, o: nat, x: Waiting, n: nat)
    requires o < n && item(o) == [x] && forall q: nat :: q < o ==> item(q) == []
    ensures Joined(item, n) != [] && Joined(item, n)[0] == x
  {
    if n - 1 == o {
      JoinedEmpty(item, o);
    } else {
      JoinedHead(item, o, x, n - 1);
    }
  }

  function RemoveAt(q: seq<Waiting>, k: nat): seq<Waiting>
    requires k < |q|
  {
    q[..k] + q[k + 1..]
  }

  lemma {:induction false} JoinedRemoves(item: nat -> seq<Waiting>, item': nat -> seq<Waiting>, o: nat, x: Waiting,
                                         n: nat)
    returns (k: nat)
    requires o < n && item(o) == [x] && item'(o) == [] && forall q: nat :: q < n && q != o ==> item'(q) == item(q)
    ensures k < |Joined(item, n)| && Joined(item, n)[k] == x
    ensures Joined(item', n) == RemoveAt(Joined(item, n), k)
  {
    var q := Joined(item, n - 1);
    if n - 1 == o {
      JoinedSame(item, item', o);
      k := |q|;
      assert RemoveAt(q + [x], k) == q;
    } else {
      k := JoinedRemoves(item, item', o, x, n - 1);
      assert RemoveAt(q + item(n - 1), k) == RemoveAt(q, k) + item(n - 1);
    }
  }

  predicate Increasing(q: seq<Waiting>, n: nat) {
    && (forall a :: 0 <= a < |q| ==> q[a].order < n)
    && (forall a, b :: 0 <= a < b < |q| ==> q[a].order < q[b].order)
  }

  lemma IncreasingStep(q: seq<Waiting>, item: seq<Waiting>, n: nat)
    requires Increasing(q, n) && |item| <= 1 && (item != [] ==> item[0].order == n)
    ensures Increasing(q + item, n + 1)
  {
  }

  /** The orders in a queue increase. */
  lemma {:induction false} QueueOrders(recv: seq<RecvTask>, n: nat)
    ensures Increasing(Joined(Items(recv), n), n)
  {
    if n > 0 {
      QueueOrders(recv, n - 1);
      IncreasingStep(Joined(Items(recv), n - 1), Item(recv, n - 1), n - 1);
    }
  }

  // Items of a table.

  lemma ItemOf(recv: seq<RecvTask>, next: nat, i: int)
    requires Ordered(recv, next) && 0 <= i < |recv| && Unfilled(recv[i])
    ensures SlotOf(recv, recv[i].order, |recv|) == i
    ensures Item(recv, recv[i].order) == [Waiting(recv[i].order, recv[i].tid)]
  {
  }

  /** recv' is recv with one task no longer waiting. */
  predicate StopsWaiting(recv: seq<RecvTask>, recv': seq<RecvTask>, i: int) {
    && 0 <= i < |recv| == |recv'| && Unfilled(recv[i]) && !Unfilled(recv'[i])
    && forall k :: 0 <= k < |recv| && k != i ==> recv'[k] == recv[k]
  }

  lemma ItemAfter(recv: seq<RecvTask>, recv': seq<RecvTask>, i: int, order: nat, next: nat)
    requires Ordered(recv, next) && StopsWaiting(recv, recv', i)
    ensures Item(recv', order) == if order == recv[i].order then [] else Item(recv, order)
  {
    var k, k' := SlotOf(recv, order, |recv|), SlotOf(recv', order, |recv|);
    if k' >= 0 {
      ItemOf(recv, next, k');
      ItemOf(recv, next, i);
    }
  }

  /** A task that stops waiting leaves the queue, and nothing else moves. */
  lemma QueueRemoves(s: Engine, s': Engine, i: int) returns (k: nat)
    requires TableOk(s) && StopsWaiting(s.recv, s'.recv, i) && s'.nextOrder == s.nextOrder
    ensures k < |QueueOf(s)| && QueueOf(s)[k] == Waiting(s.recv[i].order, s.recv[i].tid)
    ensures QueueOf(s') == RemoveAt(QueueOf(s), k)
  {
    var o := s.recv[i].order;
    forall q: nat ensures Items(s'.recv)(q) == if q == o then [] else Items(s.recv)(q) {
      ItemAfter(s.recv, s'.recv, i, q, s.nextOrder);
    }
    ItemOf(s.recv, s.nextOrder, i);
    k := JoinedRemoves(Items(s.recv), Items(s'.recv), o, Waiting(o, s.recv[i].tid), s.nextOrder);
  }

  /** Tables that differ in slots not waiting below n have the same items there. */
  lemma ItemSame(recv: seq<RecvTask>, recv': seq<RecvTask>, i: int, t: RecvTask, order: nat)
    requires 0 <= i < |recv| && recv' == recv[i := t]
    requires !(Unfilled(recv[i]) && recv[i].order == order) && !(Unfilled(t) && t.order == order)
    ensures Item(recv', order) == Item(recv, order)
  {
    SlotSame(recv, recv', i, t, order, |recv|);
  }

  lemma {:induction false} SlotSame(recv: seq<RecvTask>, recv': seq<RecvTask>, i: int, t: RecvTask, order: nat, n: nat)
    requires 0 <= i < |recv| && recv' == recv[i := t] && n <= |recv|
    requires !(Unfilled(recv[i]) && recv[i].order == order) && !(Unfilled(t) && t.order == order)
    ensures SlotOf(recv', order, n) == SlotOf(recv, order, n)
    ensures SlotOf(recv, order, n) != i
  {
    if n > 0 {
      SlotSame(recv, recv', i, t, order, n - 1);
    }
  }

  // ---- what the operations do to it ----

  /** Announcing is enqueueing, unless the table is full. */
  lemma AnnounceEnqueues(s: Engine, tid: u32, ok: bool)
    requires TableOk(s)
    ensures QueueOf(AnnounceIncoming(s, tid, ok)) ==
            if FreeSlot(s.recv) >= 0 then QueueOf(s) + [Waiting(s.nextOrder, tid)] else QueueOf(s)
  {
    var i, s' := FreeSlot(s.recv), AnnounceIncoming(s, tid, ok);
    if i >= 0 {
      SlotReplaced(s, s', i, s'.recv[i]);
      forall q: nat | q < s.nextOrder ensures Items(s'.recv)(q) == Items(s.recv)(q) {
        ItemSame(s.recv, s'.recv, i, s'.recv[i], q);
      }
      JoinedSame(Items(s.recv), Items(s'.recv), s.nextOrder);
      ItemOf(s'.recv, s'.nextOrder, i);
    }
  }

  /** The scan for the smallest sequence number finds the head of the queue. */
  lemma OldestIsHead(s: Engine)
    requires TableOk(s)
    ensures var b := Oldest(s.recv, |s.recv|);
            if b < 0 then QueueOf(s) == []
            else QueueOf(s) != [] && QueueOf(s)[0] == Waiting(s.recv[b].order, s.recv[b].tid)
  {
    var b := Oldest(s.recv, |s.recv|);
    if b < 0 {
      JoinedEmpty(Items(s.recv), s.nextOrder);
    } else {
      ItemOf(s.recv, s.nextOrder, b);
      JoinedHead(Items(s.recv), s.recv[b].order, Waiting(s.recv[b].order, s.recv[b].tid), s.nextOrder);
    }
  }

  /** A well-formed INIT dequeues: it fills the head of the queue, wherever its slot is. */
  lemma InitDequeues(s: Engine, payload: Bytes)
    requires TableOk(s) && ParseInit(payload).Some?
    ensures var q, s', f := QueueOf(s), HandleInit(s, payload), ParseInit(payload).value;
            if q == [] then s' == s
            else
              && QueueOf(s') == q[1..]
              && var i := SlotOf(s.recv, q[0].order, |s.recv|);
                 && i >= 0 && s.recv[i].tid == q[0].tid
                 && s'.recv == s.recv[i := s.recv[i].(inited := true, sender := f.sender, filename := f.filename,
                                                      size := f.size)]
  {
    var b := Oldest(s.recv, |s.recv|);
    OldestIsHead(s);
    if b >= 0 {
      ItemOf(s.recv, s.nextOrder, b);
      var k := QueueRemoves(s, HandleInit(s, payload), b);
      QueueOrders(s.recv, s.nextOrder);
      assert k == 0;
      assert RemoveAt(QueueOf(s), 0) == QueueOf(s)[1..];
    }
  }

  /** Clearing a waiting task takes it out of the queue; clearing any other task leaves the queue alone. */
  lemma ClearRemoves(s: Engine, i: int) returns (k: nat)
    requires TableOk(s) && SlotIndex(s, i)
    ensures var q, q' := QueueOf(s), QueueOf(ClearSlot(s, i));
            if Unfilled(s.recv[i])
            then k < |q| && q[k] == Waiting(s.recv[i].order, s.recv[i].tid) && q' == RemoveAt(q, k)
            else q' == q
  {
    var s' := ClearSlot(s, i);
    if Unfilled(s.recv[i]) {
      k := QueueRemoves(s, s', i);
    } else {
      k := 0;
      forall q: nat ensures Items(s'.recv)(q) == Items(s.recv)(q) {
        ItemSame(s.recv, s'.recv, i, FREE, q);
      }
      JoinedSame(Items(s.recv), Items(s'.recv), s.nextOrder);
    }
  }

  /** The task an INIT is filed under. */
  predicate FiledUnder(s: Engine, payload: Bytes, i: int)
    requires SlotIndex(s, i) && |HandleInit(s, payload).recv| == |s.recv|
  {
    Unfilled(s.recv[i]) && HandleInit(s, payload).recv[i].inited
  }

  /** An INIT reaches a waiting task exactly when that task is at the head of the queue: there is no other link. */
  lemma FiledExactly(s: Engine, payload: Bytes, i: int)
    requires TableOk(s) && ParseInit(payload).Some? && SlotIndex(s, i) && Unfilled(s.recv[i])
    ensures |HandleInit(s, payload).recv| == |s.recv|
    ensures FiledUnder(s, payload, i) <==> QueueOf(s) != [] && QueueOf(s)[0].order == s.recv[i].order
  {
    InitDequeues(s, payload);
    OldestIsHead(s);
    ItemOf(s.recv, s.nextOrder, i);
  }

  /** So a task that is cleared before its INIT lets that INIT slip to the next waiting task. */
  lemma InitSlipsAfterClear(s: Engine, payload: Bytes, i: int, j: int)
    requires TableOk(s) && ParseInit(payload).Some? && SlotIndex(s, i) && SlotIndex(s, j)
    requires Unfilled(s.recv[i]) && Unfilled(s.recv[j]) && |QueueOf(s)| >= 2
    requires QueueOf(s)[0].order == s.recv[i].order && QueueOf(s)[1].order == s.recv[j].order
    ensures var s1 := ClearSlot(s, i);
            |HandleInit(s1, payload).recv| == |s1.recv| && FiledUnder(s1, payload, j)
  {
    var s1 := ClearSlot(s, i);
    var k := ClearRemoves(s, i);
    QueueOrders(s.recv, s.nextOrder);
    assert k == 0;
    SlotReplaced(s, s1, i, FREE);
    FiledExactly(s1, payload, j);
  }

  // ---- whole runs: every task gets its own transfer's details ----

  /** A transfer as the server announces it. */
  datatype Offer = Offer(tid: u32, fields: InitFields)

  predicate IsAnnouncement(e: Event) {
    e.AnnouncementIn? && e.kind == RecvPending
  }

  predicate IsInit(e: Event) {
    e.FrameIn? && e.frame.msgType == MSG_FILE_INIT && ParseInit(e.frame.payload).Some?
  }

  function Announced(es: seq<Event>): seq<u32> {
    if es == [] then []
    else Announced(es[..|es| - 1]) + if IsAnnouncement(es[|es| - 1]) then [es[|es| - 1].tid] else []
  }

  function InitsIn(es: seq<Event>): seq<InitFields> {
    if es == [] then []
    else InitsIn(es[..|es| - 1]) + if IsInit(es[|es| - 1]) then [ParseInit(es[|es| - 1].frame.payload).value] else []
  }

  /** The event neither finds the table full nor clears a task that still waits for its INIT. */
  predicate Undisturbed(s: Engine, e: Event) {
    && (IsAnnouncement(e) ==> FreeSlot(s.recv) >= 0)
    && |Step(s, e).recv| == |s.recv|
    && forall j :: 0 <= j < |s.recv| && Unfilled(s.recv[j]) ==> Step(s, e).recv[j].busy
  }

  /** The announcements so far, and the INITs so far, are those of the first so many transfers; no INIT overtakes its
      announcement. */
  predicate InOrder(es: seq<Event>, ts: seq<Offer>) {
    var a, b := Announced(es), InitsIn(es);
    && |b| <= |a| <= |ts|
    && (forall k :: 0 <= k < |a| ==> a[k] == ts[k].tid)
    && (forall k :: 0 <= k < |b| ==> b[k] == ts[k].fields)
  }

  predicate Orderly(pre: Disk, es: seq<Event>, ts: seq<Offer>) {
    && InOrder(es, ts)
    && (es != [] ==> Orderly(pre, es[..|es| - 1], ts)
                     && Undisturbed(Run(Start(pre), es[..|es| - 1]), es[|es| - 1]))
  }

  predicate OwnDetails(t: RecvTask, x: Offer) {
    t.tid == x.tid && (t.inited ==> InitFields(t.sender, t.filename, t.size) == x.fields)
  }

  predicate OrderPresent(recv: seq<RecvTask>, order: nat) {
    exists j :: 0 <= j < |recv| && recv[j].busy && recv[j].order == order
  }

  /** After a announcements and b INITs: task number k is that of transfer k, filled in exactly when k < b. */
  ghost predicate Associated(s: Engine, ts: seq<Offer>, a: nat, b: nat) {
    && b <= a == s.nextOrder && a <= |ts|
    && (forall j :: 0 <= j < |s.recv| && s.recv[j].busy ==>
          s.recv[j].order < a && OwnDetails(s.recv[j], ts[s.recv[j].order])
          && (s.recv[j].inited <==> s.recv[j].order < b))
    && (forall k :: b <= k < a ==> OrderPresent(s.recv, k))
  }

  lemma AnnounceAssociates(s: Engine, ts: seq<Offer>, a: nat, b: nat, tid: u32, ok: bool)
    requires TableOk(s) && Associated(s, ts, a, b) && FreeSlot(s.recv) >= 0
    requires a < |ts| && tid == ts[a].tid
    ensures Associated(AnnounceIncoming(s, tid, ok), ts, a + 1, b)
  {
    var i, s' := FreeSlot(s.recv), AnnounceIncoming(s, tid, ok);
    assert forall j :: 0 <= j < |s.recv| && j != i ==> s'.recv[j] == s.recv[j];
    forall k | b <= k < a + 1 ensures OrderPresent(s'.recv, k) {
      if k < a {
        assert OrderPresent(s.recv, k);
        var j :| 0 <= j < |s.recv| && s.recv[j].busy && s.recv[j].order == k;
        assert s'.recv[j] == s.recv[j];
      } else {
        assert s'.recv[i].busy && s'.recv[i].order == k;
      }
    }
  }

  /** The scan finds the task whose INIT is due. */
  lemma OldestIsDue(s: Engine, ts: seq<Offer>, a: nat, b: nat)
    requires TableOk(s) && Associated(s, ts, a, b) && b < a
    ensures var i := Oldest(s.recv, |s.recv|);
            i >= 0 && s.recv[i].order == b
  {
    assert OrderPresent(s.recv, b);
    var w :| 0 <= w < |s.recv| && s.recv[w].busy && s.recv[w].order == b;
    assert Unfilled(s.recv[w]);
  }

  lemma InitAssociates(s: Engine, ts: seq<Offer>, a: nat, b: nat, payload: Bytes)
    requires TableOk(s) && Associated(s, ts, a, b) && b < a
    requires ParseInit(payload).Some? && ParseInit(payload).value == ts[b].fields
    ensures Associated(HandleInit(s, payload), ts, a, b + 1)
  {
    var i, s' := Oldest(s.recv, |s.recv|), HandleInit(s, payload);
    OldestIsDue(s, ts, a, b);
    assert forall j :: 0 <= j < |s.recv| && j != i ==> s'.recv[j] == s.recv[j];
    forall k | b + 1 <= k < a ensures OrderPresent(s'.recv, k) {
      assert OrderPresent(s.recv, k);
      var j :| 0 <= j < |s.recv| && s.recv[j].busy && s.recv[j].order == k;
      assert s'.recv[j].busy && s'.recv[j].order == k;
    }
  }

  /** Only an INIT fills a task in; only an announcement takes a number. */
  predicate NoneFilled(s: Engine, s': Engine) {
    && s'.nextOrder == s.nextOrder && |s'.recv| == |s.recv|
    && forall j :: 0 <= j < |s.recv| && s.recv[j].busy && !s.recv[j].inited ==> !s'.recv[j].inited
  }

  lemma AcceptNoneFilled(s: Engine, tid: u32, io: AcceptIo)
    requires TableOk(s)
    ensures NoneFilled(s, AcceptCmd(s, tid, io).s)
  {
    AcceptMeaning(s, tid, io);
  }

  lemma AnnouncementNoneFilled(s: Engine, kind: AnnKind, tid: u32, ok: bool)
    requires kind != RecvPending
    ensures NoneFilled(s, Announcement(s, kind, tid, ok))
  {
  }

  lemma ControlNoneFilled(s: Engine, tid: u32)
    ensures NoneFilled(s, SignalAccept(s, tid)) && NoneFilled(s, SignalReject(s, tid))
    ensures NoneFilled(s, SignalCancel(s, tid)) && NoneFilled(s, CompleteReceive(s, tid))
  {
  }

  lemma ChunkNoneFilled(s: Engine, payload: Bytes, write: WriteResult, ok: bool)
    ensures NoneFilled(s, HandleChunk(s, payload, write, ok))
  {
  }

  lemma FrameNoneFilled(s: Engine, f: Frame, write: WriteResult, ok: bool)
    requires f.msgType == MSG_FILE_INIT ==> ParseInit(f.payload).None?
    ensures NoneFilled(s, HandleFrame(s, f, write, ok))
  {
    if |f.payload| == 4 {
      ControlNoneFilled(s, ReadU32(f.payload));
    } else if f.msgType == MSG_FILE_CHUNK {
      ChunkNoneFilled(s, f.payload, write, ok);
    }
  }

  lemma StepNoneFilled(s: Engine, e: Event)
    requires TableOk(s) && !IsAnnouncement(e) && !IsInit(e)
    ensures NoneFilled(s, Step(s, e))
  {
    match e
    case SendFileCommand(_, _, _, _) =>
    case AcceptCommand(tid, io) => AcceptNoneFilled(s, tid, io);
    case RejectCommand(_, _) =>
    case CancelCommand(_, _) =>
    case AnnouncementIn(kind, tid, ok) => AnnouncementNoneFilled(s, kind, tid, ok);
    case FrameIn(f, write, ok) => FrameNoneFilled(s, f, write, ok);
    case ErrorIn(_) =>
    case TickTimeout(io) => TickSameReceiver(s, io);
    case Reset =>
      var s1 := if s.send.busy then s.(send := NO_SEND) else s;
      ResetFate(s1, 0);
      ResetNextOrder(s1, 0);
  }

  lemma {:induction false} ResetNextOrder(s: Engine, i: nat)
    requires i <= |s.recv|
    ensures ResetSlots(s, i).nextOrder == s.nextOrder
    decreases |s.recv| - i
  {
    if i < |s.recv| {
      ResetNextOrder(if s.recv[i].busy then ClearSlot(s, i) else s, i + 1);
    }
  }

  lemma OtherAssociates(s: Engine, ts: seq<Offer>, a: nat, b: nat, e: Event)
    requires TableOk(s) && Associated(s, ts, a, b) && !IsAnnouncement(e) && !IsInit(e) && Undisturbed(s, e)
    ensures Associated(Step(s, e), ts, a, b)
  {
    var s' := Step(s, e);
    StepNoneFilled(s, e);
    StepSameTasks(s, e);
    forall k | b <= k < a ensures OrderPresent(s'.recv, k) {
      assert OrderPresent(s.recv, k);
      var j :| 0 <= j < |s.recv| && s.recv[j].busy && s.recv[j].order == k;
      assert s'.recv[j].busy && SameTask(s.recv[j], s'.recv[j]);
    }
  }

  lemma IsInitRouted(e: Event, s: Engine)
    requires IsInit(e)
    ensures Step(s, e) == HandleInit(s, e.frame.payload)
  {
  }

  /** When INITs arrive in announcement order, no announcement meets a full table, and no task is cleared before its
      INIT, every task holds exactly the sender, file name and size of its own transfer. */
  lemma {:induction false} EveryTaskItsOwnInit(pre: Disk, es: seq<Event>, ts: seq<Offer>)
    requires Orderly(pre, es, ts)
    ensures Associated(Run(Start(pre), es), ts, |Announced(es)|, |InitsIn(es)|)
  {
    if es != [] {
      var before, e := es[..|es| - 1], es[|es| - 1];
      var s := Run(Start(pre), before);
      var a, b := |Announced(before)|, |InitsIn(before)|;
      EveryTaskItsOwnInit(pre, before, ts);
      RunSafe(pre, before);
      if IsAnnouncement(e) {
        assert Announced(es)[a] == e.tid;
        AnnounceAssociates(s, ts, a, b, e.tid, e.ok);
      } else if IsInit(e) {
        assert InitsIn(es)[b] == ParseInit(e.frame.payload).value;
        InitAssociates(s, ts, a, b, e.frame.payload);
        IsInitRouted(e, s);
      } else {
        OtherAssociates(s, ts, a, b, e);
      }
    }
  }

  // ---- ids ----

  predicate NoRepeats(ids: seq<u32>) {
    forall a, b :: 0 <= a < b < |ids| ==> ids[a] != ids[b]
  }

  predicate IdsDistinct(recv: seq<RecvTask>) {
    forall i, j :: 0 <= i < j < |recv| && recv[i].busy && recv[j].busy ==> recv[i].tid != recv[j].tid
  }

  lemma IdsStep(s: Engine, e: Event, ids: seq<u32>)
    requires TableOk(s) && IdsDistinct(s.recv)
    requires forall j :: 0 <= j < |s.recv| && s.recv[j].busy ==> s.recv[j].tid in ids
    requires IsAnnouncement(e) ==> e.tid !in ids
    ensures IdsDistinct(Step(s, e).recv)
    ensures forall j :: 0 <= j < |Step(s, e).recv| && Step(s, e).recv[j].busy ==>
              Step(s, e).recv[j].tid in ids || (IsAnnouncement(e) && Step(s, e).recv[j].tid == e.tid)
  {
    StepSameTasks(s, e);
    var s' := Step(s, e);
    forall i, j | 0 <= i < j < |s'.recv| && s'.recv[i].busy && s'.recv[j].busy
      ensures s'.recv[i].tid != s'.recv[j].tid
    {
      if Announces(e, s'.recv[i].tid) && Announces(e, s'.recv[j].tid) {
        StepKeepsTable(s, e);
      }
    }
  }

  lemma StepKeepsTable(s: Engine, e: Event)
    requires TableOk(s) && IsAnnouncement(e)
    ensures TableOk(Step(s, e))
  {
  }

  /** When the server never announces an id twice, the ids in the table are pairwise distinct. */
  lemma {:induction false} TableIdsDistinct(pre: Disk, es: seq<Event>)
    requires NoRepeats(Announced(es))
    ensures var s := Run(Start(pre), es);
            IdsDistinct(s.recv) && forall j :: 0 <= j < |s.recv| && s.recv[j].busy ==> s.recv[j].tid in Announced(es)
  {
    if es != [] {
      var before, e := es[..|es| - 1], es[|es| - 1];
      assert forall k :: 0 <= k < |Announced(before)| ==> Announced(before)[k] == Announced(es)[k];
      TableIdsDistinct(pre, before);
      RunSafe(pre, before);
      assert IsAnnouncement(e) ==> Announced(es)[|Announced(before)|] == e.tid;
      IdsStep(Run(Start(pre), before), e, Announced(before));
    }
  }
}
