/** What every event keeps of the receive table and of downloads/. */
module ReceiveTable {
  import opened Bytes
  import opened Chunks
  import opened Bitmap
  import opened Assembly
  import opened Naming
  import opened Transfer
  import opened Protocol
  import opened InitFrame

  // ---- the table ----

  /** A slot is free and all zero, or waiting with nothing on disk, or receiving into a safely named file. */
  predicate SlotOk(t: RecvTask) {
    && (!t.busy ==> t == FREE)
    && (t.busy && !t.open ==> t.bits == [] && t.saveName == [] && t.received == 0)
    && (!t.inited ==> t.size == 0 && !t.open)
    && (t.open ==> t.busy && t.inited && t.size > 0 && |t.bits| == BitmapLength(t.size)
                   && SafeName(t.saveName) && |t.saveName| < MAX_FILENAME_LEN)
  }

  predicate OneOpen(recv: seq<RecvTask>) {
    forall i, j :: 0 <= i < |recv| && 0 <= j < |recv| && recv[i].open && recv[j].open ==> i == j
  }

  predicate Ordered(recv: seq<RecvTask>, next: nat) {
    && (forall i :: 0 <= i < |recv| && recv[i].busy ==> recv[i].order < next)
    && (forall i, j :: 0 <= i < j < |recv| && recv[i].busy && recv[j].busy ==> recv[i].order != recv[j].order)
  }

  predicate TableOk(s: Engine) {
    && |s.recv| == 8
    && (forall i :: 0 <= i < |s.recv| ==> SlotOk(s.recv[i]))
    && OneOpen(s.recv)
    && Ordered(s.recv, s.nextOrder)
  }

  // ---- the directory ----

  /** The files handed over so far. */
  function SavedFiles(saved: seq<Saved>): Disk {
    if saved == [] then map[]
    else SavedFiles(saved[..|saved| - 1])[saved[|saved| - 1].name := saved[|saved| - 1].content]
  }

  /** pre is what the directory held at the start. */
  function Settled(s: Engine, pre: Disk): Disk {
    pre + SavedFiles(s.saved)
  }

  predicate FileOpen(s: Engine, name: Bytes) {
    exists i :: 0 <= i < |s.recv| && s.recv[i].open && s.recv[i].saveName == name
  }

  /** downloads/ is exactly the files of the start, the completed files, and the partial file of an open receive. */
  ghost predicate DiskOk(s: Engine, pre: Disk) {
    var base := Settled(s, pre);
    && (forall name :: name in s.disk <==> name in base || FileOpen(s, name))
    && (forall name :: name in base ==> s.disk[name] == base[name])
    && (forall name :: FileOpen(s, name) ==> name !in base)
  }

  function AssemblyOf(s: Engine, i: int): Assembly
    requires SlotIndex(s, i)
  {
    var t := s.recv[i];
    Assembly(t.size, t.bits, t.received, FileAt(s.disk, t.saveName))
  }

  /** Bitmap, counter and partial file of an open receive agree. */
  ghost predicate SlotCounted(s: Engine, i: int)
    requires SlotIndex(s, i)
  {
    s.recv[i].open ==> exists got :: Assembled(AssemblyOf(s, i), got)
  }

  ghost predicate Counted(s: Engine) {
    forall i :: SlotIndex(s, i) ==> SlotCounted(s, i)
  }

  /** The names of the completed files are new and pairwise distinct. */
  predicate SavedFresh(saved: seq<Saved>, pre: Disk) {
    && (forall k :: 0 <= k < |saved| ==> saved[k].name !in pre && SafeName(saved[k].name))
    && (forall k, l :: 0 <= k < l < |saved| ==> saved[k].name != saved[l].name)
  }

  ghost predicate FilesOk(s: Engine, pre: Disk) {
    TableOk(s) && DiskOk(s, pre) && SavedFresh(s.saved, pre)
  }

  ghost predicate Inv(s: Engine, pre: Disk) {
    FilesOk(s, pre) && Counted(s)
  }

  /** The invariant only looks at the receiver's part of the state. */
  predicate SameReceiver(s: Engine, s': Engine) {
    s'.recv == s.recv && s'.nextOrder == s.nextOrder && s'.disk == s.disk && s'.saved == s.saved
  }

  lemma SameReceiverKeeps(s: Engine, s': Engine, pre: Disk)
    requires Inv(s, pre) && SameReceiver(s, s')
    ensures Inv(s', pre)
  {
    forall name ensures FileOpen(s', name) <==> FileOpen(s, name) {
    }
    forall i | SlotIndex(s', i) ensures SlotCounted(s', i) {
      assert SlotCounted(s, i);
      assert AssemblyOf(s', i) == AssemblyOf(s, i);
    }
  }

  lemma StartInv(disk: Disk)
    ensures Inv(Start(disk), disk)
  {
  }

  // ---- one slot replaced ----

  /** Slot i becomes t; an opened slot must be the only one, a new order must be unused. */
  lemma SlotReplaced(s: Engine, s': Engine, i: int, t: RecvTask)
    requires TableOk(s) && SlotIndex(s, i) && s'.recv == s.recv[i := t] && s.nextOrder <= s'.nextOrder
    requires SlotOk(t) && (t.open ==> forall j :: 0 <= j < |s.recv| && s.recv[j].open ==> j == i)
    requires t.busy ==> t.order < s'.nextOrder
                        && ((s.recv[i].busy && t.order == s.recv[i].order) || t.order == s.nextOrder)
    ensures TableOk(s')
  {
  }

  /** When slot i is not open before and after, no file is involved. */
  lemma ClosedSlotReplaced(s: Engine, s': Engine, i: int, t: RecvTask, pre: Disk)
    requires Inv(s, pre) && TableOk(s')
    requires SlotIndex(s, i) && s'.recv == s.recv[i := t] && !s.recv[i].open && !t.open
    requires s'.disk == s.disk && s'.saved == s.saved
    ensures Inv(s', pre)
  {
    forall name ensures FileOpen(s', name) <==> FileOpen(s, name) {
      forall j | 0 <= j < |s.recv| && s.recv[j].open ensures s'.recv[j] == s.recv[j] {
      }
    }
    forall j | SlotIndex(s', j) ensures SlotCounted(s', j) {
      if j != i {
        assert SlotCounted(s, j);
        assert AssemblyOf(s', j) == AssemblyOf(s, j);
      }
    }
  }

  lemma OpenName(s: Engine, i: int)
    requires TableOk(s) && SlotIndex(s, i) && s.recv[i].open
    ensures FileOpen(s, s.recv[i].saveName) && JoinFits(s.recv[i].saveName) && s.recv[i].saveName != []
    ensures forall name :: FileOpen(s, name) ==> name == s.recv[i].saveName
    ensures forall j :: 0 <= j < |s.recv| && j != i ==> !s.recv[j].open
  {
  }

  lemma NothingOpen(s: Engine, s': Engine, i: int)
    requires TableOk(s) && SlotIndex(s, i) && s.recv[i].open && s'.recv == s.recv[i := FREE]
    ensures forall j :: SlotIndex(s', j) ==> !s'.recv[j].open
    ensures forall name :: !FileOpen(s', name)
  {
  }

  lemma OpenSlotDropped(s: Engine, s': Engine, i: int, pre: Disk)
    requires Inv(s, pre) && SlotIndex(s, i) && s.recv[i].open
    requires s'.recv == s.recv[i := FREE] && s'.nextOrder == s.nextOrder && s'.saved == s.saved
    requires s'.disk == s.disk - {s.recv[i].saveName}
    ensures Inv(s', pre)
  {
    SlotReplaced(s, s', i, FREE);
    OpenName(s, i);
    NothingOpen(s, s', i);
    assert Settled(s', pre) == Settled(s, pre);
  }

  /** Clearing a slot removes its partial file, if any, and nothing else. */
  lemma ClearKeeps(s: Engine, i: int, pre: Disk)
    requires Inv(s, pre) && SlotIndex(s, i)
    ensures Inv(ClearSlot(s, i), pre)
  {
    if s.recv[i].open {
      OpenName(s, i);
      OpenSlotDropped(s, ClearSlot(s, i), i, pre);
    } else {
      SlotReplaced(s, ClearSlot(s, i), i, FREE);
      ClosedSlotReplaced(s, ClearSlot(s, i), i, FREE, pre);
    }
  }

  lemma {:induction false} SavedFilesNames(saved: seq<Saved>, k: nat)
    requires k < |saved|
    ensures saved[k].name in SavedFiles(saved)
  {
    if k < |saved| - 1 {
      SavedFilesNames(saved[..|saved| - 1], k);
    }
  }

  lemma SavedFreshStep(s: Engine, i: int, pre: Disk, x: Saved)
    requires Inv(s, pre) && SlotIndex(s, i) && s.recv[i].open && x.name == s.recv[i].saveName
    ensures SavedFresh(s.saved + [x], pre)
  {
    OpenName(s, i);
    forall k | 0 <= k < |s.saved| ensures s.saved[k].name != x.name {
      SavedFilesNames(s.saved, k);
      assert s.saved[k].name in Settled(s, pre);
    }
  }

  lemma SettledStep(s: Engine, s': Engine, pre: Disk, x: Saved)
    requires s'.saved == s.saved + [x]
    ensures Settled(s', pre) == Settled(s, pre)[x.name := x.content]
  {
  }

  lemma OpenFileSettles(s: Engine, s': Engine, i: int, pre: Disk)
    requires TableOk(s) && DiskOk(s, pre) && SlotIndex(s, i) && s.recv[i].open
    requires s'.recv == s.recv[i := FREE] && s'.disk == s.disk
    requires Settled(s', pre) == Settled(s, pre)[s.recv[i].saveName := FileAt(s.disk, s.recv[i].saveName)]
    ensures DiskOk(s', pre)
  {
  }

  /** The partial file of slot i becomes a completed one. */
  lemma OpenSlotSaved(s: Engine, s': Engine, i: int, pre: Disk)
    requires Inv(s, pre) && SlotIndex(s, i) && s.recv[i].open
    requires s'.recv == s.recv[i := FREE] && s'.nextOrder == s.nextOrder && s'.disk == s.disk
    requires s'.saved == s.saved + [Saved(s.recv[i].tid, s.recv[i].saveName, FileAt(s.disk, s.recv[i].saveName))]
    ensures Inv(s', pre)
  {
    var name := s.recv[i].saveName;
    var x := Saved(s.recv[i].tid, name, FileAt(s.disk, name));
    SlotReplaced(s, s', i, FREE);
    NothingOpen(s, s', i);
    SettledStep(s, s', pre, x);
    OpenFileSettles(s, s', i, pre);
    SavedFreshStep(s, i, pre, x);
  }

  /** Finishing keeps the file exactly when the byte count is right. */
  lemma FinishKeeps(s: Engine, i: int, pre: Disk)
    requires Inv(s, pre) && SlotIndex(s, i) && s.recv[i].open
    ensures Inv(FinishSlot(s, i), pre)
  {
    if s.recv[i].received == s.recv[i].size {
      OpenSlotSaved(s, FinishSlot(s, i), i, pre);
    } else {
      ClearKeeps(s, i, pre);
    }
  }

  lemma CompleteKeeps(s: Engine, tid: u32, pre: Disk)
    requires Inv(s, pre)
    ensures Inv(CompleteReceive(s, tid), pre)
  {
    var i := Find(s.recv, tid);
    if i >= 0 {
      if s.recv[i].open {
        FinishKeeps(s, i, pre);
      } else {
        ClearKeeps(s, i, pre);
      }
    }
  }

  lemma TransmitKeeps(s: Engine, bySender: bool, msg: Msg, ok: bool, pre: Disk)
    requires Inv(s, pre)
    ensures Inv(Transmit(s, bySender, msg, ok), pre)
  {
    SameReceiverKeeps(s, Transmit(s, bySender, msg, ok), pre);
  }

  /** An open slot's own file may be rewritten. */
  lemma OpenSlotRewritten(s: Engine, s': Engine, i: int, t: RecvTask, content: Bytes, pre: Disk)
    requires FilesOk(s, pre) && SlotIndex(s, i) && s.recv[i].open
    requires SlotOk(t) && t.open && t.order == s.recv[i].order && t.saveName == s.recv[i].saveName
    requires s'.recv == s.recv[i := t] && s'.nextOrder == s.nextOrder && s'.saved == s.saved
    requires s'.disk == s.disk[t.saveName := content]
    ensures FilesOk(s', pre)
  {
    OpenName(s, i);
    SlotReplaced(s, s', i, t);
    OpenName(s', i);
    assert Settled(s', pre) == Settled(s, pre);
  }

  lemma StoredFiles(s: Engine, i: int, offset: nat, data: Bytes, pre: Disk)
    requires FilesOk(s, pre) && SlotIndex(s, i) && s.recv[i].open
    requires SpanOk(s.recv[i].size, s.recv[i].bits, offset, |data|)
    ensures FilesOk(StoreChunk(s, i, offset, data), pre)
  {
    var t := s.recv[i];
    assert SlotOk(t);
    OpenSlotRewritten(s, StoreChunk(s, i, offset, data), i,
                      t.(bits := Mark(t.bits, offset / CHUNK), received := t.received + |data|),
                      WriteAt(FileAt(s.disk, t.saveName), offset, data), pre);
  }

  lemma StoredAssembly(s: Engine, i: int, offset: nat, data: Bytes)
    requires SlotIndex(s, i) && SpanOk(s.recv[i].size, s.recv[i].bits, offset, |data|)
    ensures AssemblyOf(StoreChunk(s, i, offset, data), i) == Put(AssemblyOf(s, i), offset, data)
  {
  }

  lemma PutAssembled(a: Assembly, offset: nat, data: Bytes)
    requires SpanOk(a.size, a.bits, offset, |data|) && exists got :: Assembled(a, got)
    ensures exists got :: Assembled(Put(a, offset, data), got)
  {
    var got :| Assembled(a, got);
    PutKeeps(a, got, offset, data);
  }

  lemma StoredCounted(s: Engine, i: int, offset: nat, data: Bytes)
    requires SlotIndex(s, i) && SpanOk(s.recv[i].size, s.recv[i].bits, offset, |data|)
    requires exists got :: Assembled(AssemblyOf(s, i), got)
    ensures SlotCounted(StoreChunk(s, i, offset, data), i)
  {
    PutAssembled(AssemblyOf(s, i), offset, data);
    StoredAssembly(s, i, offset, data);
  }

  /** An accepted chunk. */
  lemma StoreKeeps(s: Engine, i: int, offset: nat, data: Bytes, pre: Disk)
    requires Inv(s, pre) && SlotIndex(s, i) && s.recv[i].open
    requires SpanOk(s.recv[i].size, s.recv[i].bits, offset, |data|)
    ensures Inv(StoreChunk(s, i, offset, data), pre)
  {
    assert SlotCounted(s, i);
    StoredFiles(s, i, offset, data, pre);
    StoredCounted(s, i, offset, data);
    OpenName(s, i);
  }

  lemma AbortKeeps(s: Engine, i: int, ok: bool, pre: Disk)
    requires Inv(s, pre) && SlotIndex(s, i)
    ensures Inv(AbortSlot(s, i, ok), pre)
  {
    TransmitKeeps(s, false, Cancel(s.recv[i].tid), ok, pre);
    ClearKeeps(Transmit(s, false, Cancel(s.recv[i].tid), ok), i, pre);
  }

  /** Whatever a failed write left in the partial file goes with it. */
  lemma TornFileGone(s: Engine, i: int, left: Bytes, ok: bool)
    requires TableOk(s) && SlotIndex(s, i) && s.recv[i].open
    ensures AbortSlot(s.(disk := s.disk[s.recv[i].saveName := left]), i, ok) == AbortSlot(s, i, ok)
  {
  }

  lemma ChunkKeeps(s: Engine, payload: Bytes, write: WriteResult, ok: bool, pre: Disk)
    requires Inv(s, pre)
    ensures Inv(HandleChunk(s, payload, write, ok), pre)
  {
    if |payload| >= 12 {
      var c := ReadChunk(payload);
      var i := Find(s.recv, c.tid);
      if i >= 0 && s.recv[i].open {
        if !SpanOk(s.recv[i].size, s.recv[i].bits, c.offset, |c.data|) {
          AbortKeeps(s, i, ok, pre);
        } else if write.Torn? {
          AbortKeeps(s, i, ok, pre);
          TornFileGone(s, i, write.left, ok);
        } else {
          StoreKeeps(s, i, c.offset, c.data, pre);
        }
      }
    }
  }

  lemma AnnounceKeeps(s: Engine, tid: u32, ok: bool, pre: Disk)
    requires Inv(s, pre)
    ensures Inv(AnnounceIncoming(s, tid, ok), pre)
  {
    var i := FreeSlot(s.recv);
    TransmitKeeps(s, false, Reject(tid), ok, pre);
    if i >= 0 {
      var t := FREE.(busy := true, tid := tid, order := s.nextOrder);
      SlotReplaced(s, AnnounceIncoming(s, tid, ok), i, t);
      ClosedSlotReplaced(s, AnnounceIncoming(s, tid, ok), i, t, pre);
    }
  }

  lemma InitKeeps(s: Engine, payload: Bytes, pre: Disk)
    requires Inv(s, pre)
    ensures Inv(HandleInit(s, payload), pre)
  {
    var i := Oldest(s.recv, |s.recv|);
    if ParseInit(payload).Some? && i >= 0 {
      var s' := HandleInit(s, payload);
      SlotReplaced(s, s', i, s'.recv[i]);
      ClosedSlotReplaced(s, s', i, s'.recv[i], pre);
    }
  }

  /** Slot i is free again and downloads/ is as before: what every failed /accept comes to. */
  predicate SlotGone(s: Engine, s': Engine, i: int)
    requires SlotIndex(s, i)
  {
    s'.recv == s.recv[i := FREE] && s'.nextOrder == s.nextOrder && s'.disk == s.disk && s'.saved == s.saved
  }

  /** Slot i now receives into a new, empty file that was not there before, under the name offered, cleaned and with the
      least free number. */
  predicate SlotOpened(s: Engine, s': Engine, i: int)
    requires SlotIndex(s, i)
  {
    var t := s'.recv;
    && |t| == |s.recv|
    && t == s.recv[i := s.recv[i].(saveName := t[i].saveName, bits := ZeroBits(BitmapLength(s.recv[i].size)),
                                   open := true)]
    && SafeName(t[i].saveName) && |t[i].saveName| < MAX_FILENAME_LEN && t[i].saveName !in s.disk
    && SavedUnder(s.recv[i].filename, s.disk.Keys, t[i].saveName)
    && s'.disk == s.disk[t[i].saveName := []] && s'.nextOrder == s.nextOrder && s'.saved == s.saved
  }

  /** What follows the choice of a free name. */
  lemma AcceptAsMeaning(s: Engine, i: int, name: Bytes, io: AcceptIo)
    requires SlotIndex(s, i) && SlotOk(s.recv[i]) && s.recv[i].inited && s.recv[i].size > 0 && !s.recv[i].open
    requires SafeName(name) && |name| < MAX_FILENAME_LEN && name !in s.disk
    requires SavedUnder(s.recv[i].filename, s.disk.Keys, name)
    ensures var s1 := s.(recv := s.recv[i := s.recv[i].(saveName := name)]);
            var s' := AcceptAs(s1, i, io).s;
            if io.dirOk && io.memOk && io.openOk && io.sendOk && s.up then SlotOpened(s, s', i) else SlotGone(s, s', i)
  {
  }

  lemma AcceptName(s: Engine, i: int)
    requires SlotIndex(s, i) && Sanitize(s.recv[i].filename, MAX_FILENAME_LEN).Some?
    requires UniqueName(Sanitize(s.recv[i].filename, MAX_FILENAME_LEN).value, NameTaken(s.disk.Keys),
                        MAX_FILENAME_LEN).Some?
    ensures var base := Sanitize(s.recv[i].filename, MAX_FILENAME_LEN).value;
            var name := UniqueName(base, NameTaken(s.disk.Keys), MAX_FILENAME_LEN).value;
            && SafeName(name) && |name| < MAX_FILENAME_LEN && name !in s.disk
            && SavedUnder(s.recv[i].filename, s.disk.Keys, name)
  {
    var base := Sanitize(s.recv[i].filename, MAX_FILENAME_LEN).value;
    SanitizeSafe(s.recv[i].filename, MAX_FILENAME_LEN);
    UniqueNameSafe(base, NameTaken(s.disk.Keys), MAX_FILENAME_LEN);
    UniqueNameLeast(base, NameTaken(s.disk.Keys), MAX_FILENAME_LEN);
    ChosenName(s.recv[i].filename, s.disk.Keys);
  }

  /** /accept does one of three things: nothing; drop the task without touching any file; open a file that did not
      exist, inside downloads/. */
  lemma AcceptMeaning(s: Engine, tid: u32, io: AcceptIo)
    requires TableOk(s)
    ensures var i, s' := Find(s.recv, tid), AcceptCmd(s, tid, io).s;
            || SameReceiver(s, s')
            || (i >= 0 && !s.recv[i].open && s.recv[i].inited && SlotGone(s, s', i))
            || (i >= 0 && ActiveSlot(s.recv) < 0 && s.recv[i].inited && s.recv[i].size > 0 && SlotOpened(s, s', i))
  {
    var i := Find(s.recv, tid);
    if i >= 0 && !s.recv[i].open && ActiveSlot(s.recv) < 0 && s.recv[i].inited && s.recv[i].size > 0 {
      var base := Sanitize(s.recv[i].filename, MAX_FILENAME_LEN);
      if base.Some? {
        var name := UniqueName(base.value, NameTaken(s.disk.Keys), MAX_FILENAME_LEN);
        if name.Some? {
          AcceptName(s, i);
          AcceptAsMeaning(s, i, name.value, io);
        }
      }
    }
  }

  lemma SlotGoneKeeps(s: Engine, s': Engine, i: int, pre: Disk)
    requires Inv(s, pre) && SlotIndex(s, i) && !s.recv[i].open && SlotGone(s, s', i)
    ensures Inv(s', pre)
  {
    SlotReplaced(s, s', i, FREE);
    ClosedSlotReplaced(s, s', i, FREE, pre);
  }

  lemma SlotOpenedKeeps(s: Engine, s': Engine, i: int, pre: Disk)
    requires Inv(s, pre) && SlotIndex(s, i) && SlotOpened(s, s', i)
    requires s.recv[i].busy && s.recv[i].inited && s.recv[i].size > 0 && ActiveSlot(s.recv) < 0
    ensures Inv(s', pre)
  {
    var t := s'.recv[i];
    assert forall j :: SlotIndex(s, j) ==> SlotOk(s.recv[j]) && !s.recv[j].open;
    SlotReplaced(s, s', i, t);
    OpenName(s', i);
    assert Settled(s', pre) == Settled(s, pre);
    FreshAssembled(t.size);
    assert AssemblyOf(s', i) == Fresh(t.size);
  }

  lemma AcceptKeeps(s: Engine, tid: u32, io: AcceptIo, pre: Disk)
    requires Inv(s, pre)
    ensures Inv(AcceptCmd(s, tid, io).s, pre)
  {
    AcceptMeaning(s, tid, io);
    var i, s' := Find(s.recv, tid), AcceptCmd(s, tid, io).s;
    if SameReceiver(s, s') {
      SameReceiverKeeps(s, s', pre);
    } else if SlotGone(s, s', i) {
      SlotGoneKeeps(s, s', i, pre);
    } else {
      SlotOpenedKeeps(s, s', i, pre);
    }
  }

  lemma RejectCmdKeeps(s: Engine, tid: u32, ok: bool, pre: Disk)
    requires Inv(s, pre)
    ensures Inv(RejectCmd(s, tid, ok).s, pre)
  {
    var i := Find(s.recv, tid);
    if i >= 0 {
      TransmitKeeps(s, false, Reject(tid), ok, pre);
      ClearKeeps(Transmit(s, false, Reject(tid), ok), i, pre);
    }
  }

  lemma CancelCmdKeeps(s: Engine, tid: u32, ok: bool, pre: Disk)
    requires Inv(s, pre)
    ensures Inv(CancelCmd(s, tid, ok).s, pre)
  {
    var s' := CancelCmd(s, tid, ok).s;
    if SendMatches(s, tid) {
      SameReceiverKeeps(s, s', pre);
    } else if Find(s.recv, tid) >= 0 {
      var s1 := Transmit(s, false, Cancel(tid), ok);
      TransmitKeeps(s, false, Cancel(tid), ok, pre);
      ClearKeeps(s1, Find(s.recv, tid), pre);
    }
  }

  lemma SignalCancelKeeps(s: Engine, tid: u32, pre: Disk)
    requires Inv(s, pre)
    ensures Inv(SignalCancel(s, tid), pre)
  {
    if SendMatches(s, tid) {
      SameReceiverKeeps(s, SignalCancel(s, tid), pre);
    } else if Find(s.recv, tid) >= 0 {
      ClearKeeps(s, Find(s.recv, tid), pre);
    }
  }

  lemma SenderSignalKeeps(s: Engine, tid: u32, pre: Disk)
    requires Inv(s, pre)
    ensures Inv(SignalAccept(s, tid), pre) && Inv(SignalReject(s, tid), pre)
  {
    SameReceiverKeeps(s, SignalAccept(s, tid), pre);
    SameReceiverKeeps(s, SignalReject(s, tid), pre);
  }

  lemma AnnouncementKeeps(s: Engine, kind: AnnKind, tid: u32, ok: bool, pre: Disk)
    requires Inv(s, pre)
    ensures Inv(Announcement(s, kind, tid, ok), pre)
  {
    match kind
    case SendPending => SameReceiverKeeps(s, Announcement(s, kind, tid, ok), pre);
    case Accepted => SenderSignalKeeps(s, tid, pre);
    case Rejected => SenderSignalKeeps(s, tid, pre);
    case Cancelled => SignalCancelKeeps(s, tid, pre);
    case CancelledDisc => SignalCancelKeeps(s, tid, pre);
    case RecvPending => AnnounceKeeps(s, tid, ok, pre);
    case Completed =>
      if SendMatches(s, tid) && s.send.state == WaitComplete {
        SameReceiverKeeps(s, s.(send := NO_SEND), pre);
      } else {
        CompleteKeeps(s, tid, pre);
      }
  }

  lemma ControlKeeps(s: Engine, f: Frame, write: WriteResult, ok: bool, pre: Disk)
    requires Inv(s, pre) && |f.payload| == 4
    ensures Inv(HandleFrame(s, f, write, ok), pre)
  {
    var tid := ReadU32(f.payload);
    SenderSignalKeeps(s, tid, pre);
    if f.msgType == MSG_FILE_CANCEL {
      SignalCancelKeeps(s, tid, pre);
    } else if f.msgType == MSG_FILE_COMPLETE {
      CompleteKeeps(s, tid, pre);
    }
  }

  lemma FrameKeeps(s: Engine, f: Frame, write: WriteResult, ok: bool, pre: Disk)
    requires Inv(s, pre)
    ensures Inv(HandleFrame(s, f, write, ok), pre)
  {
    if |f.payload| == 4 {
      ControlKeeps(s, f, write, ok, pre);
    } else if f.msgType == MSG_FILE_INIT {
      InitKeeps(s, f.payload, pre);
    } else if f.msgType == MSG_FILE_CHUNK {
      ChunkKeeps(s, f.payload, write, ok, pre);
    }
  }

  lemma ErrorKeeps(s: Engine, code: int, pre: Disk)
    requires Inv(s, pre)
    ensures Inv(HandleError(s, code), pre)
  {
    var s1 := s.(send := NO_SEND);
    SameReceiverKeeps(s, s1, pre);
    var i := ActiveSlot(s.recv);
    if i >= 0 {
      ClearKeeps(s, i, pre);
      ClearKeeps(s1, i, pre);
    }
  }

  /** The send tick does not touch the receiver. */
  lemma {:induction false} ChunksSameReceiver(s: Engine, io: seq<ChunkIo>)
    ensures SameReceiver(s, SendChunks(s, io).s)
    decreases |io|
  {
    if io != [] && s.send.sent < s.send.size && !SendChunk(s, io[0]).halted {
      ChunksSameReceiver(SendChunk(s, io[0]).s, io[1..]);
    }
  }

  lemma TickSameReceiver(s: Engine, io: TickIo)
    ensures SameReceiver(s, Tick(s, io).s)
  {
    ChunksSameReceiver(s, io);
  }

  lemma {:induction false} ResetKeeps(s: Engine, i: nat, pre: Disk)
    requires Inv(s, pre) && i <= |s.recv|
    ensures Inv(ResetSlots(s, i), pre)
    decreases |s.recv| - i
  {
    if i < |s.recv| {
      if s.recv[i].busy {
        ClearKeeps(s, i, pre);
        ResetKeeps(ClearSlot(s, i), i + 1, pre);
      } else {
        ResetKeeps(s, i + 1, pre);
      }
    }
  }

  /** Every event keeps the invariant. */
  lemma StepKeeps(s: Engine, e: Event, pre: Disk)
    requires Inv(s, pre)
    ensures Inv(Step(s, e), pre)
  {
    match e
    case SendFileCommand(target, filename, probe, ok) =>
      SameReceiverKeeps(s, Step(s, e), pre);
    case AcceptCommand(tid, io) =>
      AcceptKeeps(s, tid, io, pre);
    case RejectCommand(tid, ok) =>
      RejectCmdKeeps(s, tid, ok, pre);
    case CancelCommand(tid, ok) =>
      CancelCmdKeeps(s, tid, ok, pre);
    case AnnouncementIn(kind, tid, ok) =>
      AnnouncementKeeps(s, kind, tid, ok, pre);
    case FrameIn(f, write, ok) =>
      FrameKeeps(s, f, write, ok, pre);
    case ErrorIn(code) =>
      ErrorKeeps(s, code, pre);
    case TickTimeout(io) =>
      TickSameReceiver(s, io);
      SameReceiverKeeps(s, Step(s, e), pre);
    case Reset =>
      var s1 := if s.send.busy then s.(send := NO_SEND) else s;
      SameReceiverKeeps(s, s1, pre);
      ResetKeeps(s1, 0, pre);
  }

  /** Whole-run safety: after any events from a client started over any downloads/ directory, the table is in order and
      the directory holds exactly the files of the start unchanged, the completed files, and at most one partial file,
      that of the open receive. */
  lemma {:induction false} RunSafe(pre: Disk, es: seq<Event>)
    ensures Inv(Run(Start(pre), es), pre)
  {
    if es == [] {
      StartInv(pre);
    } else {
      RunSafe(pre, es[..|es| - 1]);
      StepKeeps(Run(Start(pre), es[..|es| - 1]), es[|es| - 1], pre);
    }
  }

  lemma {:induction false} SavedFilesLookup(saved: seq<Saved>, pre: Disk, k: nat)
    requires SavedFresh(saved, pre) && k < |saved|
    ensures saved[k].name in SavedFiles(saved) && SavedFiles(saved)[saved[k].name] == saved[k].content
  {
    if k < |saved| - 1 {
      SavedFilesLookup(saved[..|saved| - 1], pre, k);
    }
  }

  lemma {:induction false} SavedFilesOnly(saved: seq<Saved>, name: Bytes)
    requires name in SavedFiles(saved)
    ensures exists k :: 0 <= k < |saved| && saved[k].name == name
  {
    if saved[|saved| - 1].name != name {
      SavedFilesOnly(saved[..|saved| - 1], name);
    }
  }

  /** A completed file is there, unchanged, under a name that was free at the start. */
  predicate KeptOnDisk(s: Engine, x: Saved, pre: Disk) {
    x.name !in pre && x.name in s.disk && s.disk[x.name] == x.content
  }

  /** The same, file by file: what was there is there unchanged, what was completed is there with the content it was
      completed with, under a name that was free, and any other file is the partial one of the only open receive. */
  lemma RunDirectory(pre: Disk, es: seq<Event>)
    ensures var s := Run(Start(pre), es);
            && (forall name :: name in pre ==> name in s.disk && s.disk[name] == pre[name])
            && (forall k :: 0 <= k < |s.saved| ==> KeptOnDisk(s, s.saved[k], pre))
            && (forall name :: name in s.disk && name !in pre ==>
                  FileOpen(s, name) || exists k :: 0 <= k < |s.saved| && s.saved[k].name == name)
            && (forall name, name' :: FileOpen(s, name) && FileOpen(s, name') ==> name == name')
  {
    RunSafe(pre, es);
    var s := Run(Start(pre), es);
    var base := Settled(s, pre);
    forall name | name in pre ensures name in s.disk && s.disk[name] == pre[name] {
      if name in SavedFiles(s.saved) {
        SavedFilesOnly(s.saved, name);
      }
      assert name in base;
    }
    forall k | 0 <= k < |s.saved|
      ensures KeptOnDisk(s, s.saved[k], pre)
    {
      SavedFilesLookup(s.saved, pre, k);
      assert s.saved[k].name in base;
    }
    forall name | name in s.disk && name !in pre && !FileOpen(s, name)
      ensures exists k :: 0 <= k < |s.saved| && s.saved[k].name == name
    {
      assert name in base;
      SavedFilesOnly(s.saved, name);
    }
  }
}
