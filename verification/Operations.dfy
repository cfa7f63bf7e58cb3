/** What each command and signal achieves, said without its code: who is still there, what went out, which files
    remain. */
module Operations {
  import opened Bytes
  import opened Bitmap
  import opened Assembly
  import opened Naming
  import opened Transfer
  import opened SenderTrace
  import opened SenderProgress
  import opened ReceiveTable
  import opened Delivery
  import opened DualSignal

  /** Exactly this message went out, or nothing because the connection is gone. */
  predicate WentOut(s: Engine, s': Engine, bySender: bool, msg: Msg) {
    if s'.up then s'.wire == s.wire + [Sent(bySender, msg)] else s'.wire == s.wire
  }

  // ---- return codes: the main loop ends when a handler answers -1 ----

  /** /sendfile answers -1 exactly when its INIT could not be sent; then the slot is idle again. It takes the slot
      exactly when INIT went out. */
  lemma SendFileCode(s: Engine, target: Bytes, filename: Bytes, probe: FileProbe, ok: bool)
    requires !s.send.busy ==> s.send == NO_SEND
    ensures var r := SendFile(s, target, filename, probe, ok);
            var tried := !s.send.busy && probe.Opened? && probe.content != [];
            && (r.rc == 0 || r.rc == -1) && (r.rc == -1 <==> tried && !(s.up && ok))
            && (r.rc == -1 ==> r.s == s.(up := false))
            && (r.rc == 0 ==>
                  if tried then
                    r.s.send.busy && r.s.up && WentOut(s, r.s, true, Init(target, filename, |probe.content|))
                  else r.s == s)
  {
  }

  /** The k-th pass of a tick is the first to fail, and what fails is the sending of its chunk. */
  predicate ChunkUnsent(up: bool, io: seq<ChunkIo>, k: int) {
    && 0 <= k < |io| && io[k].readOk && !(up && io[k].sendOk)
    && forall j :: 0 <= j < k ==> up && io[j].readOk && io[j].sendOk
  }

  /** One of the first n passes is such a pass. */
  predicate SomeUnsent(up: bool, io: seq<ChunkIo>, n: int) {
    exists k :: 0 <= k < |io| && k < n && ChunkUnsent(up, io, k)
  }

  lemma {:induction false} RoundCode(s: Engine, io: seq<ChunkIo>)
    requires Cursor(s.send)
    ensures var pass := SendChunks(s, io);
            && (pass.rc == 0 || pass.rc == -1) && (pass.rc == -1 ==> pass.halted && !pass.s.up)
            && (pass.rc == -1 <==> SomeUnsent(s.up, io, Left(s.send)))
    decreases |io|
  {
    LeftMeaning(s.send);
    if io != [] && s.send.sent < s.send.size {
      var pass := SendChunk(s, io[0]);
      SendChunkMeaning(s, io[0]);
      if !pass.halted {
        MovedCursor(s.send);
        RoundCode(pass.s, io[1..]);
        SomeUnsentLater(io, Left(s.send));
      } else {
        FirstPassFails(s.up, io, Left(s.send));
      }
    }
  }

  lemma FirstPassFails(up: bool, io: seq<ChunkIo>, n: int)
    requires io != [] && n > 0 && !(io[0].readOk && up && io[0].sendOk)
    ensures SomeUnsent(up, io, n) <==> io[0].readOk
  {
    if io[0].readOk {
      assert ChunkUnsent(up, io, 0);
    }
  }

  lemma SomeUnsentLater(io: seq<ChunkIo>, n: int)
    requires io != [] && io[0].readOk && io[0].sendOk
    ensures SomeUnsent(true, io, n) <==> SomeUnsent(true, io[1..], n - 1)
  {
    if SomeUnsent(true, io, n) {
      var k :| 0 <= k < |io| && k < n && ChunkUnsent(true, io, k);
      assert ChunkUnsent(true, io[1..], k - 1);
    }
    if SomeUnsent(true, io[1..], n - 1) {
      var k :| 0 <= k < |io[1..]| && k < n - 1 && ChunkUnsent(true, io[1..], k);
      assert ChunkUnsent(true, io, k + 1);
    }
  }

  /** A tick answers -1 exactly when the frame it could not send was a chunk or COMPLETE; a failed read ends the task
      but not the main loop. */
  lemma TickCode(s: Engine, io: TickIo)
    requires SendOk(s.send)
    ensures var r := Tick(s, io);
            && (r.rc == 0 || r.rc == -1) && (r.rc == -1 ==> !r.s.up)
            && (r.rc == -1 <==>
                if s.send.state == Done then !(s.up && io[0].sendOk)
                else s.send.state == Active
                     && SomeUnsent(s.up, io, Left(s.send)))
  {
    if s.send.state == Active {
      RoundCode(s, io);
    }
  }

  // ---- commands, chunks, errors ----

  /** /cancel: one holder of the id goes and CANCEL goes out; when the frame cannot be sent, or there is no holder,
      every task stays. */
  lemma CancelMeaning(s: Engine, tid: u32, ok: bool)
    requires |s.recv| == MAX_RECV
    ensures var r := CancelCmd(s, tid, ok);
            if Holders(s, tid) == 0 then r == Outcome(s, 0)
            else if s.up && ok then
              && r.rc == 0 && Holders(r.s, tid) == Holders(s, tid) - 1
              && WentOut(s, r.s, SendMatches(s, tid), Cancel(tid)) && r.s.up
              && (SendMatches(s, tid) ==> r.s == s.(send := NO_SEND, wire := r.s.wire))
              && (!SendMatches(s, tid) ==>
                    var i := Find(s.recv, tid);
                    i >= 0 && r.s == s.(recv := s.recv[i := FREE], disk := r.s.disk, wire := r.s.wire))
            else r == Outcome(s.(up := false), -1)
  {
    HoldersFind(s.recv, tid, 0);
    var i := Find(s.recv, tid);
    if !SendMatches(s, tid) && i >= 0 {
      HoldersCleared(s.recv, tid, i, 0);
    }
  }

  /** /reject: only a task that is not yet receiving is refused. */
  lemma RejectMeaning(s: Engine, tid: u32, ok: bool)
    requires TableOk(s)
    ensures var r, i := RejectCmd(s, tid, ok), Find(s.recv, tid);
            if i < 0 || s.recv[i].open then r == Outcome(s, 0)
            else if s.up && ok then
              && r.rc == 0 && WentOut(s, r.s, false, Reject(tid)) && r.s.up
              && r.s == s.(recv := s.recv[i := FREE], wire := r.s.wire)
            else r == Outcome(s.(up := false), -1)
  {
  }

  /** A task /accept works on: waiting with its details, while nothing is being received. */
  predicate Acceptable(s: Engine, i: int) {
    0 <= i < |s.recv| && !s.recv[i].open && s.recv[i].inited && ActiveSlot(s.recv) < 0
  }

  /** Its name is acceptable, and one of the numbered forms of it is free and fits. */
  predicate Nameable(s: Engine, i: int)
    requires SlotIndex(s, i)
  {
    var base := Sanitize(s.recv[i].filename, MAX_FILENAME_LEN);
    base.Some? && UniqueName(base.value, NameTaken(s.disk.Keys), MAX_FILENAME_LEN).Some?
  }

  /** The slot is gone, no file was touched, and REJECT went out unless the connection is down. */
  predicate Refused(s: Engine, r: Outcome, i: int)
    requires SlotIndex(s, i)
  {
    SlotGone(s, r.s, i) && r.rc == 0 && WentOut(s, r.s, false, Reject(s.recv[i].tid))
  }

  lemma AcceptAsWire(s: Engine, i: int, name: Bytes, io: AcceptIo)
    requires SlotIndex(s, i) && SlotOk(s.recv[i]) && s.recv[i].inited && s.recv[i].size > 0 && !s.recv[i].open
    requires SafeName(name) && |name| < MAX_FILENAME_LEN && name !in s.disk
    requires SavedUnder(s.recv[i].filename, s.disk.Keys, name)
    ensures var s1 := s.(recv := s.recv[i := s.recv[i].(saveName := name)]);
            var r := AcceptAs(s1, i, io);
            if !(io.dirOk && io.memOk && io.openOk) then Refused(s, r, i)
            else
              && WentOut(s, r.s, false, Accept(s.recv[i].tid)) && (r.s.up <==> s.up && io.sendOk)
              && (if r.s.up then SlotOpened(s, r.s, i) && r.rc == 0 else SlotGone(s, r.s, i) && r.rc == -1)
  {
    AcceptAsMeaning(s, i, name, io);
  }

  /** /accept, on any table: nothing happens; or ACCEPT is out and the task receives into a new file; or REJECT is
      out, or the connection down, and the task is gone without a trace; or only the ACCEPT failed: the task is gone,
      no file is left, and the return code says so. */
  lemma AcceptWire(s: Engine, tid: u32, io: AcceptIo)
    requires TableOk(s)
    ensures var i, r := Find(s.recv, tid), AcceptCmd(s, tid, io);
            if !Acceptable(s, i) then r == Outcome(s, 0)
            else if s.recv[i].size == 0 || !Nameable(s, i) || !(io.dirOk && io.memOk && io.openOk) then Refused(s, r, i)
            else
              && WentOut(s, r.s, false, Accept(tid)) && (r.s.up <==> s.up && io.sendOk)
              && (if r.s.up then SlotOpened(s, r.s, i) && r.rc == 0 else SlotGone(s, r.s, i) && r.rc == -1)
  {
    var i := Find(s.recv, tid);
    if Acceptable(s, i) && s.recv[i].size > 0 && Nameable(s, i) {
      AcceptName(s, i);
      var base := Sanitize(s.recv[i].filename, MAX_FILENAME_LEN).value;
      AcceptAsWire(s, i, UniqueName(base, NameTaken(s.disk.Keys), MAX_FILENAME_LEN).value, io);
    }
  }

  /** The last part of the file name is a proper name of at most 249 bytes. */
  predicate PlainName(filename: Bytes, dir: Bytes, base: Bytes) {
    && filename == dir + base
    && (dir == [] || IsSeparator(dir[|dir| - 1]))
    && (forall k :: 0 <= k < |base| ==> !IsSeparator(base[k]))
    && 0 < |base| <= 249 && base != [DOT] && base != [DOT, DOT]
  }

  lemma PlainNameable(s: Engine, i: int, dir: Bytes, base: Bytes)
    requires SlotIndex(s, i) && PlainName(s.recv[i].filename, dir, base) && |s.disk.Keys| < 1000
    ensures Nameable(s, i)
  {
    SanitizeRefuses(dir, base, MAX_FILENAME_LEN);
    SaveNameFound(s.disk.Keys, Clean(base));
  }

  /** With fewer than 1000 files in downloads/ such a name is no reason to refuse: when nothing fails, the transfer is
      accepted, and its file is named after the offer: the cleaned name itself, or the first of its numbered forms
      that is free. */
  lemma AcceptSucceeds(s: Engine, tid: u32, dir: Bytes, base: Bytes, io: AcceptIo)
    requires TableOk(s) && Acceptable(s, Find(s.recv, tid)) && s.recv[Find(s.recv, tid)].size > 0
    requires PlainName(s.recv[Find(s.recv, tid)].filename, dir, base) && |s.disk.Keys| < 1000
    requires s.up && io == AcceptIo(true, true, true, true)
    ensures var i, r := Find(s.recv, tid), AcceptCmd(s, tid, io);
            && r.rc == 0 && r.s.up && SlotOpened(s, r.s, i) && r.s.wire == s.wire + [Sent(false, Accept(tid))]
            && (exists k :: 0 <= k < MAX_TRIES && FirstUnused(s.disk.Keys, Clean(base), k)
                            && r.s.recv[i].saveName == Candidate(Clean(base), k))
            && (Clean(base) !in s.disk ==> r.s.recv[i].saveName == Clean(base))
  {
    var i, r := Find(s.recv, tid), AcceptCmd(s, tid, io);
    PlainNameable(s, i, dir, base);
    AcceptWire(s, tid, io);
    var k := SavedUnderPath(dir, base, s.disk.Keys, r.s.recv[i].saveName);
  }

  /** What becomes of a chunk that passes the check and is written. */
  predicate ChunkTaken(s: Engine, s': Engine, i: int, c: ChunkIn)
    requires SlotIndex(s, i) && |s'.recv| == |s.recv|
  {
    var t := s.recv[i];
    && s'.recv[i].received == t.received + |c.data| && s'.recv[i].open && s'.wire == s.wire
    && t.saveName in s'.disk && HoldsArrival(s'.disk[t.saveName], Arrival(c.offset, c.data))
  }

  /** What becomes of the receive otherwise. */
  predicate ReceiveOver(s: Engine, s': Engine, i: int)
    requires SlotIndex(s, i) && |s'.recv| == |s.recv|
  {
    !s'.recv[i].busy && s.recv[i].saveName !in s'.disk && WentOut(s, s', false, Cancel(s.recv[i].tid))
  }

  lemma WrittenIsHeld(content: Bytes, offset: nat, data: Bytes)
    ensures HoldsArrival(WriteAt(content, offset, data), Arrival(offset, data))
  {
    WriteAtBytes(content, offset, data);
    assert WriteAt(content, offset, data)[offset..offset + |data|] == data;
  }

  /** A chunk for the open receive: stored and counted exactly when it passes the check and the write succeeds;
      otherwise the receive is over, its file is gone, and the peer is told. */
  lemma ChunkVerdict(s: Engine, i: int, c: ChunkIn, write: WriteResult, ok: bool)
    requires TableOk(s) && SlotIndex(s, i) && s.recv[i].open && Find(s.recv, c.tid) == i
    ensures var t, s' := s.recv[i], AcceptChunk(s, c, write, ok);
            && |s'.recv| == |s.recv|
            && if SpanOk(t.size, t.bits, c.offset, |c.data|) && write.Written? then ChunkTaken(s, s', i, c)
               else ReceiveOver(s, s', i)
  {
    OpenName(s, i);
    WrittenIsHeld(FileAt(s.disk, s.recv[i].saveName), c.offset, c.data);
  }

  /** Completion: the file stays and is reported exactly when the byte count is right; the slot is free either way. */
  lemma CompletionVerdict(s: Engine, tid: u32, i: int, pre: Disk)
    requires Inv(s, pre) && SlotIndex(s, i) && s.recv[i].open && Find(s.recv, tid) == i
    ensures var t, s' := s.recv[i], CompleteReceive(s, tid);
            && !s'.recv[i].busy
            && (t.saveName in s'.disk <==> t.received == t.size)
            && (t.received == t.size ==>
                  s'.disk == s.disk && s'.saved == s.saved + [Saved(tid, t.saveName, FileAt(s.disk, t.saveName))])
            && (t.received != t.size ==> s'.disk == s.disk - {t.saveName} && s'.saved == s.saved)
  {
  }

  /** Error 300 ends the sending task and the open receive, removes its partial file, and leaves waiting tasks alone;
      error 200 ends only a sending task whose INIT is unconfirmed; other errors do nothing. */
  lemma ErrorMeaning(s: Engine, code: int, pre: Disk)
    requires Inv(s, pre)
    ensures var s' := HandleError(s, code);
            && |s'.recv| == |s.recv| && s'.wire == s.wire && s'.up == s.up && s'.saved == s.saved
            && (code == 300 ==>
                  && !s'.send.busy && NothingIsOpen(s')
                  && (forall j :: 0 <= j < |s.recv| && !s.recv[j].open ==> s'.recv[j] == s.recv[j])
                  && s'.disk == Settled(s, pre))
            && (code == 200 ==>
                  && SameReceiver(s, s')
                  && s'.send == (if s.send.busy && s.send.state == PendingTid then NO_SEND else s.send))
            && (code != 300 && code != 200 ==> s' == s)
  {
    if code == 300 {
      ErrorKeeps(s, code, pre);
      var a := ActiveSlot(s.recv);
      if a >= 0 {
        OpenName(s, a);
      } else {
        assert forall j :: 0 <= j < |s.recv| ==> SlotOk(s.recv[j]);
      }
      OnlySettled(HandleError(s, code), pre);
    }
  }

  lemma OnlySettled(s: Engine, pre: Disk)
    requires Inv(s, pre) && NothingIsOpen(s)
    ensures s.disk == Settled(s, pre)
  {
  }

  /** A reset leaves no task, and no file but those of the start and the completed ones. */
  lemma ResetMeaning(s: Engine, pre: Disk)
    requires Inv(s, pre) && (!s.send.busy ==> s.send == NO_SEND)
    ensures var s' := ResetAll(s);
            && s'.send == NO_SEND && s'.recv == Start(pre).recv
            && s'.saved == s.saved && s'.disk == Settled(s, pre) && s'.wire == s.wire && s'.up == s.up
  {
    var s1 := if s.send.busy then s.(send := NO_SEND) else s;
    SameReceiverKeeps(s, s1, pre);
    ResetFate(s1, 0);
    ResetKeeps(s1, 0, pre);
    ResetSend(s1, 0);
    OnlySettled(ResetAll(s), pre);
    assert ResetAll(s).recv == Start(pre).recv;
  }

  lemma {:induction false} ResetSend(s: Engine, i: nat)
    requires i <= |s.recv|
    ensures var s' := ResetSlots(s, i);
            s'.send == s.send && s'.wire == s.wire && s'.up == s.up
    decreases |s.recv| - i
  {
    if i < |s.recv| {
      ResetSend(if s.recv[i].busy then ClearSlot(s, i) else s, i + 1);
    }
  }
}
