/** The other half of delivery: when every chunk arrives exactly once, in any order, the file is kept. */
module Completion {
  import opened Bytes
  import opened Chunks
  import opened Bitmap
  import opened Assembly
  import opened Transfer
  import opened Protocol
  import opened ReceiveTable
  import opened Delivery

  /** Events that do not end this receive: everything but its own chunks, cancels, completions, the catch-all error 300,
      a reset, and a second announcement of the same id. */
  predicate Harmless(e: Event, tid: u32) {
    match e
    case CancelCommand(t, _) => t != tid
    case AnnouncementIn(kind, t, _) => t == tid ==> kind in {SendPending, Accepted, Rejected}
    case FrameIn(f, _, _) =>
      if |f.payload| == 4 then ReadU32(f.payload) == tid ==> f.msgType !in {MSG_FILE_CANCEL, MSG_FILE_COMPLETE}
      else !ChunkFor(e, tid)
    case ErrorIn(code) => code != ERR_TRANSFER_STATE
    case Reset => false
    case _ => true
  }

  /** A chunk of source for this id whose write succeeds. */
  predicate GoodChunk(e: Event, tid: u32, source: FileBytes) {
    ChunkFor(e, tid) && Genuine(e, tid, source) && e.write.Written?
  }

  /** The chunks of source with the given indices. */
  function Chosen(source: Bytes, have: set<nat>): (got: Pieces)
    ensures FromSource(got, source)
  {
    map k | k in have :: Slice(source, k)
  }

  /** Slot i is the task this id leads to. */
  predicate Leads(s: Engine, i: int, tid: u32, size: nat) {
    SlotIndex(s, i) && s.recv[i].open && s.recv[i].tid == tid && s.recv[i].size == size && Find(s.recv, tid) == i
  }

  /** It has received exactly the chunks in have. */
  ghost predicate Collecting(s: Engine, i: int, tid: u32, source: FileBytes, have: set<nat>) {
    Leads(s, i, tid, |source|) && Assembled(AssemblyOf(s, i), Chosen(source, have))
  }

  lemma UntouchedCollects(s: Engine, e: Event, i: int, tid: u32, source: FileBytes, have: set<nat>)
    requires TableOk(s) && Collecting(s, i, tid, source, have)
    requires Untouched(s, Step(s, e), i) && !Announces(e, tid)
    ensures Collecting(Step(s, e), i, tid, source, have)
  {
    StepSameTasks(s, e);
    var s' := Step(s, e);
    assert AssemblyOf(s', i) == AssemblyOf(s, i);
    assert forall j :: 0 <= j < i ==> !(s'.recv[j].busy && s'.recv[j].tid == tid);
  }

  lemma HarmlessFrame(s: Engine, e: Event, i: int, tid: u32)
    requires TableOk(s) && SlotIndex(s, i) && s.recv[i].open && Find(s.recv, tid) == i
    requires e.FrameIn? && Harmless(e, tid)
    ensures Untouched(s, Step(s, e), i)
  {
  }

  lemma HarmlessCommand(s: Engine, e: Event, i: int, tid: u32)
    requires TableOk(s) && SlotIndex(s, i) && s.recv[i].open && Find(s.recv, tid) == i
    requires (e.RejectCommand? || e.CancelCommand?) && Harmless(e, tid)
    ensures Untouched(s, Step(s, e), i)
  {
  }

  lemma HarmlessAnnouncement(s: Engine, e: Event, i: int, tid: u32)
    requires TableOk(s) && SlotIndex(s, i) && s.recv[i].open && Find(s.recv, tid) == i
    requires e.AnnouncementIn? && Harmless(e, tid)
    ensures Untouched(s, Step(s, e), i)
  {
  }

  lemma HarmlessUntouched(s: Engine, e: Event, i: int, tid: u32)
    requires TableOk(s) && SlotIndex(s, i) && s.recv[i].open && Find(s.recv, tid) == i
    requires Harmless(e, tid)
    ensures Untouched(s, Step(s, e), i)
  {
    match e
    case SendFileCommand(_, _, _, _) =>
    case AcceptCommand(_, _) => AcceptFate(s, e, i);
    case RejectCommand(_, _) => HarmlessCommand(s, e, i, tid);
    case CancelCommand(_, _) => HarmlessCommand(s, e, i, tid);
    case AnnouncementIn(_, _, _) => HarmlessAnnouncement(s, e, i, tid);
    case FrameIn(_, _, _) => HarmlessFrame(s, e, i, tid);
    case ErrorIn(_) =>
    case TickTimeout(io) => TickSameReceiver(s, io);
    case Reset =>
  }

  lemma ChosenStep(source: Bytes, have: set<nat>, k: nat)
    ensures Chosen(source, have)[k := Slice(source, k)] == Chosen(source, have + {k})
  {
  }

  lemma StoreCollects(s: Engine, offset: nat, i: int, tid: u32, source: FileBytes, have: set<nat>, k: nat)
    requires Collecting(s, i, tid, source, have) && k !in have && k < Count(|source|, CHUNK) && offset == k * CHUNK
    ensures SpanOk(s.recv[i].size, s.recv[i].bits, offset, |Slice(source, k)|)
    ensures Collecting(StoreChunk(s, i, offset, Slice(source, k)), i, tid, source, have + {k})
  {
    var t, a, got := s.recv[i], AssemblyOf(s, i), Chosen(source, have);
    assert k * CHUNK / CHUNK == k;
    assert !Test(a.bits, k);
    SpanOkMeaning(t.size, t.bits, offset, |Slice(source, k)|);
    PutKeeps(a, got, offset, Slice(source, k));
    ChosenStep(source, have, k);
    StoredAssembly(s, i, offset, Slice(source, k));
    StillLeads(s, StoreChunk(s, i, offset, Slice(source, k)), i, tid, |source|);
  }

  lemma StillLeads(s: Engine, s': Engine, i: int, tid: u32, size: nat)
    requires Leads(s, i, tid, size) && |s'.recv| == |s.recv|
    requires s'.recv == s.recv[i := s.recv[i].(bits := s'.recv[i].bits, received := s'.recv[i].received)]
    ensures Leads(s', i, tid, size)
  {
  }

  lemma ChunkStores(s: Engine, e: Event, i: int, tid: u32, size: nat, c: ChunkIn)
    requires Leads(s, i, tid, size) && ChunkFor(e, tid) && e.write.Written? && c == ReadChunk(e.frame.payload)
    requires SpanOk(s.recv[i].size, s.recv[i].bits, c.offset, |c.data|)
    ensures Step(s, e) == StoreChunk(s, i, c.offset, c.data)
  {
  }

  /** A chunk not received before is accepted. */
  lemma ChunkCollects(s: Engine, e: Event, i: int, tid: u32, source: FileBytes, have: set<nat>, k: nat)
    requires Collecting(s, i, tid, source, have) && GoodChunk(e, tid, source)
    requires k == ReadChunk(e.frame.payload).offset / CHUNK && k !in have
    ensures Collecting(Step(s, e), i, tid, source, have + {k})
  {
    var c := ReadChunk(e.frame.payload);
    GenuineChunk(e, tid, source);
    assert c.offset == k * CHUNK && c.data == Slice(source, k);
    StoreCollects(s, c.offset, i, tid, source, have, k);
    ChunkStores(s, e, i, tid, |source|, c);
  }

  /** The chunk indices among the events, in order of arrival. */
  function Indices(es: seq<Event>, tid: u32): seq<nat> {
    if es == [] then []
    else
      var e := es[|es| - 1];
      Indices(es[..|es| - 1], tid) + if ChunkFor(e, tid) then [ReadChunk(e.frame.payload).offset / CHUNK] else []
  }

  predicate Distinct(ks: seq<nat>) {
    forall a, b :: 0 <= a < b < |ks| ==> ks[a] != ks[b]
  }

  predicate ChunksOrHarmless(es: seq<Event>, tid: u32, source: FileBytes) {
    forall k :: 0 <= k < |es| ==> Harmless(es[k], tid) || GoodChunk(es[k], tid, source)
  }

  function Elements(ks: seq<nat>): set<nat> {
    set k | k in ks
  }

  lemma {:induction false} Collects(s: Engine, es: seq<Event>, i: int, tid: u32, source: FileBytes, pre: Disk)
    requires Inv(s, pre) && Collecting(s, i, tid, source, {})
    requires ChunksOrHarmless(es, tid, source) && Distinct(Indices(es, tid))
    ensures Inv(Run(s, es), pre) && Collecting(Run(s, es), i, tid, source, Elements(Indices(es, tid)))
    ensures Run(s, es).saved == s.saved && Run(s, es).recv[i].saveName == s.recv[i].saveName
    decreases |es|
  {
    if es == [] {
      assert Elements([]) == {};
    } else {
      var before, e := es[..|es| - 1], es[|es| - 1];
      var ks := Indices(before, tid);
      assert Distinct(ks) by {
        var all := Indices(es, tid);
        assert forall a :: 0 <= a < |ks| ==> ks[a] == all[a];
      }
      Collects(s, before, i, tid, source, pre);
      var s1 := Run(s, before);
      StepKeeps(s1, e, pre);
      if ChunkFor(e, tid) {
        CollectChunk(s1, e, i, tid, source, ks, ReadChunk(e.frame.payload).offset / CHUNK);
      } else {
        HarmlessUntouched(s1, e, i, tid);
        UntouchedCollects(s1, e, i, tid, source, Elements(ks));
        assert ks + [] == ks;
      }
    }
  }

  lemma NewElement(ks: seq<nat>, k: nat)
    requires Distinct(ks + [k])
    ensures k !in Elements(ks) && Elements(ks + [k]) == Elements(ks) + {k}
  {
    var all := ks + [k];
    forall a | 0 <= a < |ks| ensures ks[a] != k {
      assert all[a] != all[|ks|];
    }
  }

  lemma CollectChunk(s: Engine, e: Event, i: int, tid: u32, source: FileBytes, ks: seq<nat>, k: nat)
    requires TableOk(s) && Collecting(s, i, tid, source, Elements(ks)) && GoodChunk(e, tid, source)
    requires k == ReadChunk(e.frame.payload).offset / CHUNK && Distinct(ks + [k])
    ensures var s' := Step(s, e);
            && Collecting(s', i, tid, source, Elements(ks + [k]))
            && s'.saved == s.saved && s'.recv[i].saveName == s.recv[i].saveName
  {
    NewElement(ks, k);
    ChunkCollects(s, e, i, tid, source, Elements(ks), k);
    StepFate(s, e, i);
  }

  /** The completion signal, as a frame or as an announcement. */
  predicate CompletionSignal(s: Engine, e: Event, tid: u32) {
    || (e.AnnouncementIn? && e.kind == Completed && e.tid == tid
        && !(SendMatches(s, tid) && s.send.state == WaitComplete))
    || (e.FrameIn? && |e.frame.payload| == 4 && e.frame.msgType == MSG_FILE_COMPLETE && ReadU32(e.frame.payload) == tid)
  }

  lemma AllChunksFull(a: Assembly, source: FileBytes, have: set<nat>)
    requires Assembled(a, Chosen(source, have)) && a.size == |source|
    requires forall k: nat :: k < Count(|source|, CHUNK) ==> k in have
    ensures a.received == a.size && a.content == source
  {
    var got := Chosen(source, have);
    assert Full(a.size, got);
    ReceivedCounts(a, got);
    FullIsSource(a, got, source);
  }

  lemma SignalCompletes(s: Engine, done: Event, i: int, tid: u32, size: nat)
    requires Leads(s, i, tid, size) && CompletionSignal(s, done, tid)
    ensures Step(s, done) == FinishSlot(s, i)
  {
  }

  /** Liveness of delivery: chunks 0 .. n-1 once each in any order, harmless events in between, then the completion
      signal: the file is kept, and it is the source. */
  lemma DeliveryComplete(s: Engine, es: seq<Event>, done: Event, i: int, tid: u32, source: FileBytes, pre: Disk)
    requires Inv(s, pre) && SlotIndex(s, i) && Collecting(s, i, tid, source, {})
    requires ChunksOrHarmless(es, tid, source) && Distinct(Indices(es, tid))
    requires forall k: nat :: k < Count(|source|, CHUNK) ==> k in Indices(es, tid)
    requires CompletionSignal(Run(s, es), done, tid)
    ensures var name, s' := s.recv[i].saveName, Step(Run(s, es), done);
            && s'.saved == s.saved + [Saved(tid, name, source)]
            && name in s'.disk && s'.disk[name] == source
  {
    Collects(s, es, i, tid, source, pre);
    var s1 := Run(s, es);
    AllChunksFull(AssemblyOf(s1, i), source, Elements(Indices(es, tid)));
    OpenName(s1, i);
    SignalCompletes(s1, done, i, tid, |source|);
  }

  /** /accept starts such a receive, provided the id is not in use twice. */
  lemma AcceptCollects(s: Engine, io: AcceptIo, tid: u32, source: FileBytes, pre: Disk)
    requires Inv(s, pre) && Find(s.recv, tid) >= 0 && s.recv[Find(s.recv, tid)].size == |source|
    requires SlotOpened(s, AcceptCmd(s, tid, io).s, Find(s.recv, tid))
    requires forall j :: SlotIndex(s, j) && s.recv[j].busy && s.recv[j].tid == tid ==> j == Find(s.recv, tid)
    ensures var s' := AcceptCmd(s, tid, io).s;
            Collecting(s', Find(s.recv, tid), tid, source, {}) && Tracks(s', tid, source)
  {
    var i, s' := Find(s.recv, tid), AcceptCmd(s, tid, io).s;
    FreshAssembled(|source|);
    assert AssemblyOf(s', i) == Fresh(|source|);
    assert Chosen(source, {}) == map[];
    assert forall j :: 0 <= j < |s.recv| && j != i ==> s'.recv[j] == s.recv[j];
  }
}
