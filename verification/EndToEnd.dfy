/** Sender run, adversarial relay, receiver run: the pieces of SenderTrace and Delivery put together. */
module EndToEnd {
  import opened Bytes
  import opened Chunks
  import opened Naming
  import opened Transfer
  import opened ReceiveTable
  import opened Delivery
  import opened Completion
  import opened SenderTrace
  import opened SenderTiming
  import opened SenderProgress
  import opened InitFrame
  import opened InitQueue

  /** All task words of a run, the one in progress included. */
  lemma AllWords(pre: Disk, es: seq<Event>) returns (words: seq<Word>)
    ensures WordsOk(words) && Said(pre, es) == Flatten(words)
  {
    words := SenderLanguage(pre, es);
    var t := Run(Start(pre), es).send;
    if t.busy {
      FlattenStep(words, CurrentWord(t));
      CountMonotone(t.sent, t.size);
      words := words + [CurrentWord(t)];
    }
  }

  lemma {:induction false} ChunkOfWord(w: Word, n: nat, m: Msg)
    requires m in ChunkMsgs(w.tid, w.source, n)
    ensures exists k: nat :: k < n && m == ChunkMsg(w.tid, w.source, k)
  {
    if m == ChunkMsg(w.tid, w.source, n - 1) {
    } else {
      ChunkOfWord(w, n - 1, m);
    }
  }

  /** A chunk among the sender's frames is a planned chunk of the file of one of its tasks. */
  lemma {:induction false} ChunkOfWords(words: seq<Word>, m: Msg) returns (w: Word, k: nat)
    requires WordsOk(words) && m in Flatten(words) && m.Chunk?
    ensures w in words && k < w.chunks <= Count(|w.source|, CHUNK) && m == ChunkMsg(w.tid, w.source, k)
  {
    var last := words[|words| - 1];
    if m in WordMsgs(last) {
      w := last;
      ChunkOfWord(w, w.chunks, m);
      k :| k < w.chunks && m == ChunkMsg(w.tid, w.source, k);
    } else {
      w, k := ChunkOfWords(words[..|words| - 1], m);
    }
  }

  /** The relay may hold back, reorder and repeat the sender's chunks, but not invent any for this id. */
  predicate Relayed(e: Event, tid: u32, sent: seq<Msg>) {
    ChunkFor(e, tid) ==> exists m :: m in sent && m.Chunk? && m.tid == tid && e.frame == FrameOfMsg(m)
  }

  /** The sender used the id for one file only. */
  predicate OneFile(words: seq<Word>, tid: u32, source: FileBytes) {
    forall w :: w in words && w.tid == tid && w.chunks > 0 ==> w.source == source
  }

  lemma RelayedIsGenuine(e: Event, tid: u32, words: seq<Word>, source: FileBytes)
    requires WordsOk(words) && OneFile(words, tid, source)
    requires Relayed(e, tid, Flatten(words)) && !Announces(e, tid)
    ensures Genuine(e, tid, source)
  {
    if ChunkFor(e, tid) {
      var m :| m in Flatten(words) && m.Chunk? && m.tid == tid && e.frame == FrameOfMsg(m);
      var w, k := ChunkOfWords(words, m);
      assert e.frame == ChunkFrame(tid, source, k);
    }
  }

  /** The client accepts the transfer with this id and size, and no other task of it has the id. */
  predicate Accepted(b: Engine, tid: u32, size: nat, io: AcceptIo) {
    var i := Find(b.recv, tid);
    && i >= 0 && b.recv[i].size == size && SlotOpened(b, AcceptCmd(b, tid, io).s, i)
    && forall j :: 0 <= j < |b.recv| && b.recv[j].busy && b.recv[j].tid == tid ==> j == i
  }

  /** End to end: A is any run of a sending client that used the id for one file; B is a client that accepts a
      transfer of that id and size, in any reachable state; after that anything may happen to B, as long as its chunks
      for this id come from A, reordered, lost or repeated, and the id is not announced again. Then whatever file B
      completes under this id is A's file, byte for byte, and it is there in downloads/ under a name that was free at
      the start. */
  lemma EndToEndDelivery(preA: Disk, esA: seq<Event>, words: seq<Word>, source: FileBytes, tid: u32,
                         preB: Disk, esB: seq<Event>, io: AcceptIo, es: seq<Event>)
    requires WordsOk(words) && Said(preA, esA) == Flatten(words) && OneFile(words, tid, source)
    requires Accepted(Run(Start(preB), esB), tid, |source|, io)
    requires forall k :: 0 <= k < |es| ==> Relayed(es[k], tid, Said(preA, esA)) && !Announces(es[k], tid)
    ensures var b := AcceptCmd(Run(Start(preB), esB), tid, io).s;
            var end := Run(b, es);
            forall k :: |b.saved| <= k < |end.saved| && end.saved[k].tid == tid ==>
              end.saved[k].content == source && KeptOnDisk(end, end.saved[k], preB)
  {
    var b0 := Run(Start(preB), esB);
    var b := AcceptCmd(b0, tid, io).s;
    RunSafe(preB, esB);
    AcceptKeeps(b0, tid, io, preB);
    AcceptCollects(b0, io, tid, source, preB);
    forall k | 0 <= k < |es| ensures Genuine(es[k], tid, source) {
      RelayedIsGenuine(es[k], tid, words, source);
    }
    DeliverySafe(b, es, tid, source, preB);
    var end := Run(b, es);
    forall k | 0 <= k < |end.saved| ensures KeptOnDisk(end, end.saved[k], preB) {
      SavedFilesLookup(end.saved, preB, k);
      assert end.saved[k].name in Settled(end, preB);
    }
  }

  // ---- and it arrives ----

  lemma {:induction false} ChunkInWord(tid: u32, source: FileBytes, n: nat, k: nat)
    requires k < n
    ensures ChunkMsg(tid, source, k) in ChunkMsgs(tid, source, n)
    decreases n
  {
    var m, last := ChunkMsg(tid, source, k), ChunkMsg(tid, source, n - 1);
    if k < n - 1 {
      ChunkInWord(tid, source, n - 1, k);
    } else {
      assert m == last;
    }
  }

  /** The chunks a task has sent are among the sender's frames. */
  lemma {:induction false} ChunkInWords(words: seq<Word>, w: Word, k: nat)
    requires w in words && k < w.chunks
    ensures ChunkMsg(w.tid, w.source, k) in Flatten(words)
  {
    if w == words[|words| - 1] {
      ChunkInWord(w.tid, w.source, w.chunks, k);
      assert ChunkMsg(w.tid, w.source, k) in WordMsgs(w);
    } else {
      ChunkInWords(words[..|words| - 1], w, k);
    }
  }

  predicate Arrives(es: seq<Event>, m: Msg) {
    exists j :: 0 <= j < |es| && es[j].FrameIn? && es[j].frame == FrameOfMsg(m)
  }

  /** The relay passes on every chunk the sender sent under this id, each once, in any order; their writes succeed, and
      nothing that happens in between ends the receive. */
  predicate PassedOnce(es: seq<Event>, tid: u32, sent: seq<Msg>) {
    && (forall j :: 0 <= j < |es| ==>
          if ChunkFor(es[j], tid) then es[j].write.Written? && Relayed(es[j], tid, sent) else Harmless(es[j], tid))
    && Distinct(Indices(es, tid))
    && forall m :: m in sent && m.Chunk? && m.tid == tid ==> Arrives(es, m)
  }

  lemma {:induction false} IndexOfEvent(es: seq<Event>, tid: u32, j: nat)
    requires j < |es| && ChunkFor(es[j], tid)
    ensures ReadChunk(es[j].frame.payload).offset / CHUNK in Indices(es, tid)
    decreases |es|
  {
    if j < |es| - 1 {
      IndexOfEvent(es[..|es| - 1], tid, j);
    }
  }

  lemma ChunkArrives(es: seq<Event>, tid: u32, source: FileBytes, k: nat)
    requires k < Count(|source|, CHUNK) && Arrives(es, ChunkMsg(tid, source, k))
    ensures k in Indices(es, tid)
  {
    var j :| 0 <= j < |es| && es[j].FrameIn? && es[j].frame == FrameOfMsg(ChunkMsg(tid, source, k));
    assert es[j].frame == ChunkFrame(tid, source, k);
    PlannedChunkRoundTrip(tid, source, k);
    assert k * CHUNK / CHUNK == k;
    IndexOfEvent(es, tid, j);
  }

  lemma PassedGenuine(e: Event, tid: u32, words: seq<Word>, source: FileBytes)
    requires WordsOk(words) && OneFile(words, tid, source)
    requires if ChunkFor(e, tid) then e.write.Written? && Relayed(e, tid, Flatten(words)) else Harmless(e, tid)
    ensures Harmless(e, tid) || GoodChunk(e, tid, source)
  {
    if ChunkFor(e, tid) {
      RelayedIsGenuine(e, tid, words, source);
    }
  }

  /** What the sender has completed and the relay passes on once comes down to the events of DeliveryComplete. */
  lemma PassedOnceCollects(es: seq<Event>, words: seq<Word>, w: Word)
    requires WordsOk(words) && OneFile(words, w.tid, w.source) && w in words && w.done
    requires PassedOnce(es, w.tid, Flatten(words))
    ensures ChunksOrHarmless(es, w.tid, w.source) && Distinct(Indices(es, w.tid))
    ensures forall k: nat :: k < Count(|w.source|, CHUNK) ==> k in Indices(es, w.tid)
  {
    forall j | 0 <= j < |es| ensures Harmless(es[j], w.tid) || GoodChunk(es[j], w.tid, w.source) {
      PassedGenuine(es[j], w.tid, words, w.source);
    }
    forall k: nat | k < Count(|w.source|, CHUNK) ensures k in Indices(es, w.tid) {
      ChunkInWords(words, w, k);
      ChunkArrives(es, w.tid, w.source, k);
    }
  }

  /** The other half: the sender's task got as far as COMPLETE, B accepts, the relay passes every chunk once, and the
      completion signal comes. Then B keeps the sender's file. */
  lemma EndToEndComplete(preA: Disk, esA: seq<Event>, words: seq<Word>, w: Word,
                         preB: Disk, esB: seq<Event>, io: AcceptIo, es: seq<Event>, done: Event)
    requires WordsOk(words) && Said(preA, esA) == Flatten(words)
    requires OneFile(words, w.tid, w.source) && w in words && w.done
    requires Accepted(Run(Start(preB), esB), w.tid, |w.source|, io)
    requires PassedOnce(es, w.tid, Said(preA, esA))
    requires CompletionSignal(Run(AcceptCmd(Run(Start(preB), esB), w.tid, io).s, es), done, w.tid)
    ensures var b := AcceptCmd(Run(Start(preB), esB), w.tid, io).s;
            var name, end := b.recv[Find(b.recv, w.tid)].saveName, Step(Run(b, es), done);
            && end.saved == b.saved + [Saved(w.tid, name, w.source)]
            && KeptOnDisk(end, Saved(w.tid, name, w.source), preB)
  {
    var b0 := Run(Start(preB), esB);
    var i, b := Find(b0.recv, w.tid), AcceptCmd(b0, w.tid, io).s;
    RunSafe(preB, esB);
    AcceptKeeps(b0, w.tid, io, preB);
    AcceptCollects(b0, io, w.tid, w.source, preB);
    PassedOnceCollects(es, words, w);
    DeliveryComplete(b, es, done, i, w.tid, w.source, preB);
    NewName(b, i, preB);
  }

  lemma NewName(s: Engine, i: int, pre: Disk)
    requires Inv(s, pre) && SlotIndex(s, i) && s.recv[i].open
    ensures s.recv[i].saveName !in pre
  {
    OpenName(s, i);
    assert s.recv[i].saveName !in Settled(s, pre);
  }

  // ---- from /sendfile to the kept file ----

  /** Every offer of this id has these details. */
  predicate Offered(ts: seq<Offer>, tid: u32, fields: InitFields) {
    forall x :: 0 <= x < |ts| && ts[x].tid == tid ==> ts[x].fields == fields
  }

  /** With INITs in order and ids announced once, accepting an id accepts the size that was sent with it. */
  lemma AcceptedAsOffered(pre: Disk, es: seq<Event>, ts: seq<Offer>, tid: u32, fields: InitFields, io: AcceptIo)
    requires Orderly(pre, es, ts) && NoRepeats(Announced(es)) && Offered(ts, tid, fields)
    requires var b := Run(Start(pre), es);
             Find(b.recv, tid) >= 0 && SlotOpened(b, AcceptCmd(b, tid, io).s, Find(b.recv, tid))
    ensures Accepted(Run(Start(pre), es), tid, fields.size, io)
    ensures var b := Run(Start(pre), es);
            b.recv[Find(b.recv, tid)].filename == fields.filename
  {
    var b := Run(Start(pre), es);
    var i := Find(b.recv, tid);
    RunSafe(pre, es);
    AcceptMeaning(b, tid, io);
    EveryTaskItsOwnInit(pre, es, ts);
    TableIdsDistinct(pre, es);
    assert b.recv[i].inited;
    assert OwnDetails(b.recv[i], ts[b.recv[i].order]);
  }

  /** A new task under an id none of whose chunks has been sent before. */
  lemma FreshIdOneFile(words: seq<Word>, w: Word)
    requires forall m :: m in Flatten(words) && m.Chunk? ==> m.tid != w.tid
    ensures OneFile(words + [w], w.tid, w.source)
  {
    forall v | v in words + [w] && v.tid == w.tid && v.chunks > 0 ensures v.source == w.source {
      if v in words {
        ChunkInWords(words, v, 0);
      }
    }
  }

  /** The sender's half: the transfer of FileGoesOut, given its ticks, is a completed task word behind those of
      before. */
  lemma SentWords(pre: Disk, before: seq<Event>, es: seq<Event>, w: Word) returns (words: seq<Word>)
    requires Said(pre, es) == Said(pre, before) + WordMsgs(w) && WordOk(w)
    requires forall m :: m in Said(pre, before) && m.Chunk? ==> m.tid != w.tid
    ensures WordsOk(words) && Said(pre, es) == Flatten(words) && OneFile(words, w.tid, w.source) && w in words
  {
    var earlier := AllWords(pre, before);
    words := earlier + [w];
    FlattenStep(earlier, w);
    FreshIdOneFile(earlier, w);
  }

  lemma WordComplete(x: Outgoing)
    requires GoesWell(x) && TickCount(x.sending) >= TicksFor(x.content)
    ensures WordOk(WordOf(x)) && WordOf(x).done && WordOf(x).tid == x.tid && WordOf(x).source == x.content
  {
  }

  /** The whole story. A types /sendfile in any idle, connected state; the server names the transfer by a new id; B
      consents and A gets its ticks; the server relays A's INIT in order and its chunks each once, in any order; B
      accepts; the completion signal comes. Whatever else both clients are doing, B then has A's file, byte for byte,
      in downloads/ under a name that was free. */
  lemma FileArrives(preA: Disk, before: seq<Event>, x: Outgoing, preB: Disk, esB: seq<Event>, ts: seq<Offer>,
                    sender: Bytes, io: AcceptIo, es: seq<Event>, done: Event)
    requires !Run(Start(preA), before).send.busy && Run(Start(preA), before).up
    requires GoesWell(x) && TickCount(x.sending) >= TicksFor(x.content)
    requires forall m :: m in Said(preA, before) && m.Chunk? ==> m.tid != x.tid
    requires Orderly(preB, esB, ts) && NoRepeats(Announced(esB))
    requires Offered(ts, x.tid, InitFields(sender, x.filename, |x.content|))
    requires var b := Run(Start(preB), esB);
             Find(b.recv, x.tid) >= 0 && SlotOpened(b, AcceptCmd(b, x.tid, io).s, Find(b.recv, x.tid))
    requires PassedOnce(es, x.tid, Said(preA, before + Events(x)))
    requires CompletionSignal(Run(AcceptCmd(Run(Start(preB), esB), x.tid, io).s, es), done, x.tid)
    ensures var b := AcceptCmd(Run(Start(preB), esB), x.tid, io).s;
            var name, end := b.recv[Find(b.recv, x.tid)].saveName, Step(Run(b, es), done);
            && end.saved == b.saved + [Saved(x.tid, name, x.content)]
            && SavedUnder(x.filename, Run(Start(preB), esB).disk.Keys, name)
            && KeptOnDisk(end, Saved(x.tid, name, x.content), preB)
  {
    FileGoesOut(preA, before, x);
    WordComplete(x);
    var words := SentWords(preA, before, before + Events(x), WordOf(x));
    AcceptedAsOffered(preB, esB, ts, x.tid, InitFields(sender, x.filename, |x.content|), io);
    EndToEndComplete(preA, before + Events(x), words, WordOf(x), preB, esB, io, es, done);
  }
}
