/** Stream reassembly: the read buffer of src/app.c and its parse, dispatch and memmove cycle. */
module Stream {
  import opened Bytes
  import opened Protocol

  const RBUF_INIT := 0x1_0000
  const RBUF_MAX := 0x4_0000

  /** The longest unfinished frame. */
  const MAX_REST := MAX_FRAME - 1

  // ---- one-shot decoding, the reference ----

  /** All complete frames of a stream, the undecoded remainder, and whether no protocol error was met. */
  datatype Decoded = Decoded(frames: seq<Frame>, rest: Bytes, ok: bool)

  function Decode(d: Bytes): Decoded
    decreases |d|
  {
    match Parse(d)
    case NeedMore => Decoded([], d, true)
    case Bad => Decoded([], d, false)
    case Got(f, n) =>
      ParseInverse(d);
      var tail := Decode(d[n..]);
      Decoded([f] + tail.frames, tail.rest, tail.ok)
  }

  /** Goes on decoding when more bytes follow; after an error nothing more comes out. */
  function Resume(x: Decoded, more: Bytes): Decoded {
    if !x.ok then x.(rest := x.rest + more)
    else
      var z := Decode(x.rest + more);
      Decoded(x.frames + z.frames, z.rest, z.ok)
  }

  /** Decoding may stop anywhere and resume on the remainder. */
  lemma {:induction false} DecodeConcat(a: Bytes, b: Bytes)
    ensures Decode(a + b) == Resume(Decode(a), b)
    decreases |a|
  {
    match Parse(a)
    case NeedMore =>
      assert Decode(a) == Decoded([], a, true);
    case Bad =>
      ParseStable(a, b);
    case Got(f, n) =>
      ParseInverse(a);
      ParseStable(a, b);
      var tail := a[n..];
      assert (a + b)[n..] == tail + b;
      DecodeConcat(tail, b);
      DecodeStep(a);
      DecodeStep(a + b);
      ResumeStep(f, Decode(tail), b);
  }

  function Prepend(fs: seq<Frame>, x: Decoded): Decoded {
    x.(frames := fs + x.frames)
  }

  lemma DecodeStep(d: Bytes)
    requires Parse(d).Got?
    ensures Parse(d).consumed <= |d|
    ensures Decode(d) == Prepend([Parse(d).frame], Decode(d[Parse(d).consumed..]))
  {
  }

  lemma ResumeStep(f: Frame, x: Decoded, more: Bytes)
    ensures Resume(Prepend([f], x), more) == Prepend([f], Resume(x, more))
  {
  }

  /** An error-free decoding leaves less than one frame. */
  lemma {:induction false} RestBound(d: Bytes)
    ensures Decode(d).ok ==> |Decode(d).rest| <= MAX_REST && |Decode(d).rest| <= |d|
    decreases |d|
  {
    if Parse(d).Got? {
      ParseInverse(d);
      RestBound(d[Parse(d).consumed..]);
    }
  }

  function EncodeAll(fs: seq<Frame>): Bytes
    requires forall f :: f in fs ==> Fits(f)
  {
    if fs == [] then [] else Encode(fs[0]) + EncodeAll(fs[1..])
  }

  /** Sending any frames back to back and decoding the stream gives them back. */
  lemma {:induction false} DecodeEncoded(fs: seq<Frame>)
    requires forall f :: f in fs ==> Fits(f)
    ensures Decode(EncodeAll(fs)) == Decoded(fs, [], true)
  {
    if fs != [] {
      var d := EncodeAll(fs);
      ParseEncoded(fs[0], EncodeAll(fs[1..]));
      assert d[|Encode(fs[0])|..] == EncodeAll(fs[1..]);
      DecodeEncoded(fs[1..]);
    }
  }

  lemma {:induction false} EncodeAllAppend(fs: seq<Frame>, f: Frame)
    requires Fits(f) && forall x :: x in fs ==> Fits(x)
    ensures EncodeAll(fs + [f]) == EncodeAll(fs) + Encode(f)
  {
    if fs == [] {
      assert fs + [f] == [f];
      assert Encode(f) + EncodeAll([]) == Encode(f);
    } else {
      assert (fs + [f])[1..] == fs[1..] + [f];
      EncodeAllAppend(fs[1..], f);
    }
  }

  /** The dispatch loop has handed over done, and these frames took exactly the first off bytes. */
  predicate Consumed(all: Bytes, off: nat, done: seq<Frame>) {
    off <= |all| && (forall f :: f in done ==> Fits(f)) && all[..off] == EncodeAll(done)
  }

  lemma ConsumedStep(all: Bytes, off: nat, done: seq<Frame>)
    requires Consumed(all, off, done) && Parse(all[off..]).Got?
    ensures var p := Parse(all[off..]);
            HEADER_SIZE <= p.consumed && Consumed(all, off + p.consumed, done + [p.frame])
  {
    var p := Parse(all[off..]);
    ParseInverse(all[off..]);
    EncodeAllAppend(done, p.frame);
    assert all[..off + p.consumed] == all[..off] + all[off..][..p.consumed];
  }

  lemma ConsumedAll(all: Bytes, off: nat, done: seq<Frame>)
    requires Consumed(all, off, done) && !Parse(all[off..]).Got?
    ensures Decode(all) == Decoded(done, all[off..], Parse(all[off..]) == NeedMore)
  {
    DecodeEncoded(done);
    DecodeConcat(all[..off], all[off..]);
    assert all == all[..off] + all[off..];
    assert [] + all[off..] == all[off..];
    assert done + [] == done;
  }

  // ---- the main loop on values ----

  /** What the loop remembers: undecoded bytes, the frames handed to app_handle_frame, the running flag. */
  datatype Reader = Reader(pending: Bytes, handled: seq<Frame>, running: bool)

  /** One round of recv and dispatch; a stopped loop receives nothing more. */
  function Receive(r: Reader, segment: Bytes): Reader {
    if !r.running then r
    else
      var d := Decode(r.pending + segment);
      Reader(if d.ok then d.rest else r.pending + segment, r.handled + d.frames, d.ok)
  }

  function ReceiveAll(r: Reader, segments: seq<Bytes>): Reader
    decreases |segments|
  {
    if segments == [] then r else ReceiveAll(Receive(r, segments[0]), segments[1..])
  }

  function Concat(segments: seq<Bytes>): Bytes {
    if segments == [] then [] else segments[0] + Concat(segments[1..])
  }

  /** Between rounds the buffer holds no complete frame. */
  predicate Settled(r: Reader) {
    r.running ==> Decode(r.pending) == Decoded([], r.pending, true)
  }

  lemma {:induction false} DecodeRestSettled(d: Bytes)
    requires Decode(d).ok
    ensures Decode(Decode(d).rest) == Decoded([], Decode(d).rest, true)
    decreases |d|
  {
    if Parse(d).Got? {
      ParseInverse(d);
      DecodeRestSettled(d[Parse(d).consumed..]);
    }
  }

  /** end is what becomes of r when the decoding d of its pending bytes and all later ones is handed over. */
  predicate Delivers(r: Reader, d: Decoded, end: Reader) {
    && end.handled == r.handled + d.frames
    && end.running == d.ok
    && (d.ok ==> end.pending == d.rest)
  }

  lemma DeliversInTwo(r: Reader, x: Decoded, later: Bytes, end: Reader)
    requires x.ok
    requires Delivers(Reader(x.rest, r.handled + x.frames, true), Decode(x.rest + later), end)
    ensures Delivers(r, Resume(x, later), end)
  {
  }

  lemma {:induction false} ReceiveAllIsDecode(r: Reader, segments: seq<Bytes>)
    requires r.running && Settled(r)
    ensures Delivers(r, Decode(r.pending + Concat(segments)), ReceiveAll(r, segments))
    decreases |segments|
  {
    if segments == [] {
      assert r.pending + Concat(segments) == r.pending;
    } else {
      var here := r.pending + segments[0];
      var later := Concat(segments[1..]);
      assert r.pending + Concat(segments) == here + later;
      DecodeConcat(here, later);
      var x := Decode(here);
      var next := Receive(r, segments[0]);
      if x.ok {
        DecodeRestSettled(here);
        ReceiveAllIsDecode(next, segments[1..]);
        DeliversInTwo(r, x, later, ReceiveAll(next, segments[1..]));
      } else {
        StoppedReceivesNothing(next, segments[1..]);
      }
    }
  }

  lemma {:induction false} StoppedReceivesNothing(r: Reader, segments: seq<Bytes>)
    requires !r.running
    ensures ReceiveAll(r, segments) == r
    decreases |segments|
  {
    if segments != [] {
      StoppedReceivesNothing(r, segments[1..]);
    }
  }

  const FRESH := Reader([], [], true)

  /** Fragmentation independence: however TCP splits a stream, the loop hands over exactly the frames of
      one-shot decoding, each once and in order, and stops exactly when that meets a protocol error. */
  lemma FragmentationIndependence(segments: seq<Bytes>)
    ensures Delivers(FRESH, Decode(Concat(segments)), ReceiveAll(FRESH, segments))
  {
    assert Decode([]) == Decoded([], [], true);
    ReceiveAllIsDecode(FRESH, segments);
    assert [] + Concat(segments) == Concat(segments);
  }

  /** Delivery: a peer that sends frames gets exactly these frames handled, under every split. */
  lemma FramesArriveIntact(fs: seq<Frame>, segments: seq<Bytes>)
    requires forall f :: f in fs ==> Fits(f)
    requires Concat(segments) == EncodeAll(fs)
    ensures ReceiveAll(FRESH, segments) == Reader([], fs, true)
  {
    FragmentationIndependence(segments);
    DecodeEncoded(fs);
  }

  // ---- the buffer itself ----

  /** What recv did: end of stream, a signal, a failure, or some bytes. */
  datatype RecvOutcome = Eof | Interrupted | Failed | Data(bytes: Bytes)

  /** app_t without its connection. */
  class App {
    var rbuf: array<byte>
    var rbufLen: nat
    var running: bool
    /** The frames passed to app_handle_frame so far. */
    var handled: seq<Frame>

    ghost predicate Valid()
      reads this, rbuf
    {
      && rbufLen <= rbuf.Length
      && rbuf.Length in {RBUF_INIT, 2 * RBUF_INIT, RBUF_MAX}
    }

    ghost function View(): Reader
      requires Valid()
      reads this, rbuf
    {
      Reader(rbuf[..rbufLen], handled, running)
    }

    /** The main loop's own invariant, in force once a dispatch has ended without an error. */
    ghost predicate InLoop()
      reads this, rbuf
    {
      Valid() && running && rbufLen <= MAX_REST && Settled(View())
    }

    constructor ()
      ensures Valid() && InLoop() && View() == FRESH && rbuf.Length == RBUF_INIT && fresh(rbuf)
    {
      rbuf := new byte[RBUF_INIT];
      rbufLen := 0;
      running := true;
      handled := [];
      new;
      assert rbuf[..0] == [];
      assert Parse([]) == NeedMore;
    }

    /** app_ensure_capacity; grown says whether a realloc succeeded. */
    method EnsureCapacity(grown: bool) returns (ok: bool)
      requires Valid()
      modifies this`rbuf, this`running
      ensures Valid() && handled == old(handled) && rbufLen == old(rbufLen)
      ensures rbuf[..rbufLen] == old(rbuf[..rbufLen])
      ensures rbuf == old(rbuf) || fresh(rbuf)
      ensures ok ==> running == old(running) && rbufLen < rbuf.Length
      ensures !ok ==> !running && rbuf == old(rbuf)
      ensures ok <==> old(rbufLen < rbuf.Length) || (old(rbuf.Length) < RBUF_MAX && grown)
      ensures rbuf.Length == if old(rbufLen < rbuf.Length) || !ok then old(rbuf.Length) else 2 * old(rbuf.Length)
    {
      if rbufLen < rbuf.Length {
        return true;
      }
      var newCap := rbuf.Length * 2;
      if newCap > RBUF_MAX || !grown {
        running := false;
        return false;
      }
      var nb := new byte[newCap];
      forall i | 0 <= i < rbufLen {
        nb[i] := rbuf[i];
      }
      rbuf := nb;
      return true;
    }

    /** The loop of app_dispatch over the valid bytes: hand over every complete frame; off is where the rest begins. */
    method HandOver(all: Bytes) returns (off: nat)
      requires running
      modifies this`running, this`handled
      ensures var d := Decode(all);
              && handled == old(handled) + d.frames
              && running == d.ok
              && (d.ok ==> off <= |all| && all[off..] == d.rest)
    {
      ghost var done: seq<Frame> := [];
      off := 0;
      assert all[..0] == EncodeAll([]);
      while off < |all|
        invariant running && handled == old(handled) + done
        invariant Consumed(all, off, done)
      {
        var p := Parse(all[off..]);
        if !p.Got? {
          ConsumedAll(all, off, done);
          running := p.NeedMore?;
          return;
        }
        ConsumedStep(all, off, done);
        handled := handled + [p.frame];
        done := done + [p.frame];
        off := off + p.consumed;
      }
      ConsumedAll(all, off, done);
    }

    /** app_dispatch. */
    method Dispatch()
      requires Valid() && running
      modifies this`rbufLen, this`running, this`handled, rbuf
      ensures Valid()
      ensures var d := Decode(old(rbuf[..rbufLen]));
              View() == Reader(if d.ok then d.rest else old(rbuf[..rbufLen]), old(handled) + d.frames, d.ok)
      ensures running ==> InLoop()
    {
      var off := HandOver(rbuf[..rbufLen]);
      if !running {
        return;
      }
      RestBound(rbuf[..rbufLen]);
      DecodeRestSettled(rbuf[..rbufLen]);
      Compact(off);
    }

    /** memmove: the bytes from off on become the whole buffer. */
    method Compact(off: nat)
      requires off <= rbufLen <= rbuf.Length
      modifies this`rbufLen, rbuf
      ensures rbufLen == old(rbufLen) - off
      ensures rbuf[..rbufLen] == old(rbuf[off..rbufLen])
    {
      var kept := rbufLen - off;
      forall i | 0 <= i < kept {
        rbuf[i] := rbuf[off + i];
      }
      rbufLen := kept;
    }

    /** app_handle_socket; recv is given the free room of the buffer and never returns more. */
    method HandleSocket(grown: bool, outcome: RecvOutcome) returns (ok: bool)
      requires InLoop()
      requires outcome.Data? ==> 0 < |outcome.bytes| <= Room()
      modifies this, rbuf
      ensures Valid()
      ensures rbuf == old(rbuf) || fresh(rbuf)
      ensures running ==> InLoop()
      ensures old(rbufLen < rbuf.Length) || grown ==>
                match outcome
                case Data(bytes) => ok && View() == Receive(old(View()), bytes)
                case Interrupted => ok && View() == old(View())
                case _ => !ok && View() == old(View()).(running := false)
      ensures !(old(rbufLen < rbuf.Length) || grown) ==> !ok && View() == old(View()).(running := false)
      ensures rbuf.Length <= 2 * RBUF_INIT || rbuf.Length == old(rbuf.Length)
    {
      ok := EnsureCapacity(grown);
      if !ok {
        return false;
      }
      match outcome
      case Eof =>
        running := false;
        return false;
      case Interrupted =>
        return true;
      case Failed =>
        running := false;
        return false;
      case Data(bytes) =>
        Store(rbuf, rbufLen, bytes);
        rbufLen := rbufLen + |bytes|;
        assert rbuf[..rbufLen] == old(rbuf[..rbufLen]) + bytes;
        Dispatch();
        return true;
    }

    /** The room recv is offered, after app_ensure_capacity has had its turn. */
    ghost function Room(): (n: nat)
      requires InLoop()
      reads this, rbuf
      ensures n >= 1
    {
      if rbufLen < rbuf.Length then rbuf.Length - rbufLen else rbuf.Length
    }
  }
}
