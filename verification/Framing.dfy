/** IPC framing: the 16-byte header, the gateway's non-blocking reader and writer, and the controller SDK's
    blocking reader. */
module Framing {
  import opened Bytes
  import opened Wire
  import opened Incremental
  import opened Socket

  const HEADER_LEN := 16
  const MAGIC: bytes := [0x4E, 0x54, 0x43, 0x31]
  const VERSION := 2
  const VERSION_MAX := 3
  const CTRL_MAX_RBUF := 4 * 1024 * 1024
  const SDK_MAX_PAYLOAD := 256 * 1024

  const REQUEST := 3
  const RESPONSE := 4
  const RESPONSE_BEGIN := 7
  const RESPONSE_CHUNK := 8
  const RESPONSE_END := 9
  const WS_OPEN := 10
  const WS_MSG := 11
  const WS_CLOSE := 12

  datatype Frame = Frame(version: byte, kind: byte, id: nat, payload: bytes)

  function Header(kind: byte, id: nat, len: nat): (r: bytes)
    ensures |r| == HEADER_LEN
  {
    MAGIC + [VERSION, kind, 0, 0] + U32(id) + U32(len)
  }

  function PutFrame(f: Frame): bytes { Header(f.kind, f.id, |f.payload|) + f.payload }

  predicate HeaderOk(b: bytes)
    requires |b| >= HEADER_LEN
  {
    b[..4] == MAGIC && VERSION <= b[4] <= VERSION_MAX
  }

  function PayloadLen(b: bytes): nat
    requires |b| >= HEADER_LEN
  {
    GetU32(b[12..16])
  }

  function FrameOf(b: bytes, n: nat): Frame
    requires |b| >= HEADER_LEN + n
  {
    Frame(b[4], b[5], GetU32(b[8..12]), b[HEADER_LEN..HEADER_LEN + n])
  }

  /** The gateway's reader: a frame, more bytes needed, or malformed. */
  function ReadFrame(b: bytes): Step<Frame>
  {
    if |b| < HEADER_LEN then More
    else if !HeaderOk(b) then Bad
    else if |b| < HEADER_LEN + PayloadLen(b) then More
    else Item(FrameOf(b, PayloadLen(b)), HEADER_LEN + PayloadLen(b))
  }

  /** The SDK's reader also gives up on a payload over its buffer. */
  function SdkFrame(b: bytes): Step<Frame>
  {
    if |b| >= HEADER_LEN && HeaderOk(b) && PayloadLen(b) > SDK_MAX_PAYLOAD then Bad else ReadFrame(b)
  }

  lemma {:induction false} HeaderPrefix(b: bytes, t: bytes)
    requires |b| >= HEADER_LEN
    ensures HeaderOk(b + t) == HeaderOk(b) && PayloadLen(b + t) == PayloadLen(b)
    ensures |b| >= HEADER_LEN + PayloadLen(b) ==> FrameOf(b + t, PayloadLen(b)) == FrameOf(b, PayloadLen(b))
  {
    assert (b + t)[..4] == b[..4];
    assert (b + t)[12..16] == b[12..16] && (b + t)[8..12] == b[8..12];
  }

  /** Both readers' verdicts are final. */
  lemma {:induction false} ReadersAreFinal()
    ensures Final(ReadFrame) && Final(SdkFrame)
  {
    forall b: bytes, t: bytes | |b| >= HEADER_LEN
      ensures HeaderOk(b + t) == HeaderOk(b) && PayloadLen(b + t) == PayloadLen(b)
      ensures |b| >= HEADER_LEN + PayloadLen(b) ==> FrameOf(b + t, PayloadLen(b)) == FrameOf(b, PayloadLen(b))
    {
      HeaderPrefix(b, t);
    }
  }

  /** What the gateway queues: written at version 2 with 32-bit id and length. */
  ghost predicate Sendable(f: Frame)
  {
    f.version == VERSION && f.id < 0x1_0000_0000 && |f.payload| < 0x1_0000_0000
  }

  /** The sixteen bytes of a header: "NTC1", version 2, the kind, two zeros, the id and the length, big-endian. */
  lemma {:induction false} HeaderBytes(kind: byte, id: nat, len: nat)
    requires id < 0x1_0000_0000 && len < 0x1_0000_0000
    ensures var h := Header(kind, id, len);
      && |h| == 16 && h[..8] == [0x4E, 0x54, 0x43, 0x31, 2, kind, 0, 0]
      && BigEndian(h[8..12]) == id && BigEndian(h[12..]) == len
  {
    var h := Header(kind, id, len);
    BigEndian32(id);
    BigEndian32(len);
    assert h[8..12] == U32(id) && h[12..] == U32(len);
  }

  lemma {:induction false} HeaderFields(kind: byte, id: nat, len: nat, t: bytes)
    requires id < 0x1_0000_0000 && len < 0x1_0000_0000
    ensures var b := Header(kind, id, len) + t;
      && HeaderOk(b) && b[4] == VERSION && b[5] == kind && PayloadLen(b) == len && GetU32(b[8..12]) == id
      && b[HEADER_LEN..] == t
  {
    var b := Header(kind, id, len) + t;
    assert b[..4] == MAGIC;
    assert b[8..12] == U32(id) + [] && b[12..16] == U32(len) + [];
    GetPut32(id, []);
    GetPut32(len, []);
  }

  lemma {:induction false} ReadPut(f: Frame, t: bytes)
    requires Sendable(f)
    ensures ReadFrame(PutFrame(f) + t) == Item(f, |PutFrame(f)|)
  {
    var b := PutFrame(f) + t;
    assert b == Header(f.kind, f.id, |f.payload|) + (f.payload + t);
    HeaderFields(f.kind, f.id, |f.payload|, f.payload + t);
    assert b[HEADER_LEN..HEADER_LEN + |f.payload|] == b[HEADER_LEN..][..|f.payload|] == f.payload;
  }

  /** A frame is read at versions 2 and 3 and at no other. */
  lemma {:induction false} VersionsRead(b: bytes, t: bytes)
    requires |b| == HEADER_LEN && b[..4] == [0x4E, 0x54, 0x43, 0x31] && PayloadLen(b) <= |t|
    ensures ReadFrame(b + t).Item? <==> b[4] == 2 || b[4] == 3
    ensures !ReadFrame(b + t).Item? ==> ReadFrame(b + t).Bad?
  {
    HeaderPrefix(b, t);
  }

  lemma {:induction false} FramesAreRead(f: Frame)
    requires Sendable(f)
    ensures Reads(ReadFrame, PutFrame, f)
    ensures |f.payload| <= SDK_MAX_PAYLOAD ==> Reads(SdkFrame, PutFrame, f)
  {
    forall u ensures ReadFrame(PutFrame(f) + u) == Item(f, |PutFrame(f)|) && PayloadLen(PutFrame(f) + u) == |f.payload|
    {
      ReadPut(f, u);
      HeaderFields(f.kind, f.id, |f.payload|, f.payload + u);
      assert PutFrame(f) + u == Header(f.kind, f.id, |f.payload|) + (f.payload + u);
    }
  }

  // ---- the gateway reading from a controller ----

  datatype Recv = Got(data: bytes) | Again | Retry | Eof | Dead

  /** The recv loop of one readable event: the buffer when it ends in would-block, None when the connection ends. */
  function Gather(limit: nat, buf: bytes, recvs: seq<Recv>): (r: Option<bytes>)
    ensures r.Some? ==> r.value == buf + Received(recvs)
    decreases |recvs|
  {
    if recvs == [] then Some(buf)
    else match recvs[0]
      case Again => Some(buf)
      case Retry => Gather(limit, buf, recvs[1..])
      case Eof => None
      case Dead => None
      case Got(d) =>
        if d == [] || |buf + d| > limit then None
        else
          assert buf + d + Received(recvs[1..]) == buf + (d + Received(recvs[1..]));
          Gather(limit, buf + d, recvs[1..])
  }

  /** The results of recv calls that each hand over some bytes. */
  function Gots(ds: seq<bytes>): seq<Recv> { seq(|ds|, i requires 0 <= i < |ds| => Got(ds[i])) }

  /** Bytes in any pieces, and then would-block: all of them are buffered, exactly if the buffer stays within its limit;
      end of file or an error instead ends the connection. */
  lemma {:induction false} GatherIs(limit: nat, buf: bytes, ds: seq<bytes>, last: Recv)
    requires (forall i :: 0 <= i < |ds| ==> ds[i] != []) && !last.Got? && !last.Retry? && |buf| <= limit
    ensures Gather(limit, buf, Gots(ds) + [last])
         == if last.Again? && |buf| + |Concat(ds)| <= limit then Some(buf + Concat(ds)) else None
    decreases |ds|
  {
    var rs := Gots(ds) + [last];
    if ds == [] {
      assert rs == [last] && buf + [] == buf;
    } else {
      assert rs[0] == Got(ds[0]) && rs[1..] == Gots(ds[1..]) + [last];
      Assoc(buf, ds[0], Concat(ds[1..]));
      if |buf + ds[0]| <= limit { GatherIs(limit, buf + ds[0], ds[1..], last); }
    }
  }

  /** An interrupted call is made again. */
  lemma {:induction false} RetryIsNothing(limit: nat, buf: bytes, recvs: seq<Recv>)
    ensures Gather(limit, buf, [Retry] + recvs) == Gather(limit, buf, recvs)
    ensures Received([Retry] + recvs) == Received(recvs)
  {
    assert ([Retry] + recvs)[1..] == recvs;
  }

  /** A stream that never overfills the buffer survives: here one that fits it as a whole. */
  lemma {:induction false} ShortStreamsSurvive<F(!new)>(limit: nat, next: bytes -> Step<F>, v: Parsed<F>,
                                                        events: seq<seq<bytes>>)
    requires Final(next) && |v.rest| + |Concat(Flat(events))| <= limit && AllSome(events)
    ensures Survives(limit, next, v, Scripts(events))
    decreases |events|
  {
    if events != [] {
      var e, rest := Scripts(events)[0], events[1..];
      assert e == Gots(events[0]) + [Again] && Scripts(events)[1..] == Scripts(rest);
      ConcatAppend(events[0], Flat(rest));
      if !v.bad {
        GatherIs(limit, v.rest, events[0], Again);
        RestShrinks(next, v.rest + Received(e));
      }
      ShortStreamsSurvive(limit, next, ReadEvent(limit, next, v, e), rest);
    }
  }

  /** Readable events that each bring bytes in these pieces. */
  function Scripts(events: seq<seq<bytes>>): seq<seq<Recv>>
  {
    seq(|events|, i requires 0 <= i < |events| => Gots(events[i]) + [Again])
  }

  function Flat(events: seq<seq<bytes>>): seq<bytes> { if events == [] then [] else events[0] + Flat(events[1..]) }

  ghost predicate AllSome(events: seq<seq<bytes>>)
  {
    forall i, j :: 0 <= i < |events| && 0 <= j < |events[i]| ==> events[i][j] != []
  }

  lemma {:induction false} RestShrinks<F(!new)>(next: bytes -> Step<F>, b: bytes)
    ensures |ParseAll(next, b).rest| <= |b|
    decreases |b|
  {
    match next(b)
    case Item(_, n) => if 0 < n <= |b| { RestShrinks(next, b[n..]); }
    case _ =>
  }

  /** The bytes a script of recv results hands over before it would block. */
  function Received(recvs: seq<Recv>): bytes
  {
    if recvs == [] then []
    else match recvs[0]
      case Got(d) => d + Received(recvs[1..])
      case Retry => Received(recvs[1..])
      case _ => []
  }

  /** One readable event on a connection whose dispatched frames, buffered bytes and verdict are `v`. */
  function ReadEvent<F(!new)>(limit: nat, next: bytes -> Step<F>, v: Parsed<F>, recvs: seq<Recv>): Parsed<F>
  {
    if !v.bad && Gather(limit, v.rest, recvs).None? then Parsed(v.items, [], true) else Feed(next, v, Received(recvs))
  }

  function ReadEvents<F(!new)>(limit: nat, next: bytes -> Step<F>, v: Parsed<F>, events: seq<seq<Recv>>): Parsed<F>
    decreases |events|
  {
    if events == [] then v else ReadEvents(limit, next, ReadEvent(limit, next, v, events[0]), events[1..])
  }

  /** No event of the run ends the connection by EOF, a socket error or a buffer over the limit. */
  ghost predicate Survives<F(!new)>(limit: nat, next: bytes -> Step<F>, v: Parsed<F>, events: seq<seq<Recv>>)
    decreases |events|
  {
    || events == []
    || ((v.bad || Gather(limit, v.rest, events[0]).Some?)
        && Survives(limit, next, ReadEvent(limit, next, v, events[0]), events[1..]))
  }

  function Batches(events: seq<seq<Recv>>): seq<bytes>
  {
    if events == [] then [] else [Received(events[0])] + Batches(events[1..])
  }

  lemma {:induction false} EventsAreFeeds<F(!new)>(limit: nat, next: bytes -> Step<F>, v: Parsed<F>,
                                                   events: seq<seq<Recv>>)
    requires Survives(limit, next, v, events)
    ensures ReadEvents(limit, next, v, events) == FeedAll(next, v, Batches(events))
    decreases |events|
  {
    if events != [] {
      assert Batches(events)[1..] == Batches(events[1..]);
      EventsAreFeeds(limit, next, ReadEvent(limit, next, v, events[0]), events[1..]);
    }
  }

  /** However the byte stream is chopped into recv batches and events, the frames dispatched and the verdict are
      those of parsing the whole stream. */
  lemma {:induction false} DispatchIgnoresBatching(events: seq<seq<Recv>>)
    requires Survives(CTRL_MAX_RBUF, ReadFrame, Parsed([], [], false), events)
    ensures ReadEvents(CTRL_MAX_RBUF, ReadFrame, Parsed([], [], false), events)
            == ParseAll(ReadFrame, Concat(Batches(events)))
  {
    EventsAreFeeds(CTRL_MAX_RBUF, ReadFrame, Parsed([], [], false), events);
    assert Final(ReadFrame) by { ReadersAreFinal(); }
    SplitInvariance(ReadFrame, [], Batches(events));
    assert [] + Concat(Batches(events)) == Concat(Batches(events));
  }

  /** A controller connection as the gateway reads it; `dispatched` are the frames handed to the relay. */
  class CtrlReader {
    var rbuf: bytes
    var alive: bool
    var dispatched: seq<Frame>

    ghost function View(): Parsed<Frame>
      reads this
    {
      Parsed(dispatched, if alive then rbuf else [], !alive)
    }

    constructor ()
      ensures View() == Parsed([], [], false)
    {
      rbuf, alive, dispatched := [], true, [];
    }

    /** The recv loop; false when the controller died. */
    method Fill(recvs: seq<Recv>) returns (ok: bool)
      modifies `rbuf
      ensures ok == Gather(CTRL_MAX_RBUF, old(rbuf), recvs).Some?
      ensures ok ==> rbuf == Gather(CTRL_MAX_RBUF, old(rbuf), recvs).value
    {
      var i := 0;
      assert recvs[0..] == recvs;
      while i < |recvs| && !recvs[i].Again?
        invariant i <= |recvs|
        invariant Gather(CTRL_MAX_RBUF, old(rbuf), recvs) == Gather(CTRL_MAX_RBUF, rbuf, recvs[i..])
      {
        assert recvs[i..][1..] == recvs[i + 1..];
        match recvs[i] {
          case Got(d) =>
            if d == [] { return false; }
            rbuf := rbuf + d;
            if |rbuf| > CTRL_MAX_RBUF { return false; }
          case Retry =>
          case _ => return false;
        }
        i := i + 1;
      }
      ok := true;
    }

    /** One readable event: gather a batch, dispatch every complete frame, keep the rest. */
    method OnReadable(recvs: seq<Recv>)
      requires alive
      modifies this
      ensures View() == ReadEvent(CTRL_MAX_RBUF, ReadFrame, old(View()), recvs)
    {
      var ok := Fill(recvs);
      if !ok { alive := false; return; }
      assert Progress(ReadFrame) by { ReadersAreFinal(); }
      var frames, off, bad := TakeAll(ReadFrame, rbuf);
      dispatched, alive, rbuf := dispatched + frames, !bad, rbuf[off..];
    }
  }

  // ---- the gateway writing to a controller ----

  class CtrlWriter {
    var wbuf: bytes
    var wsent: nat
    ghost var queued: seq<Frame>   // every frame queued so far
    ghost var out: bytes           // every byte handed to the socket so far

    ghost predicate Valid()
      reads this
    {
      && wsent <= |wbuf|
      && out + wbuf[wsent..] == PutAll(PutFrame, queued)
    }

    constructor ()
      ensures Valid() && queued == [] && out == []
    {
      wbuf, wsent, queued, out := [], 0, [], [];
    }

    /** ctrl_queue; room says that the buffer could be made large enough. */
    method Queue(kind: byte, id: nat, payload: bytes, room: bool) returns (ok: bool)
      requires Valid()
      modifies this
      ensures Valid() && out == old(out) && ok == room
      ensures queued == old(queued) + if ok then [Frame(VERSION, kind, id, payload)] else []
    {
      if !room {
        assert queued + [] == queued;
        return false;
      }
      ghost var f := Frame(VERSION, kind, id, payload);
      AppendUnsent(PutFrame, queued, f, out, wbuf, wsent);
      queued := queued + [f];
      wbuf := wbuf + (Header(kind, id, |payload|) + payload);
      ok := true;
    }

    /** Send what the socket takes; true when the controller is found dead. */
    method OnWritable(net: seq<SendResult>) returns (died: bool)
      requires Valid()
      modifies this
      ensures Valid() && queued == old(queued)
      ensures var f := Drain(old(wbuf[wsent..]), net);
        out == old(out) + f.sent && wbuf[wsent..] == f.rest && died == f.outcome.Broken?
    {
      var pos, outcome := SendLoop(wbuf, wsent, net);
      assert out + wbuf[wsent..] == out + wbuf[wsent..pos] + wbuf[pos..];
      out, wsent := out + wbuf[wsent..pos], pos;
      if outcome.Broken? { return true; }
      died := false;
      if wsent >= |wbuf| { wsent, wbuf := 0, []; }
    }
  }

  /** Frames that fit the SDK's payload buffer arrive in order: what the SDK has read of the bytes sent so far is a
      prefix of what was queued, and all of it once the buffer has drained. */
  lemma {:induction false} QueuedFramesArrive(queued: seq<Frame>, out: bytes, unsent: bytes)
    requires forall i :: 0 <= i < |queued| ==> Sendable(queued[i]) && |queued[i].payload| <= SDK_MAX_PAYLOAD
    requires out + unsent == PutAll(PutFrame, queued)
    ensures ParseAll(SdkFrame, out).items <= queued
    ensures unsent == [] ==> ParseAll(SdkFrame, out) == Parsed(queued, [], false)
  {
    ReadersAreFinal();
    forall i | 0 <= i < |queued| ensures Reads(SdkFrame, PutFrame, queued[i]) {
      FramesAreRead(queued[i]);
    }
    ReadBack(SdkFrame, PutFrame, queued, []);
    assert PutAll(PutFrame, queued) + [] == PutAll(PutFrame, queued);
    assert queued + [] == queued;
    ParsePrefix(SdkFrame, out, unsent);
    assert unsent == [] ==> out + unsent == out;
  }

  // ---- the SDK reading from the gateway ----

  /** The blocking socket as the SDK sees it: each read returns part of the next segment; an empty segment stands for
      an interrupted call, and no segment for end of file. */
  class Inbox {
    var segs: seq<bytes>

    constructor (segs: seq<bytes>)
      ensures this.segs == segs
    {
      this.segs := segs;
    }

    /** One read call for at most max bytes; false at end of file. */
    method Read(max: nat) returns (ok: bool, chunk: bytes)
      modifies this
      ensures ok == (old(segs) != []) && |chunk| <= max
      ensures chunk + Concat(segs) == Concat(old(segs))
      ensures ok && max > 0 ==> |segs| < |old(segs)| || (|segs| == |old(segs)| && |chunk| > 0)
    {
      if segs == [] { return false, []; }
      var s, k := segs[0], Min(max, |segs[0]|);
      ok, chunk := true, s[..k];
      if k == |s| {
        segs := segs[1..];
      } else {
        segs := [s[k..]] + segs[1..];
        assert s == s[..k] + s[k..];
      }
    }

    /** Exactly the next n bytes of the stream, or false at end of file. */
    method ReadFull(n: nat) returns (ok: bool, data: bytes)
      modifies this
      ensures ok == (|Concat(old(segs))| >= n)
      ensures ok ==> data + Concat(segs) == Concat(old(segs)) && |data| == n
    {
      data := [];
      while |data| < n
        invariant |data| <= n
        invariant data + Concat(segs) == Concat(old(segs))
        decreases |segs|, n - |data|
      {
        var chunk;
        ok, chunk := Read(n - |data|);
        if !ok { return false, data; }
        assert data + (chunk + Concat(segs)) == data + chunk + Concat(segs);
        data := data + chunk;
      }
      ok := true;
    }

    /** Header, then payload: the next frame, or None when the serve loop ends. */
    method Next() returns (r: Option<Frame>)
      modifies this
      ensures var b := Concat(old(segs));
        match SdkFrame(b)
        case Item(f, n) => r == Some(f) && Concat(segs) == b[n..]
        case _ => r == None
    {
      ghost var b := Concat(segs);
      var ok, hdr := ReadFull(HEADER_LEN);
      if !ok { return None; }
      assert b == hdr + Concat(segs);
      HeaderPrefix(hdr, Concat(segs));
      if !HeaderOk(hdr) { return None; }
      var len := PayloadLen(hdr);
      if len > SDK_MAX_PAYLOAD { return None; }
      var payload: bytes := [];
      if len > 0 {
        ghost var rest := Concat(segs);
        ok, payload := ReadFull(len);
        if !ok { return None; }
      }
      assert b == hdr + payload + Concat(segs);
      assert b[HEADER_LEN..HEADER_LEN + len] == payload;
      assert b[8..12] == hdr[8..12];
      r := Some(Frame(hdr[4], hdr[5], GetU32(hdr[8..12]), payload));
    }

    /** The serve loop: every frame of the stream, however it is segmented. */
    method Serve() returns (frames: seq<Frame>)
      modifies this
      ensures frames == ParseAll(SdkFrame, Concat(old(segs))).items
    {
      frames := [];
      assert Progress(SdkFrame) by { ReadersAreFinal(); }
      ghost var all := ParseAll(SdkFrame, Concat(segs));
      BeforeNone(all);
      while true
        invariant all == Before(frames, ParseAll(SdkFrame, Concat(segs)))
        decreases |Concat(segs)|
      {
        TakeStep(SdkFrame, frames, Concat(segs));
        var r := Next();
        if r.None? { break; }
        frames := frames + [r.value];
      }
    }
  }
}
