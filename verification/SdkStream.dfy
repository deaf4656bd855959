/** The controller SDK's replies: the streaming calls a handler may make, and what the serve loop adds, over a socket
    that takes every write. */
module SdkStream {
  import opened Bytes
  import opened Wire
  import opened Framing
  import Incremental

  const BEGIN_BUF := 1024
  const MAX_CHUNK := 0xFFFF_FFFF - 4

  function Ascii(s: string): bytes { seq(|s|, i requires 0 <= i < |s| => s[i] as int % 256) }

  /** What a streaming handler can do with its stream. */
  datatype Call =
    | Open(status: nat, ctype: bytes)
    | OpenSse
    | Write(data: bytes)
    | SendSse(event: bytes, data: bytes)
    | End

  /** ntc_stream's two flags. */
  datatype Flags = Flags(begun: bool, ended: bool)

  const FRESH := Flags(false, false)

  function NewFrame(kind: byte, id: nat, payload: bytes): Frame { Frame(VERSION, kind, id, payload) }

  /** The opening a call asks for. */
  function Opening(c: Call): Begin
    requires c.Open? || c.OpenSse?
  {
    if c.Open? then Begin(c.status, FLAG_CHUNKED, c.ctype) else Begin(200, FLAG_SSE, Ascii("text/event-stream"))
  }

  /** The bytes a call asks to send. */
  function Sending(c: Call): bytes
    requires c.Write? || c.SendSse?
  {
    if c.Write? then c.data
    else (if c.event == [] then [] else Ascii("event: ") + c.event + [10]) + Ascii("data: ") + c.data + [10, 10]
  }

  /** One call: the flags after it and the frame it emits, if any. */
  function Do(f: Flags, id: nat, c: Call): (Flags, seq<Frame>)
  {
    match c
    case End => if f.ended then (f, []) else (f.(ended := true), [NewFrame(RESPONSE_END, id, [])])
    case Write(_) => DoWrite(f, id, Sending(c))
    case SendSse(_, _) => DoWrite(f, id, Sending(c))
    case _ =>
      if f.begun || f.ended || |PutBegin(Opening(c))| > BEGIN_BUF || |Opening(c).ctype| > 0xFFFF then (f, [])
      else (f.(begun := true), [NewFrame(RESPONSE_BEGIN, id, PutBegin(Opening(c)))])
  }

  predicate Accepts(f: Flags, data: bytes) { f.begun && !f.ended && 0 < |data| <= MAX_CHUNK }

  function DoWrite(f: Flags, id: nat, data: bytes): (Flags, seq<Frame>)
  {
    if Accepts(f, data) then (f, [NewFrame(RESPONSE_CHUNK, id, Slice32(data))]) else (f, [])
  }

  function Run(f: Flags, id: nat, calls: seq<Call>): (Flags, seq<Frame>)
    decreases |calls|
  {
    if calls == [] then (f, []) else
    var (g, out) := Do(f, id, calls[0]);
    var (h, rest) := Run(g, id, calls[1..]);
    (h, out + rest)
  }

  /** The one-shot response in place of a stream that was never begun. */
  function OneShot(ok: bool, failed: bool): Response
  {
    if !ok then Response(400, Ascii("text/plain"), Ascii("bad request"))
    else if failed then Response(500, Ascii("text/plain"), Ascii("stream error"))
    else Response(204, Ascii("text/plain"), [])
  }

  /** What the serve loop adds after the handler. */
  function Finish(f: Flags, id: nat, ok: bool, failed: bool): seq<Frame>
  {
    if f.begun then (if f.ended then [] else [NewFrame(RESPONSE_END, id, [])])
    else [NewFrame(RESPONSE, id, PutResponse(OneShot(ok, failed), []))]
  }

  /** All the frames for one REQUEST under a streaming handler that makes these calls; ok says that the request decoded
      and failed that the handler returned an error. */
  function Reply(id: nat, ok: bool, calls: seq<Call>, failed: bool): seq<Frame>
  {
    if !ok then Finish(FRESH, id, false, failed) else
    var (f, out) := Run(FRESH, id, calls);
    out + Finish(f, id, true, failed)
  }

  // ---- the grammar ----

  predicate IsChunk(f: Frame, id: nat)
  {
    f.kind == RESPONSE_CHUNK && f.id == id && DecodeChunk(f.payload).Some? && DecodeChunk(f.payload).value != []
  }

  ghost predicate Chunks(fs: seq<Frame>, id: nat) { forall f :: f in fs ==> IsChunk(f, id) }

  /** RESPONSE | BEGIN CHUNK* END, all under one id and no chunk empty. */
  ghost predicate WellFormed(fs: seq<Frame>, id: nat)
  {
    || (|fs| == 1 && fs[0].kind == RESPONSE && fs[0].id == id)
    || (|fs| >= 2 && fs[0].kind == RESPONSE_BEGIN && fs[0].id == id && fs[|fs| - 1].kind == RESPONSE_END
        && fs[|fs| - 1].id == id && Chunks(fs[1..|fs| - 1], id))
  }

  /** The handler never calls end before a begin has succeeded. */
  ghost predicate Orderly(f: Flags, id: nat, calls: seq<Call>)
    decreases |calls|
  {
    calls == [] || ((calls[0].End? ==> f.begun) && Orderly(Do(f, id, calls[0]).0, id, calls[1..]))
  }

  lemma {:induction false} AcceptedChunk(id: nat, data: bytes)
    requires 0 < |data| <= MAX_CHUNK
    ensures IsChunk(NewFrame(RESPONSE_CHUNK, id, Slice32(data)), id) && DecodeChunk(Slice32(data)) == Some(data)
  {
    TakePutSlice32(data, []);
    assert Slice32(data) + [] == Slice32(data);
  }

  /** After the end nothing is emitted. */
  lemma {:induction false} RunEnded(f: Flags, id: nat, calls: seq<Call>)
    requires f.ended
    ensures Run(f, id, calls) == (f, [])
    decreases |calls|
  {
    if calls != [] {
      RunEnded(f, id, calls[1..]);
      var none: seq<Frame> := [];
      assert none + none == none;
    }
  }

  /** An open stream emits chunks, and an END exactly when it ends. */
  ghost predicate OpenRun(g: Flags, fs: seq<Frame>, id: nat)
  {
    g.begun && if g.ended then fs != [] && fs[|fs| - 1] == NewFrame(RESPONSE_END, id, []) && Chunks(fs[..|fs| - 1], id)
               else Chunks(fs, id)
  }

  lemma {:induction false} OpenRunCons(g: Flags, c: Frame, fs: seq<Frame>, id: nat)
    requires OpenRun(g, fs, id) && IsChunk(c, id)
    ensures OpenRun(g, [c] + fs, id)
  {
    if g.ended { assert ([c] + fs)[..|[c] + fs| - 1] == [c] + fs[..|fs| - 1]; }
  }

  lemma {:induction false} RunOpen(id: nat, calls: seq<Call>)
    ensures var (g, fs) := Run(Flags(true, false), id, calls); OpenRun(g, fs, id)
    decreases |calls|
  {
    if calls != [] {
      var f := Flags(true, false);
      var (g, out) := Do(f, id, calls[0]);
      var (h, rest) := Run(g, id, calls[1..]);
      if calls[0].End? {
        RunEnded(g, id, calls[1..]);
        assert out + [] == out;
      } else {
        assert g == f;
        RunOpen(id, calls[1..]);
        if out == [] {
          assert out + rest == rest;
        } else {
          AcceptedChunk(id, Sending(calls[0]));
          OpenRunCons(h, out[0], rest, id);
          assert out == [out[0]];
        }
      }
    }
  }

  ghost predicate Begun(g: Flags, fs: seq<Frame>, id: nat)
  {
    fs != [] && fs[0].kind == RESPONSE_BEGIN && fs[0].id == id && OpenRun(g, fs[1..], id)
  }

  /** From a fresh stream: nothing at all, a BEGIN and an open stream, or, when disorderly, an END alone. */
  lemma {:induction false} RunFresh(id: nat, calls: seq<Call>)
    ensures !Orderly(FRESH, id, calls) ==>
      Run(FRESH, id, calls) == (Flags(false, true), [NewFrame(RESPONSE_END, id, [])])
    ensures Orderly(FRESH, id, calls) ==>
      Run(FRESH, id, calls) == (FRESH, []) || Begun(Run(FRESH, id, calls).0, Run(FRESH, id, calls).1, id)
    decreases |calls|
  {
    if calls != [] {
      var (g, out) := Do(FRESH, id, calls[0]);
      var (h, rest) := Run(g, id, calls[1..]);
      if calls[0].End? {
        RunEnded(g, id, calls[1..]);
        assert out + [] == out;
      } else if out == [] {
        RunFresh(id, calls[1..]);
        assert out + rest == rest;
      } else {
        RunOpen(id, calls[1..]);
        OrderlyOnceBegun(id, calls[1..]);
        assert (out + rest)[1..] == rest;
      }
    }
  }

  lemma {:induction false} OrderlyOnceBegun(id: nat, calls: seq<Call>)
    ensures Orderly(Flags(true, false), id, calls) && Orderly(Flags(true, true), id, calls)
    decreases |calls|
  {
    if calls != [] { OrderlyOnceBegun(id, calls[1..]); }
  }

  /** Every REQUEST gets exactly one RESPONSE or one BEGIN CHUNK* END under its own id, with no empty chunk, exactly
      when the handler, if it was called, did not end a stream it had not begun. */
  lemma {:induction false} ReplyGrammar(id: nat, ok: bool, calls: seq<Call>, failed: bool)
    ensures WellFormed(Reply(id, ok, calls, failed), id) <==> (ok ==> Orderly(FRESH, id, calls))
  {
    if ok {
      var (g, fs) := Run(FRESH, id, calls);
      var tail := Finish(g, id, true, failed);
      RunFresh(id, calls);
      if fs != [] && fs[0].kind == RESPONSE_BEGIN {
        BeginChunksEnd(g, fs, id, failed);
      }
    }
  }

  /** A handler that only ends: an END and then a RESPONSE. */
  lemma {:induction false} EndBeforeBegin(id: nat)
    ensures Reply(id, true, [End], false)
         == [NewFrame(RESPONSE_END, id, []), NewFrame(RESPONSE, id, PutResponse(OneShot(true, false), []))]
    ensures !WellFormed(Reply(id, true, [End], false), id)
  {
    var calls: seq<Call> := [End];
    assert calls[1..] == [];
  }

  lemma {:induction false} BeginChunksEnd(g: Flags, fs: seq<Frame>, id: nat, failed: bool)
    requires Begun(g, fs, id)
    ensures WellFormed(fs + Finish(g, id, true, failed), id)
  {
    var all := fs + Finish(g, id, true, failed);
    if g.ended {
      assert all == fs && fs[1..][..|fs| - 2] == fs[1..|fs| - 1];
    } else {
      assert all[1..|all| - 1] == fs[1..];
    }
  }

  // ---- what the chunks carry ----

  function DataOf(fs: seq<Frame>): bytes
  {
    if fs == [] then []
    else
      (if fs[0].kind == RESPONSE_CHUNK && DecodeChunk(fs[0].payload).Some? then DecodeChunk(fs[0].payload).value
       else [])
      + DataOf(fs[1..])
  }

  /** What the handler sent while the stream was open, in order. */
  function Sent(f: Flags, id: nat, calls: seq<Call>): bytes
    decreases |calls|
  {
    if calls == [] then [] else
    var c := calls[0];
    (if (c.Write? || c.SendSse?) && Accepts(f, Sending(c)) then Sending(c) else [])
    + Sent(Do(f, id, c).0, id, calls[1..])
  }

  /** The chunks decode to exactly the bytes that were sent. */
  lemma {:induction false} StreamedData(f: Flags, id: nat, calls: seq<Call>)
    ensures DataOf(Run(f, id, calls).1) == Sent(f, id, calls)
    decreases |calls|
  {
    if calls != [] {
      var c := calls[0];
      var (g, out) := Do(f, id, c);
      var (h, rest) := Run(g, id, calls[1..]);
      StreamedData(g, id, calls[1..]);
      if out == [] {
        assert out + rest == rest;
      } else {
        assert (out + rest)[0] == out[0] && (out + rest)[1..] == rest;
        if c.Write? || c.SendSse? { AcceptedChunk(id, Sending(c)); }
      }
    }
  }

  // ---- what the frames say ----

  /** A stream is opened once, if its content type fits the 1024-byte buffer with the five bytes around it, and
      BEGIN then says what was asked for: chunked with this status and type, or an event stream. */
  lemma {:induction false} BeginSays(f: Flags, id: nat, c: Call)
    requires c.OpenSse? || (c.Open? && c.status < 0x1_0000)
    ensures Do(f, id, c).1 != [] <==> !f.begun && !f.ended && (c.Open? ==> |c.ctype| <= 1019)
    ensures Do(f, id, c).1 != [] ==>
      var frames := Do(f, id, c).1;
      && |frames| == 1 && frames[0].kind == RESPONSE_BEGIN && frames[0].id == id && DecodeBegin(frames[0].payload).Some?
      && var b := DecodeBegin(frames[0].payload).value;
         if c.Open? then b.status == c.status && b.flags % 2 == 0 && b.ctype == c.ctype
         else b.status == 200 && b.flags % 2 == 1 && b.ctype == Ascii("text/event-stream")
  {
    var b := Opening(c);
    BeginSize(b);
    if Short(b.ctype) { StreamPayloadsRoundTrip(b, 0, [], []); }
    assert PutBegin(b) + [] == PutBegin(b);
  }

  lemma {:induction false} BeginSize(b: Begin)
    ensures |PutBegin(b)| == 5 + |b.ctype|
  {
  }

  /** What is written to an open stream goes out as one chunk with exactly that data, unless it is empty or does not
      fit a 32-bit length with its own. */
  lemma {:induction false} WriteSays(f: Flags, id: nat, data: bytes)
    ensures Do(f, id, Write(data)).0 == f
    ensures Do(f, id, Write(data)).1 != [] <==> f.begun && !f.ended && 0 < |data| < 0xFFFF_FFFC
    ensures Do(f, id, Write(data)).1 != [] ==>
      var frames := Do(f, id, Write(data)).1;
      && |frames| == 1 && frames[0].kind == RESPONSE_CHUNK && frames[0].id == id
      && DecodeChunk(frames[0].payload) == Some(data)
  {
    if Accepts(f, data) { AcceptedChunk(id, data); }
  }

  function Writes(ds: seq<bytes>): seq<Call> { seq(|ds|, i requires 0 <= i < |ds| => Write(ds[i])) }

  /** A handler that opens a stream and writes: everything it wrote is sent, in order. */
  lemma {:induction false} WritesAreSent(id: nat, status: nat, ctype: bytes, ds: seq<bytes>)
    requires status < 0x1_0000 && |ctype| <= 1019 && forall d :: d in ds ==> |d| < 0xFFFF_FFFC
    ensures Orderly(FRESH, id, [Open(status, ctype)] + Writes(ds))
    ensures Sent(FRESH, id, [Open(status, ctype)] + Writes(ds)) == Concat(ds)
  {
    var calls := [Open(status, ctype)] + Writes(ds);
    assert calls[1..] == Writes(ds);
    BeginSays(FRESH, id, calls[0]);
    OrderlyOnceBegun(id, Writes(ds));
    OpenWrites(id, ds);
    assert [] + Concat(ds) == Concat(ds);
  }

  lemma {:induction false} OpenWrites(id: nat, ds: seq<bytes>)
    requires forall d :: d in ds ==> |d| < 0xFFFF_FFFC
    ensures Sent(Flags(true, false), id, Writes(ds)) == Concat(ds)
    decreases |ds|
  {
    if ds != [] {
      assert ds[0] in ds && Writes(ds)[1..] == Writes(ds[1..]);
      OpenWrites(id, ds[1..]);
    }
  }

  /** In place of a stream that was never begun: 400 for a request that did not decode, 500 for a handler that
      failed, and otherwise 204 without a body. */
  lemma {:induction false} OneShotSays(id: nat, ok: bool, failed: bool)
    ensures var frames := Finish(FRESH, id, ok, failed);
      && |frames| == 1 && frames[0].kind == RESPONSE && frames[0].id == id
      && DecodeResponse(frames[0].payload).Some?
      && var r := DecodeResponse(frames[0].payload).value;
         if !ok then r.status == 400 else if failed then r.status == 500 else r.status == 204 && r.body == []
  {
    ResponseCompatibility(OneShot(ok, failed), []);
  }

  // ---- events, as a browser reads them ----

  const LF: byte := 10

  /** The value of a field line: what stands between its name and the end of the line, and what follows. */
  function FieldLine(name: bytes, b: bytes): Option<(bytes, bytes)>
  {
    if !(name <= b) then None else
    var rest := b[|name|..];
    match Find(rest, [LF], 0)
    case None => None
    case Some(n) => Some((rest[..n], rest[n + 1..]))
  }

  /** One event off the front of an event stream: an optional type, the data, and an empty line. */
  function ReadEvent(b: bytes): Option<(bytes, bytes, bytes)>
  {
    var typed := FieldLine(Ascii("event: "), b);
    var (event, b1) := if typed.Some? then typed.value else ([], b);
    var (data, b2) :- FieldLine(Ascii("data: "), b1);
    if b2 != [] && b2[0] == LF then Some((event, data, b2[1..])) else None
  }

  lemma {:induction false} FirstLine(v: bytes, t: bytes)
    ensures LF !in v ==> Find(v + [LF] + t, [LF], 0) == Some(|v|)
    ensures LF in v ==> exists n :: Find(v + [LF] + t, [LF], 0) == Some(n) && n < |v|
  {
    var s := v + [LF] + t;
    forall i | 0 <= i < |v| ensures OccursAt(s, [LF], i) <==> v[i] == LF {
      assert s[i..i + 1] == [v[i]];
    }
    if LF in v {
      var k :| 0 <= k < |v| && v[k] == LF;
      var n := LeastLf(v, k);
      FindIs(s, [LF], 0, n);
    } else {
      assert s[|v|..|v| + 1] == [LF];
      FindIs(s, [LF], 0, |v|);
    }
  }

  lemma {:induction false} LeastLf(v: bytes, k: nat) returns (n: nat)
    requires k < |v| && v[k] == LF
    ensures n < |v| && v[n] == LF && forall i :: 0 <= i < n ==> v[i] != LF
  {
    n := 0;
    while v[n] != LF
      invariant n <= k && forall i :: 0 <= i < n ==> v[i] != LF
      decreases k - n
    {
      n := n + 1;
    }
  }

  lemma {:induction false} LineOf(name: bytes, v: bytes, t: bytes)
    ensures LF !in v ==> FieldLine(name, name + v + [LF] + t) == Some((v, t))
    ensures LF in v ==>
      FieldLine(name, name + v + [LF] + t).Some? && FieldLine(name, name + v + [LF] + t).value.0 != v
  {
    var b := name + v + [LF] + t;
    assert b[|name|..] == v + [LF] + t;
    FirstLine(v, t);
    if LF !in v { assert (v + [LF] + t)[..|v|] == v && (v + [LF] + t)[|v| + 1..] == t; }
  }

  lemma {:induction false} DataFirst(rest: bytes)
    ensures FieldLine(Ascii("event: "), Ascii("data: ") + rest) == None
  {
    var e, d := Ascii("event: "), Ascii("data: ");
    assert e[0] == 101 && (d + rest)[0] == d[0] == 100;
  }

  /** An event that the SDK sends is read back, with its type and data, exactly when neither has a line feed in it. */
  lemma {:induction false} EventsAreRead(event: bytes, data: bytes, t: bytes)
    ensures ReadEvent(Sending(SendSse(event, data)) + t) == Some((event, data, t)) <==> LF !in event && LF !in data
  {
    EventIsRead(event, data, t, Sending(SendSse(event, data)) + t);
  }

  lemma {:induction false} EventIsRead(event: bytes, data: bytes, t: bytes, b: bytes)
    requires b == Sending(SendSse(event, data)) + t
    ensures ReadEvent(b) == Some((event, data, t)) <==> LF !in event && LF !in data
  {
    var tail := SseLayout(event, data, t, b, Ascii("event: "), Ascii("data: "));
    if event == [] {
      Untyped(data, t, b);
    } else {
      Typed(b, event, data, t, tail);
    }
  }

  lemma {:induction false} SseLayout(event: bytes, data: bytes, t: bytes, b: bytes, e: bytes, d: bytes)
    returns (tail: bytes)
    requires b == (if event == [] then [] else e + event + [10]) + d + data + [10, 10] + t
    ensures tail == d + data + [LF] + ([LF] + t)
    ensures b == if event == [] then tail else e + event + [LF] + tail
  {
    tail := d + data + [LF] + ([LF] + t);
    if event == [] { assert [] + d == d; }
  }

  lemma {:induction false} Untyped(data: bytes, t: bytes, b: bytes)
    requires b == Ascii("data: ") + data + [LF] + ([LF] + t)
    ensures ReadEvent(b) == Some(([], data, t)) <==> LF !in data
  {
    LineOf(Ascii("data: "), data, [LF] + t);
    assert Ascii("data: ") + (data + [LF] + ([LF] + t)) == b;
    DataFirst(data + [LF] + ([LF] + t));
    assert ([LF] + t)[1..] == t;
  }

  lemma {:induction false} Typed(b: bytes, event: bytes, data: bytes, t: bytes, tail: bytes)
    requires b == Ascii("event: ") + event + [LF] + tail && tail == Ascii("data: ") + data + [LF] + ([LF] + t)
    ensures ReadEvent(b) == Some((event, data, t)) <==> LF !in event && LF !in data
  {
    LineOf(Ascii("event: "), event, tail);
    LineOf(Ascii("data: "), data, [LF] + t);
    assert ([LF] + t)[1..] == t;
  }

  /** Such as one whose data is two lines. */
  lemma {:induction false} TwoLinesAreLost(t: bytes)
    ensures ReadEvent(Sending(SendSse([], Ascii("a\nb"))) + t) != Some(([], Ascii("a\nb"), t))
  {
    assert Ascii("a\nb")[1] == LF;
    EventsAreRead([], Ascii("a\nb"), t);
  }

  // ---- atomic handlers ----

  /** The response that is sent: the handler's, or an error in its place. */
  function Answer(ok: bool, failed: bool, res: Response): Response
  {
    if !ok then Response(400, Ascii("text/plain"), Ascii("bad request"))
    else if failed then Response(500, Ascii("application/json"), Ascii("{\"error\":\"controller error\"}"))
    else res
  }

  /** The frames of an atomic reply; a response that cannot be encoded is not sent. */
  function AtomicReply(id: nat, ok: bool, failed: bool, res: Response, headers: bytes): seq<Frame>
  {
    var r := Answer(ok, failed, res);
    var extra := if ok then headers else [];
    if |r.ctype| > 0xFFFF || |extra| > 0xFFFF then []
    else [NewFrame(RESPONSE, id, PutResponse(r, if extra == [] then [] else Slice16(extra)))]
  }

  /** A request that does not decode is a 400, a handler that fails a 500, and otherwise its response is the answer. */
  lemma {:induction false} AnswerIs(ok: bool, failed: bool, res: Response)
    ensures !ok ==> Answer(ok, failed, res).status == 400
    ensures ok && failed ==> Answer(ok, failed, res).status == 500
    ensures ok && !failed ==> Answer(ok, failed, res) == res
  {
  }

  /** Exactly one RESPONSE, carrying the answer, exactly when the content type and the headers fit their 16-bit
      lengths. */
  lemma {:induction false} AtomicGrammar(id: nat, ok: bool, failed: bool, res: Response, headers: bytes)
    requires |headers| <= 512 && res.status < 0x1_0000 && |res.body| < 0x1_0000_0000
    ensures WellFormed(AtomicReply(id, ok, failed, res, headers), id) <==> (ok && !failed ==> Short(res.ctype))
    ensures (ok && !failed ==> Short(res.ctype)) ==>
      DecodeResponseEx(AtomicReply(id, ok, failed, res, headers)[0].payload)
      == Some((Answer(ok, failed, res), if ok then headers else []))
  {
    if ok && !failed ==> Short(res.ctype) {
      ResponseCompatibility(Answer(ok, failed, res), if ok then headers else []);
    }
  }

  // ---- the calls as they run ----

  /** ntc_stream over a socket that has taken `out`. */
  class Stream {
    const id: nat
    var begun: bool
    var ended: bool
    var out: bytes
    ghost var frames: seq<Frame>

    ghost predicate Valid()
      reads this
    {
      out == Incremental.PutAll(PutFrame, frames)
    }

    ghost function State(): Flags
      reads this
    {
      Flags(begun, ended)
    }

    constructor (id: nat)
      ensures Valid() && this.id == id && State() == FRESH && frames == []
    {
      this.id, begun, ended, out, frames := id, false, false, [], [];
    }

    /** send_frame: the header, then the payload. */
    method Send(kind: byte, payload: bytes)
      requires Valid()
      modifies `out, `frames
      ensures Valid() && frames == old(frames) + [NewFrame(kind, id, payload)]
    {
      Incremental.PutAllSnoc(PutFrame, frames, NewFrame(kind, id, payload));
      Assoc(out, Header(kind, id, |payload|), payload);
      out := out + Header(kind, id, |payload|);
      if |payload| > 0 { out := out + payload; }
      frames := frames + [NewFrame(kind, id, payload)];
    }

    method Begin(c: Call) returns (rc: int)
      requires Valid() && (c.Open? || c.OpenSse?)
      modifies `out, `frames, `begun
      ensures Valid() && State() == Do(old(State()), id, c).0 && frames == old(frames) + Do(old(State()), id, c).1
      ensures rc == if Do(old(State()), id, c).1 == [] then -1 else 0
    {
      var payload := PutBegin(Opening(c));
      rc := -1;
      if begun || ended || |payload| > BEGIN_BUF || |Opening(c).ctype| > 0xFFFF {
        assert frames + [] == frames;
      } else {
        begun := true;
        Send(RESPONSE_BEGIN, payload);
        rc := 0;
      }
    }

    /** ntc_stream_write: the frame header and the length in one write, the data in another. */
    method Write(data: bytes) returns (rc: int)
      requires Valid()
      modifies `out, `frames
      ensures Valid() && frames == old(frames) + DoWrite(State(), id, data).1
      ensures rc == if begun && !ended && |data| <= MAX_CHUNK then 0 else -1
    {
      assert frames + [] == frames;
      if !begun || ended { return -1; }
      if |data| == 0 { return 0; }
      if |data| > MAX_CHUNK { return -1; }
      Incremental.PutAllSnoc(PutFrame, frames, NewFrame(RESPONSE_CHUNK, id, Slice32(data)));
      Joins(out, Header(RESPONSE_CHUNK, id, |data| + 4), U32(|data|), data);
      out := out + (Header(RESPONSE_CHUNK, id, |data| + 4) + U32(|data|));
      out := out + data;
      frames := frames + [NewFrame(RESPONSE_CHUNK, id, Slice32(data))];
      rc := 0;
    }

    method End() returns (rc: int)
      requires Valid()
      modifies `out, `frames, `ended
      ensures Valid() && State() == Do(old(State()), id, Call.End).0 && rc == 0
      ensures frames == old(frames) + Do(old(State()), id, Call.End).1
    {
      assert frames + [] == frames;
      if !ended {
        ended := true;
        Send(RESPONSE_END, []);
      }
      rc := 0;
    }

    /** What the serve loop does after the handler returned. */
    method Conclude(ok: bool, failed: bool)
      requires Valid()
      modifies this
      ensures Valid() && frames == old(frames) + Finish(old(State()), id, ok, failed)
    {
      assert frames + [] == frames;
      if begun {
        if !ended { var _ := End(); }
      } else {
        Send(RESPONSE, PutResponse(OneShot(ok, failed), []));
      }
    }

    method Perform(c: Call) returns (rc: int)
      requires Valid()
      modifies this
      ensures Valid() && State() == Do(old(State()), id, c).0 && frames == old(frames) + Do(old(State()), id, c).1
    {
      match c
      case End => rc := End();
      case Write(_) => rc := Write(Sending(c));
      case SendSse(_, _) => rc := Write(Sending(c));
      case _ => rc := Begin(c);
    }
  }

  lemma {:induction false} Joins(o: bytes, h: bytes, n: bytes, d: bytes)
    ensures o + (h + n) + d == o + (h + (n + d))
  {
  }

  /** One REQUEST under a streaming handler: the bytes on the socket are those of the frames of the reply. */
  method Serve(id: nat, ok: bool, calls: seq<Call>, failed: bool) returns (out: bytes)
    ensures out == Incremental.PutAll(PutFrame, Reply(id, ok, calls, failed))
  {
    var s := new Stream(id);
    ghost var all := Run(FRESH, id, calls);
    var none: seq<Frame> := [];
    assert none + all.1 == all.1;
    if ok {
      var i := 0;
      while i < |calls|
        invariant 0 <= i <= |calls| && s.Valid() && s.id == id && fresh(s)
        invariant all.0 == Run(s.State(), id, calls[i..]).0 && all.1 == s.frames + Run(s.State(), id, calls[i..]).1
      {
        ghost var f, was := s.State(), s.frames;
        var _ := s.Perform(calls[i]);
        Assoc(was, Do(f, id, calls[i]).1, Run(s.State(), id, calls[i + 1..]).1);
        assert calls[i..][1..] == calls[i + 1..];
        i := i + 1;
      }
      assert calls[i..] == [] && s.frames + [] == s.frames;
    }
    ghost var f, before := s.State(), s.frames;
    s.Conclude(ok, failed);
    assert before == [] ==> before + Finish(f, id, ok, failed) == Finish(f, id, ok, failed);
    out := s.out;
  }
}
