/** WebSocket frames (sections 5.2 and 5.3 of RFC 6455): header forms, masking in place, and the relay's reader. */
module Ws {
  import opened Bytes
  import opened Bits
  import opened Incremental
  import opened Wire
  import opened Framing

  const MAX_PAYLOAD := 1024 * 1024
  const CONN_RBUF := 64 * 1024
  const TEXT := 1
  const BIN := 2
  const CLOSE := 8
  const PING := 9
  const PONG := 10

  datatype WsFrame = WsFrame(fin: bool, op: byte, payload: bytes)

  /** What the first bytes of a frame say; `off` is where the payload starts. */
  datatype Head = Short | TooBig | Head(fin: bool, op: byte, mask: Option<bytes>, off: nat, len: nat)

  /** The length field: its value and where it ends. */
  function Length(b: bytes): (r: Option<(nat, nat)>)
    requires |b| >= 2
    ensures r.Some? ==> 2 <= r.value.1 <= |b|
  {
    var l := b[1] % 128;
    if l == 126 then (if |b| < 4 then None else Some((GetU16(b[2..4]), 4)))
    else if l == 127 then (if |b| < 10 then None else Some((GetU64(b[2..10]), 10)))
    else Some((l, 2))
  }

  function ParseHead(b: bytes): (h: Head)
    ensures h.Head? ==> 2 <= h.off <= |b| && h.len <= MAX_PAYLOAD && (h.mask.Some? ==> |h.mask.value| == 4)
  {
    if |b| < 2 || Length(b).None? then Short else
    var (len, off) := Length(b).value;
    var fin, op := b[0] >= 128, b[0] % 16;
    if len > MAX_PAYLOAD then TooBig
    else if b[1] < 128 then Head(fin, op, None, off, len)
    else if |b| < off + 4 then Short
    else Head(fin, op, Some(b[off..off + 4]), off + 4, len)
  }

  function Unmask(data: bytes, mask: Option<bytes>): bytes
    requires mask.Some? ==> |mask.value| == 4
  {
    if mask.None? then data else XorKey(data, mask.value)
  }

  /** The decoder, as a verdict on the bytes held so far. */
  function Decode(b: bytes): Step<WsFrame>
  {
    match ParseHead(b)
    case Short => More
    case TooBig => Bad
    case Head(fin, op, mask, off, len) =>
      if |b| < off + len then More
      else Item(WsFrame(fin, op, Unmask(b[off..off + len], mask)), off + len)
  }

  lemma {:induction false} SlicePrefix(b: bytes, t: bytes, i: nat, j: nat)
    requires i <= j <= |b|
    ensures (b + t)[i..j] == b[i..j]
  {
  }

  lemma {:induction false} HeadPrefix(b: bytes, t: bytes)
    requires !ParseHead(b).Short?
    ensures ParseHead(b + t) == ParseHead(b)
  {
    if |b| >= 4 { SlicePrefix(b, t, 2, 4); }
    if |b| >= 10 { SlicePrefix(b, t, 2, 10); }
    assert Length(b + t) == Length(b);
    var off := Length(b).value.1;
    if |b| >= off + 4 { SlicePrefix(b, t, off, off + 4); }
  }

  lemma {:induction false} DecodePrefix(b: bytes, t: bytes)
    requires !Decode(b).More?
    ensures Decode(b + t) == Decode(b)
  {
    HeadPrefix(b, t);
    var h := ParseHead(b);
    if h.Head? {
      assert (b + t)[h.off..h.off + h.len] == b[h.off..h.off + h.len];
    }
  }

  // ---- encoding ----

  function LengthField(len: nat): (r: bytes)
    ensures |r| in {1, 3, 9} && r[0] < 128
  {
    if len > 0xFFFF then [127] + U64(len) else if len > 125 then [126] + U16(len) else [len]
  }

  /** An unmasked server frame with FIN set. */
  function Encode(op: byte, data: bytes): bytes
  {
    var f := LengthField(|data|);
    [128 + op % 16, f[0]] + f[1..] + data
  }

  /** The client's form of a server frame: mask bit set, key after the length field, payload under the key. */
  function Masked(frame: bytes, key: bytes): bytes
    requires |frame| >= 2 && frame[1] < 128 && |key| == 4 && Length(frame).Some?
  {
    var off := Length(frame).value.1;
    [frame[0], frame[1] + 128] + frame[2..off] + key + XorKey(frame[off..], key)
  }

  /** A buffer that starts like an encoded frame, mask bit apart, has that frame's length field. */
  lemma {:induction false} LengthOfEncoded(len: nat, h0: byte, h1: byte, rest: bytes)
    requires len <= MAX_PAYLOAD && h1 % 128 == LengthField(len)[0]
    ensures Length([h0, h1] + LengthField(len)[1..] + rest) == Some((len, 1 + |LengthField(len)|))
  {
    var b := [h0, h1] + LengthField(len)[1..] + rest;
    if len > 0xFFFF {
      assert b[2..10] == U64(len);
      GetPut64(len);
    } else if len > 125 {
      assert b[2..4] == U16(len) + [];
      GetPut16(len, []);
    }
  }

  lemma {:induction false} DecodeIs(b: bytes, len: nat, off: nat, key: Option<bytes>, start: nat)
    requires |b| >= 2 && Length(b) == Some((len, off)) && len <= MAX_PAYLOAD
    requires key.Some? <==> b[1] >= 128
    requires key.Some? ==> |key.value| == 4 && |b| >= off + 4 && b[off..off + 4] == key.value
    requires start == (if key.Some? then off + 4 else off) && |b| >= start + len
    ensures Decode(b) == Item(WsFrame(b[0] >= 128, b[0] % 16, Unmask(b[start..start + len], key)), start + len)
  {
  }

  /** A buffer laid out as header, length tail g, key and data decodes to the unmasked data. */
  lemma {:induction false} DecodeLayout(h0: byte, h1: byte, g: bytes, key: Option<bytes>, data: bytes, t: bytes)
    requires key.Some? <==> h1 >= 128
    requires key.Some? ==> |key.value| == 4
    requires |data| <= MAX_PAYLOAD
    requires Length([h0, h1] + g + (Key(key) + data + t)) == Some((|data|, 2 + |g|))
    ensures Decode([h0, h1] + g + (Key(key) + data + t))
         == Item(WsFrame(h0 >= 128, h0 % 16, Unmask(data, key)), 2 + |g| + |Key(key)| + |data|)
  {
    var p, k := [h0, h1] + g, Key(key);
    Middle(p, k, data + t);
    Middle(p + k, data, t);
    var b := p + (k + data + t);
    Assoc(k, data, t);
    Assoc(p, k, data + t);
    DecodeIs(b, |data|, 2 + |g|, key, 2 + |g| + |k|);
  }

  lemma {:induction false} Middle(p: bytes, m: bytes, t: bytes)
    ensures (p + (m + t))[|p|..|p| + |m|] == m
  {
  }

  function Key(key: Option<bytes>): bytes { if key.Some? then key.value else [] }

  /** What the round trips need of a length field `f` for payloads of `len` bytes. */
  ghost predicate Field(f: bytes, len: nat)
  {
    && f != [] && f[0] < 128
    && forall h0: byte, h1: byte, rest: bytes :: h1 % 128 == f[0] ==>
         Length([h0, h1] + f[1..] + rest) == Some((len, 1 + |f|))
  }

  lemma {:induction false} EncodedShape(op: byte, data: bytes) returns (h0: byte, f: bytes)
    requires op < 16 && |data| <= MAX_PAYLOAD
    ensures h0 >= 128 && h0 % 16 == op && Field(f, |data|) && Encode(op, data) == [h0, f[0]] + f[1..] + data
  {
    h0, f := 128 + op % 16, LengthField(|data|);
    forall h0: byte, h1: byte, rest: bytes | h1 % 128 == f[0]
      ensures Length([h0, h1] + f[1..] + rest) == Some((|data|, 1 + |f|))
    {
      LengthOfEncoded(|data|, h0, h1, rest);
    }
  }

  lemma {:induction false} DecodeShape(h0: byte, f: bytes, key: Option<bytes>, data: bytes, t: bytes)
    requires |data| <= MAX_PAYLOAD && Field(f, |data|) && (key.Some? ==> |key.value| == 4)
    ensures Decode([h0, if key.Some? then f[0] + 128 else f[0]] + f[1..] + (Key(key) + data + t))
         == Item(WsFrame(h0 >= 128, h0 % 16, Unmask(data, key)), 1 + |f| + |Key(key)| + |data|)
  {
    DecodeLayout(h0, if key.Some? then f[0] + 128 else f[0], f[1..], key, data, t);
  }

  lemma {:induction false} MaskedShape(e: bytes, h0: byte, f: bytes, data: bytes, key: bytes)
    requires Field(f, |data|) && |key| == 4 && e == [h0, f[0]] + f[1..] + data
    ensures |e| >= 2 && e[1] < 128 && Length(e) == Some((|data|, 1 + |f|))
    ensures Masked(e, key) == [h0, f[0] + 128] + f[1..] + (key + XorKey(data, key))
  {
    var off := 1 + |f|;
    assert e[2..off] == f[1..] && e[off..] == data;
  }

  lemma {:induction false} MaskedDecodes(e: bytes, h0: byte, f: bytes, data: bytes, key: bytes, t: bytes)
    requires |data| <= MAX_PAYLOAD && Field(f, |data|) && |key| == 4 && e == [h0, f[0]] + f[1..] + data
    ensures |e| >= 2 && e[1] < 128 && Length(e).Some?
    ensures Decode(Masked(e, key) + t) == Item(WsFrame(h0 >= 128, h0 % 16, data), |Masked(e, key)|)
  {
    var x, p := XorKey(data, key), [h0, f[0] + 128] + f[1..];
    MaskedShape(e, h0, f, data, key);
    assert p + (key + x) + t == p + (key + x + t);
    DecodeShape(h0, f, Some(key), x, t);
    XorKeyTwice(data, key);
  }

  /** All three length forms: a frame that was encoded, and then masked under any key, decodes to its payload. */
  lemma {:induction false} MaskedRoundTrip(op: byte, data: bytes, key: bytes, t: bytes)
    requires op < 16 && |data| <= MAX_PAYLOAD && |key| == 4
    ensures |Encode(op, data)| >= 2 && Encode(op, data)[1] < 128 && Length(Encode(op, data)).Some?
    ensures Decode(Masked(Encode(op, data), key) + t)
         == Item(WsFrame(true, op, data), |Masked(Encode(op, data), key)|)
  {
    var h0, f := EncodedShape(op, data);
    MaskedDecodes(Encode(op, data), h0, f, data, key, t);
  }

  lemma {:induction false} PlainDecodes(e: bytes, h0: byte, f: bytes, data: bytes, t: bytes)
    requires |data| <= MAX_PAYLOAD && Field(f, |data|) && e == [h0, f[0]] + f[1..] + data
    ensures Decode(e + t) == Item(WsFrame(h0 >= 128, h0 % 16, data), |e|)
  {
    assert e + t == [h0, f[0]] + f[1..] + (Key(None) + data + t);
    DecodeShape(h0, f, None, data, t);
  }

  /** A server frame decodes to its payload. */
  lemma {:induction false} EncodeRoundTrip(op: byte, data: bytes, t: bytes)
    requires op < 16 && |data| <= MAX_PAYLOAD
    ensures Decode(Encode(op, data) + t) == Item(WsFrame(true, op, data), |Encode(op, data)|)
  {
    var h0, f := EncodedShape(op, data);
    PlainDecodes(Encode(op, data), h0, f, data, t);
  }

  // ---- the decoder on the caller's buffer ----

  lemma {:induction false} SubSlice(s: bytes, from: nat, to: nat, i: nat, j: nat)
    requires from <= to <= |s| && i <= j <= to - from
    ensures s[from..to][i..j] == s[from + i..from + j]
  {
    var m := s[from..to];
    assert forall k :: 0 <= k < |m| ==> m[k] == s[from + k];
    assert forall k :: 0 <= k < j - i ==> m[i..j][k] == m[i + k];
  }

  /** Unmask buf[from..from + n] in place. */
  method UnmaskInPlace(buf: array<byte>, from: nat, n: nat, mask: bytes)
    requires from + n <= buf.Length && |mask| == 4
    modifies buf
    ensures buf[from..from + n] == XorKey(old(buf[from..from + n]), mask)
    ensures forall k :: 0 <= k < buf.Length && !(from <= k < from + n) ==> buf[k] == old(buf[k])
  {
    var i := 0;
    while i < n
      invariant i <= n
      invariant forall k :: 0 <= k < i ==> buf[from + k] == Xor(old(buf[from + k]), mask[k % 4])
      invariant forall k :: 0 <= k < buf.Length && !(from <= k < from + i) ==> buf[k] == old(buf[k])
    {
      buf[from + i] := Xor(buf[from + i], mask[i % 4]);
      i := i + 1;
    }
  }

  /** Decode one frame of buf[from..to]: 1 with the frame, 0 to wait, -1 on a protocol error. Only a complete frame's
      payload is touched: whatever is not consumed stays as it was received. */
  method DecodeInPlace(buf: array<byte>, from: nat, to: nat) returns (r: int, consumed: nat, frame: WsFrame)
    requires from <= to <= buf.Length
    modifies buf
    ensures r in {-1, 0, 1}
    ensures r == 0 <==> Decode(old(buf[from..to])).More?
    ensures r == -1 <==> Decode(old(buf[from..to])).Bad?
    ensures r == 1 ==> consumed <= to - from && Item(frame, consumed) == Decode(old(buf[from..to]))
    ensures r != 1 ==> unchanged(buf)
    ensures r == 1 ==> forall k :: 0 <= k < buf.Length && !(from <= k < from + consumed) ==> buf[k] == old(buf[k])
  {
    var b := buf[from..to];
    frame, consumed := WsFrame(false, 0, []), 0;
    var h := ParseHead(b);
    if h.Short? { return 0, consumed, frame; }
    if h.TooBig? { return -1, consumed, frame; }
    if |b| < h.off + h.len { return 0, consumed, frame; }
    SubSlice(buf[..], from, to, h.off, h.off + h.len);
    if h.mask.Some? {
      UnmaskInPlace(buf, from + h.off, h.len, h.mask.value);
    }
    frame := WsFrame(h.fin, h.op, buf[from + h.off..from + h.off + h.len]);
    consumed := h.off + h.len;
    r := 1;
  }

  lemma {:induction false} Pieces(s: bytes, h: byte, field: bytes, data: bytes)
    requires field != [] && |s| == 1 + |field| + |data| && s[0] == h
    requires forall i :: 0 <= i < |field| ==> s[1 + i] == field[i]
    requires forall i :: 0 <= i < |data| ==> s[1 + |field| + i] == data[i]
    ensures s == [h, field[0]] + field[1..] + data
  {
  }

  /** Encode into a caller's buffer of capacity cap. */
  method EncodeInto(op: byte, data: bytes, out: array<byte>, cap: nat) returns (n: int)
    requires cap <= out.Length
    modifies out
    ensures n == (if |Encode(op, data)| <= cap then |Encode(op, data)| else -1)
    ensures n >= 0 ==> out[..n] == Encode(op, data)
    ensures forall k :: (if n < 0 then 0 else n) <= k < out.Length ==> out[k] == old(out[k])
  {
    var len := |data|;
    var hdr := if len > 0xffff then 10 else if len > 125 then 4 else 2;
    if cap < hdr + len { return -1; }
    var field := LengthField(len);
    out[0] := 128 + op % 16;
    forall i | 0 <= i < |field| { out[1 + i] := field[i]; }
    forall i | 0 <= i < len { out[hdr + i] := data[i]; }
    n := hdr + len;
    Pieces(out[..n], 128 + op % 16, field, data);
  }

  // ---- the relay's reader: client frames to the controller ----

  datatype Action = ToController(op: byte, data: bytes) | PongBack(data: bytes) | Ignored

  function Act(f: WsFrame): Action
  {
    if f.op == PING then PongBack(if |f.payload| > 125 then [] else f.payload)
    else if f.op == PONG then Ignored
    else ToController(if f.op == BIN then BIN else TEXT, f.payload)
  }

  /** One frame off the front and what the relay does with it; a close frame ends the connection like a bad one. */
  function RelayNext(b: bytes): Step<Action>
  {
    match Decode(b)
    case More => More
    case Bad => Bad
    case Item(f, n) => if f.op == CLOSE then Bad else Item(Act(f), n)
  }

  lemma {:induction false} RelayNextIsFinal()
    ensures Final(RelayNext)
  {
    forall b, t | !Decode(b).More? ensures Decode(b + t) == Decode(b) { DecodePrefix(b, t); }
  }

  /** Whatever recv batches a client's bytes arrive in, as long as none fills the 64 KiB buffer, the relay acts on the
      same messages and ends the connection at the same frame. */
  lemma {:induction false} RelayIgnoresBatching(events: seq<seq<Recv>>)
    requires Survives(CONN_RBUF - 1, RelayNext, Parsed([], [], false), events)
    ensures ReadEvents(CONN_RBUF - 1, RelayNext, Parsed([], [], false), events)
         == ParseAll(RelayNext, Concat(Batches(events)))
  {
    EventsAreFeeds(CONN_RBUF - 1, RelayNext, Parsed([], [], false), events);
    assert Final(RelayNext) by { RelayNextIsFinal(); }
    SplitInvariance(RelayNext, [], Batches(events));
    assert [] + Concat(Batches(events)) == Concat(Batches(events));
  }

  /** A WebSocket connection's read side: the fixed buffer is unmasked in place, frame by frame. */
  class WsReader {
    const rbuf: array<byte>
    var rlen: nat
    var closed: bool
    var actions: seq<Action>

    ghost predicate Valid()
      reads this
    {
      rlen < CONN_RBUF == rbuf.Length
    }

    ghost function View(): Parsed<Action>
      requires Valid()
      reads this, rbuf
    {
      Parsed(actions, if closed then [] else rbuf[..rlen], closed)
    }

    constructor ()
      ensures Valid() && View() == Parsed([], [], false)
    {
      rbuf := new byte[CONN_RBUF](_ => 0);
      rlen, closed, actions := 0, false, [];
    }

    /** The recv loop; false when the connection ends in it. */
    method Fill(recvs: seq<Recv>) returns (ok: bool)
      requires Valid()
      modifies `rlen, rbuf
      ensures Valid()
      ensures ok == Gather(CONN_RBUF - 1, old(rbuf[..rlen]), recvs).Some?
      ensures ok ==> rbuf[..rlen] == Gather(CONN_RBUF - 1, old(rbuf[..rlen]), recvs).value
    {
      var i := 0;
      assert recvs[0..] == recvs;
      while i < |recvs| && !recvs[i].Again?
        invariant i <= |recvs| && Valid()
        invariant Gather(CONN_RBUF - 1, old(rbuf[..rlen]), recvs) == Gather(CONN_RBUF - 1, rbuf[..rlen], recvs[i..])
      {
        assert recvs[i..][1..] == recvs[i + 1..];
        match recvs[i] {
          case Got(d) =>
            if d == [] || rlen + |d| >= CONN_RBUF { return false; }
            ghost var was := rbuf[..rlen];
            forall k | 0 <= k < |d| { rbuf[rlen + k] := d[k]; }
            rlen := rlen + |d|;
            assert rbuf[..rlen] == was + d;
          case Retry =>
          case _ => return false;
        }
        i := i + 1;
      }
      ok := true;
    }

    /** Decode the frame at `off` and act on it: 1 when it was consumed, 0 to wait, -1 when the connection closes.
        Seen from outside, `all` stays what acting on the whole buffer gives. */
    method RelayOne(off: nat, ghost rest: bytes, ghost all: Parsed<Action>) returns (r: int, consumed: nat)
      requires Valid() && !closed && off <= rlen && rbuf[off..rlen] == rest
      requires Left(all, actions, rest)
      modifies `actions, rbuf
      ensures r in {-1, 0, 1}
      ensures r == -1 ==> all == Parsed(actions, [], true)
      ensures r == 0 ==> unchanged(rbuf) && all == Parsed(actions, rest, false)
      ensures r == 1 ==> 0 < consumed <= |rest| && rbuf[off + consumed..rlen] == rest[consumed..]
                         && Left(all, actions, rest[consumed..])
    {
      LeftStep(all, actions, rest);
      var frame;
      r, consumed, frame := DecodeInPlace(rbuf, off, rlen);
      if r == 1 {
        if frame.op == CLOSE { return -1, consumed; }
        actions := actions + [Act(frame)];
        assert forall k :: off + consumed <= k < rlen ==> rbuf[k] == rest[k - off];
      }
    }

    /** The relay loop: decode and act, then move what is left to the front. */
    method Relay(ghost all: Parsed<Action>)
      requires Valid() && !closed && Left(all, actions, rbuf[..rlen])
      modifies this, rbuf
      ensures Valid() && View() == all
    {
      ghost var rest := rbuf[..rlen];
      var off := 0;
      while off < rlen
        invariant 0 <= off <= rlen && rlen == old(rlen) && Valid() && !closed
        invariant rbuf[off..rlen] == rest
        invariant Left(all, actions, rest)
      {
        var r, consumed := RelayOne(off, rest, all);
        if r == 0 { break; }
        if r < 0 { closed := true; return; }
        off := off + consumed;
        rest := rest[consumed..];
      }
      Finish(off, rest, all);
    }

    /** What is left waits at the front of the buffer. */
    method Finish(off: nat, ghost rest: bytes, ghost all: Parsed<Action>)
      requires Valid() && !closed && off <= rlen && rbuf[off..rlen] == rest
      requires if off == rlen then Left(all, actions, rest) else all == Parsed(actions, rest, false)
      modifies `rlen, rbuf
      ensures Valid() && View() == all
    {
      if off == rlen { NothingLeft(all, actions); }
      Compact(off);
    }

    method Compact(off: nat)
      requires Valid() && off <= rlen
      modifies `rlen, rbuf
      ensures Valid() && rbuf[..rlen] == old(rbuf[off..rlen])
    {
      forall k | 0 <= k < rlen - off { rbuf[k] := rbuf[off + k]; }
      rlen := rlen - off;
    }

    method OnReadable(recvs: seq<Recv>)
      requires Valid() && !closed
      modifies this, rbuf
      ensures Valid()
      ensures View() == ReadEvent(CONN_RBUF - 1, RelayNext, old(View()), recvs)
    {
      var ok := Fill(recvs);
      if !ok { closed := true; return; }
      Relay(Before(actions, ParseAll(RelayNext, rbuf[..rlen])));
    }
  }

  /** Acting on `rest` after `actions` is what acting on everything gives. */
  ghost predicate Left(all: Parsed<Action>, actions: seq<Action>, rest: bytes)
  {
    all == Before(actions, ParseAll(RelayNext, rest))
  }

  lemma {:induction false} LeftStep(all: Parsed<Action>, actions: seq<Action>, rest: bytes)
    requires Left(all, actions, rest)
    ensures Decode(rest).More? ==> all == Parsed(actions, rest, false)
    ensures Decode(rest).Bad? ==> all == Parsed(actions, [], true)
    ensures Decode(rest).Item? ==>
      var f, n := Decode(rest).value, Decode(rest).size;
      0 < n <= |rest| && if f.op == CLOSE then all == Parsed(actions, [], true)
                         else Left(all, actions + [Act(f)], rest[n..])
  {
    assert Progress(RelayNext) by { RelayNextIsFinal(); }
    TakeStep(RelayNext, actions, rest);
  }

  lemma {:induction false} NothingLeft(all: Parsed<Action>, actions: seq<Action>)
    requires Left(all, actions, [])
    ensures all == Parsed(actions, [], false)
  {
    assert actions + [] == actions;
  }
}
