/** A WebSocket client, written from sections 5.2 and 5.3 of RFC 6455 alone: how it reads the gateway's frames, of any
    size, and what the gateway makes of the frames it sends. */
module WsPeer {
  import opened Bytes
  import opened Incremental
  import Wire
  import Ws

  /** How many bytes of extended length follow a length of seven bits. */
  function Extended(l: nat): nat { if l < 126 then 0 else if l == 126 then 2 else 8 }

  /** One unmasked frame off the front; a server must not mask. */
  function ClientRead(b: bytes): Step<Ws.WsFrame>
  {
    if |b| < 2 then More
    else if b[1] >= 128 then Bad
    else
      var w := Extended(b[1]);
      if |b| < 2 + w then More else
      var len := if w == 0 then b[1] else Wire.BigEndian(b[2..2 + w]);
      if |b| < 2 + w + len then More
      else Item(Ws.WsFrame(b[0] >= 128, b[0] % 16, b[2 + w..2 + w + len]), 2 + w + len)
  }

  /** The verdict is final. */
  lemma {:induction false} ClientReadIsFinal()
    ensures Final(ClientRead)
  {
    forall b, t | !ClientRead(b).More? ensures ClientRead(b + t) == ClientRead(b) { ClientReadPrefix(b, t); }
  }

  lemma {:induction false} ClientReadPrefix(b: bytes, t: bytes)
    requires !ClientRead(b).More?
    ensures ClientRead(b + t) == ClientRead(b)
  {
    if b[1] < 128 {
      var w := Extended(b[1]);
      assert (b + t)[2..2 + w] == b[2..2 + w];
      var len := if w == 0 then b[1] else Wire.BigEndian(b[2..2 + w]);
      assert (b + t)[2 + w..2 + w + len] == b[2 + w..2 + w + len];
    }
  }

  /** A complete server frame, as the gateway prints it. */
  function Printed(f: Ws.WsFrame): bytes { Ws.Encode(f.op, f.payload) }

  ghost predicate Printable(f: Ws.WsFrame) { f.fin && f.op < 16 && |f.payload| < 0x1_0000_0000_0000_0000 }

  lemma {:induction false} ReadLayout(h0: byte, h1: byte, g: bytes, data: bytes, u: bytes)
    requires h1 < 128 && |g| == Extended(h1) && |data| == if g == [] then h1 else Wire.BigEndian(g)
    ensures ClientRead([h0, h1] + g + data + u) == Item(Ws.WsFrame(h0 >= 128, h0 % 16, data), 2 + |g| + |data|)
  {
    var b, w := [h0, h1] + g + data + u, |g|;
    assert b[2..2 + w] == g && b[2 + w..2 + w + |data|] == data;
  }

  /** The client reads back every frame the gateway prints, in all three length forms. */
  lemma {:induction false} FramesAreRead(f: Ws.WsFrame)
    requires Printable(f)
    ensures Reads(ClientRead, Printed, f)
  {
    var field := Ws.LengthField(|f.payload|);
    LengthIsRead(|f.payload|);
    forall u ensures ClientRead(Printed(f) + u) == Item(f, |Printed(f)|) {
      ReadLayout(128 + f.op % 16, field[0], field[1..], f.payload, u);
    }
  }

  lemma {:induction false} LengthIsRead(len: nat)
    requires len < 0x1_0000_0000_0000_0000
    ensures var f := Ws.LengthField(len);
      |f[1..]| == Extended(f[0]) && len == if f[1..] == [] then f[0] else Wire.BigEndian(f[1..])
  {
    if len > 0xFFFF {
      Wire.BigEndian64(len);
      assert ([127] + Wire.U64(len))[1..] == Wire.U64(len);
    } else if len > 125 {
      Wire.BigEndian16(len);
      assert ([126] + Wire.U16(len))[1..] == Wire.U16(len);
    }
  }

  /** From the bytes of some frames, cut anywhere, the client has read the first of them, and all once all are there. */
  lemma {:induction false} ClientReads(fs: seq<Ws.WsFrame>, b: bytes)
    requires (forall i :: 0 <= i < |fs| ==> Printable(fs[i])) && b <= PutAll(Printed, fs)
    ensures ParseAll(ClientRead, b).items <= fs
    ensures b == PutAll(Printed, fs) ==> ParseAll(ClientRead, b) == Parsed(fs, [], false)
  {
    var all := PutAll(Printed, fs);
    ClientReadIsFinal();
    forall i | 0 <= i < |fs| ensures Reads(ClientRead, Printed, fs[i]) { FramesAreRead(fs[i]); }
    ReadBack(ClientRead, Printed, fs, []);
    assert all + [] == all && fs + [] == fs;
    assert b + all[|b|..] == all;
    ParsePrefix(ClientRead, b, all[|b|..]);
  }

  // ---- what the client sends ----

  /** What the gateway must make of a client's frame. */
  function Meant(op: byte, data: bytes): Option<Ws.Action>
  {
    if op == 8 then None
    else if op == 9 then Some(Ws.PongBack(if |data| <= 125 then data else []))
    else if op == 10 then Some(Ws.Ignored)
    else Some(Ws.ToController(if op == 2 then 2 else 1, data))
  }

  /** A masked frame with any key, sent by a client: text and binary messages go to the controller as such, a ping is
      answered with its data, a pong is ignored, and a close ends the connection. */
  lemma {:induction false} ClientFrame(op: byte, data: bytes, key: bytes, t: bytes)
    requires op < 16 && |data| <= Ws.MAX_PAYLOAD && |key| == 4
    ensures |Ws.Encode(op, data)| >= 2 && Ws.Encode(op, data)[1] < 128 && Ws.Length(Ws.Encode(op, data)).Some?
    ensures var b := Ws.Masked(Ws.Encode(op, data), key);
      match Meant(op, data)
      case Some(a) => Ws.RelayNext(b + t) == Item(a, |b|)
      case None => Ws.RelayNext(b + t).Bad?
  {
    Ws.MaskedRoundTrip(op, data, key, t);
  }
}
