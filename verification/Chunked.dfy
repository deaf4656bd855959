/** Chunked transfer coding (section 7.1 of RFC 9112): how the gateway frames a streamed body, and the loop of the
    HTTPS client that undoes it. */
module Chunked {
  import opened Bytes

  const CR: byte := 13
  const LF: byte := 10
  const CRLF: bytes := [13, 10]
  const TERMINATOR: bytes := [48, 13, 10, 13, 10]
  const LONG_MAX := 0x7FFF_FFFF_FFFF_FFFF

  function HexDigit(d: nat): byte requires d < 16 { if d < 10 then 48 + d else 87 + d }

  predicate IsHex(b: byte) { 48 <= b <= 57 || 65 <= b <= 70 || 97 <= b <= 102 }

  function HexVal(b: byte): nat requires IsHex(b) { if b <= 57 then b - 48 else if b <= 70 then b - 55 else b - 87 }

  /** printf's %zx. */
  function Hex(n: nat): (r: bytes)
    ensures r != [] && forall i :: 0 <= i < |r| ==> IsHex(r[i])
    ensures n > 0 ==> r[0] != 48
  {
    if n < 16 then [HexDigit(n)] else Hex(n / 16) + [HexDigit(n % 16)]
  }

  /** One chunk as the relay frames it. */
  function Chunk(d: bytes): bytes { Hex(|d|) + CRLF + d + CRLF }

  // ---- strtol(p, NULL, 16) ----

  predicate IsSpace(b: byte) { b == 32 || 9 <= b <= 13 }

  function SkipSpace(b: bytes): bytes
  {
    if b != [] && IsSpace(b[0]) then SkipSpace(b[1..]) else b
  }

  function Digits(b: bytes, acc: nat): nat
    decreases |b|
  {
    if b == [] || !IsHex(b[0]) then acc else Digits(b[1..], acc * 16 + HexVal(b[0]))
  }

  function Strtol(b: bytes): int
  {
    var s := SkipSpace(b);
    var neg := s != [] && s[0] == 45;
    var u := if s != [] && (s[0] == 45 || s[0] == 43) then s[1..] else s;
    var v := if |u| >= 3 && u[0] == 48 && u[1] in {120, 88} && IsHex(u[2]) then Digits(u[2..], 0) else Digits(u, 0);
    if neg then (if v > LONG_MAX then -LONG_MAX - 1 else -v) else Min(v, LONG_MAX)
  }

  /** One turn of the de-chunking loop on what lies ahead: where the chunk's data starts, its size and where the next
      turn begins; None when the loop stops. */
  function NextChunk(b: bytes): (r: Option<(nat, nat, nat)>)
    ensures r.Some? ==> var (start, size, next) := r.value;
      0 < start && 0 < size && start + size <= next <= |b|
  {
    var eol := Find(b, [LF], 0);
    if eol.None? then None else
    var size, start := Strtol(b), eol.value + 1;
    if size <= 0 || start + size > |b| then None else
    var end := start + size;
    Some((start, size, if StartsCrlf(b[end..]) then end + 2 else end))
  }

  predicate StartsCrlf(t: bytes) { |t| >= 2 && t[0] == CR && t[1] == LF }

  /** The whole loop: None when the output would not fit below cap. */
  function Dechunk(b: bytes, cap: nat, acc: bytes): Option<bytes>
    decreases |b|
  {
    match NextChunk(b)
    case None => Some(acc)
    case Some((start, size, next)) =>
      if |acc| + size >= cap then None
      else Dechunk(b[next..], cap, acc + b[start..start + size])
  }

  /** The loop as the client runs it: a cursor into the response, bytes copied to the caller's buffer. */
  method Extract(b: bytes, out: array<byte>, cap: nat) returns (n: int)
    requires 0 < cap <= out.Length
    modifies out
    ensures n == (if Dechunk(b, cap, []).None? then -1 else |Dechunk(b, cap, []).value|)
    ensures n >= 0 ==> n < cap && out[..n] == Dechunk(b, cap, []).value && out[n] == 0
    ensures forall k :: cap <= k < out.Length ==> out[k] == old(out[k])
  {
    n := ExtractLoop(b, out, cap, Dechunk(b, cap, []));
  }

  method ExtractLoop(b: bytes, out: array<byte>, cap: nat, ghost goal: Option<bytes>) returns (n: int)
    requires 0 < cap <= out.Length && Ahead(goal, b, cap, [])
    modifies out
    ensures n == (if goal.None? then -1 else |goal.value|)
    ensures n >= 0 ==> n < cap && out[..n] == goal.value && out[n] == 0
    ensures forall k :: cap <= k < out.Length ==> out[k] == old(out[k])
  {
    var rest, w, turn := b, 0, NextChunk(b);
    ghost var acc: bytes := [];
    while turn.Some? && w + turn.value.1 < cap
      invariant 0 <= w < cap && out[..w] == acc && turn == NextChunk(rest)
      invariant Ahead(goal, rest, cap, acc)
      invariant forall k :: cap <= k < out.Length ==> out[k] == old(out[k])
      decreases |rest|
    {
      DechunkTurn(goal, rest, cap, acc);
      var (start, size, next) := turn.value;
      Copy(rest, start, size, out, w);
      acc := acc + rest[start..start + size];
      w, rest := w + size, rest[next..];
      turn := NextChunk(rest);
    }
    DechunkTurn(goal, rest, cap, acc);
    n := -1;
    if turn.None? {
      out[w] := 0;
      n := w;
    }
  }

  /** Going on from `rest` with `acc` copied gives `goal`. */
  ghost predicate Ahead(goal: Option<bytes>, rest: bytes, cap: nat, acc: bytes)
  {
    goal == Dechunk(rest, cap, acc)
  }

  lemma {:induction false} DechunkTurn(goal: Option<bytes>, b: bytes, cap: nat, acc: bytes)
    requires Ahead(goal, b, cap, acc)
    ensures NextChunk(b).None? ==> goal == Some(acc)
    ensures NextChunk(b).Some? ==>
      var (start, size, next) := NextChunk(b).value;
      if |acc| + size >= cap then goal == None else Ahead(goal, b[next..], cap, acc + b[start..start + size])
  {
  }

  method Copy(src: bytes, start: nat, size: nat, out: array<byte>, w: nat)
    requires start + size <= |src| && w + size <= out.Length
    modifies out
    ensures out[..w + size] == old(out[..w]) + src[start..start + size]
    ensures forall k :: w + size <= k < out.Length ==> out[k] == old(out[k])
  {
    forall k | 0 <= k < size { out[w + k] := src[start + k]; }
  }

  // ---- de-chunking undoes chunking ----

  lemma {:induction false} DigitsThrough(s: bytes, u: bytes, acc: nat)
    requires forall i :: 0 <= i < |s| ==> IsHex(s[i])
    ensures Digits(s + u, acc) == Digits(u, Digits(s, acc))
    decreases |s|
  {
    if s == [] {
      assert s + u == u;
    } else {
      assert (s + u)[1..] == s[1..] + u;
      DigitsThrough(s[1..], u, acc * 16 + HexVal(s[0]));
    }
  }

  lemma {:induction false} HexRoundTrip(n: nat)
    ensures Digits(Hex(n), 0) == n
    decreases n
  {
    if n >= 16 {
      var d := HexDigit(n % 16);
      HexRoundTrip(n / 16);
      DigitsThrough(Hex(n / 16), [d], 0);
      assert Digits([d], n / 16) == Digits([], n / 16 * 16 + HexVal(d));
    }
  }

  /** A hexadecimal digit in upper or lower case. */
  function DigitIn(d: nat, upper: bool): byte
    requires d < 16
  {
    if d < 10 then 48 + d else if upper then 55 + d else 87 + d
  }

  /** The number that digits spell after acc. */
  function Horner(acc: nat, ds: seq<nat>): nat
    decreases |ds|
  {
    if ds == [] then acc else Horner(acc * 16 + ds[0], ds[1..])
  }

  /** Sizes may be written in either case. */
  lemma {:induction false} AnyCase(acc: nat, ds: seq<nat>, upper: seq<bool>, b: bytes)
    requires |ds| == |upper| == |b| && forall i :: 0 <= i < |ds| ==> ds[i] < 16 && b[i] == DigitIn(ds[i], upper[i])
    ensures Digits(b, acc) == Horner(acc, ds)
    decreases |ds|
  {
    if ds != [] { AnyCase(acc * 16 + ds[0], ds[1..], upper[1..], b[1..]); }
  }

  /** strtol reads back a printed size up to the CR. */
  lemma {:induction false} StrtolOfHex(n: nat, t: bytes)
    requires n <= LONG_MAX
    ensures Strtol(Hex(n) + [CR] + t) == n
  {
    var s := Hex(n) + [CR] + t;
    assert s == Hex(n) + ([CR] + t);
    assert s[0] == Hex(n)[0];
    assert SkipSpace(s) == s;
    DigitsThrough(Hex(n), [CR] + t, 0);
    HexRoundTrip(n);
    if s[0] == 48 {
      assert n == 0;
      assert s[1] == CR;
    }
  }

  lemma {:induction false} LineEnd(n: nat, t: bytes)
    ensures Find(Hex(n) + CRLF + t, [LF], 0) == Some(|Hex(n)| + 1)
  {
    var s, k := Hex(n) + CRLF + t, |Hex(n)|;
    forall i | 0 <= i < k + 1 ensures !OccursAt(s, [LF], i) {
      assert s[i] == if i < k then Hex(n)[i] else CR;
      assert s[i..i + 1] == [s[i]];
    }
    assert s[k + 1..k + 2] == [LF];
    FindIs(s, [LF], 0, k + 1);
  }

  lemma {:induction false} TurnIs(b: bytes, k: nat, n: nat, t: bytes)
    requires Find(b, [LF], 0) == Some(k) && Strtol(b) == n > 0 && k + 1 + n <= |b| && b[k + 1 + n..] == t
    ensures NextChunk(b) == Some((k + 1, n, if StartsCrlf(t) then k + 3 + n else k + 1 + n))
  {
  }

  lemma {:induction false} Layout(h: bytes, d: bytes, t: bytes)
    ensures var b, k := h + CRLF + d + t, |h| + 2; |b| >= k + |d| && b[k..k + |d|] == d && b[k + |d|..] == t
    ensures h + CRLF + d + t == h + CRLF + (d + t) == h + [CR] + ([LF] + (d + t))
  {
  }

  /** On a chunk of `d` the turn finds exactly its data, whether or not the closing CRLF has arrived. */
  lemma {:induction false} TurnOnChunk(d: bytes, t: bytes)
    requires 0 < |d| <= LONG_MAX
    ensures Takes(Hex(|d|) + CRLF + d + t, |Hex(|d|)| + 2, d, t)
  {
    SizeLine(|d|, d, t);
    TakesIf(Hex(|d|) + CRLF + d + t, Hex(|d|), d, t);
  }

  /** The turn on b finds the data d at k, and t follows it. */
  ghost predicate Takes(b: bytes, k: nat, d: bytes, t: bytes)
  {
    && k + |d| <= |b| && b[k..k + |d|] == d && b[k + |d|..] == t
    && NextChunk(b) == Some((k, |d|, if StartsCrlf(t) then k + |d| + 2 else k + |d|))
  }

  lemma {:induction false} TakesIf(b: bytes, h: bytes, d: bytes, t: bytes)
    requires b == h + CRLF + d + t && Find(b, [LF], 0) == Some(|h| + 1) && Strtol(b) == |d| > 0
    ensures Takes(b, |h| + 2, d, t)
  {
    Layout(h, d, t);
    TurnIs(b, |h| + 1, |d|, t);
  }

  lemma {:induction false} SizeLine(n: nat, d: bytes, t: bytes)
    requires n <= LONG_MAX
    ensures Find(Hex(n) + CRLF + d + t, [LF], 0) == Some(|Hex(n)| + 1) && Strtol(Hex(n) + CRLF + d + t) == n
  {
    Layout(Hex(n), d, t);
    LineEnd(n, d + t);
    StrtolOfHex(n, [LF] + (d + t));
  }

  /** One whole chunk is taken off the front. */
  lemma {:induction false} DechunkWhole(d: bytes, rest: bytes, cap: nat, acc: bytes)
    requires 0 < |d| <= LONG_MAX
    ensures Dechunk(Chunk(d) + rest, cap, acc)
         == if |acc| + |d| >= cap then None else Dechunk(rest, cap, acc + d)
  {
    var h, t := Hex(|d|), CRLF + rest;
    Assoc(h + CRLF + d, CRLF, rest);
    TurnOnChunk(d, t);
    var b, k := h + CRLF + d + t, |h| + 2;
    assert StartsCrlf(t) && t[2..] == rest;
    assert b[k + |d| + 2..] == b[k + |d|..][2..];
  }

  ghost predicate Chunkable(chunks: seq<bytes>)
  {
    forall i :: 0 <= i < |chunks| ==> 0 < |chunks[i]| <= LONG_MAX
  }

  lemma {:induction false} DechunkBody(chunks: seq<bytes>, rest: bytes, cap: nat, acc: bytes)
    requires Chunkable(chunks)
    ensures Dechunk(Concat(Framed(chunks)) + rest, cap, acc)
         == if |acc| + |Concat(chunks)| >= cap && chunks != [] then None
            else Dechunk(rest, cap, acc + Concat(chunks))
    decreases |chunks|
  {
    if chunks == [] {
      assert Concat(Framed(chunks)) + rest == rest;
      assert acc + Concat(chunks) == acc;
    } else {
      var d := chunks[0];
      FramedHead(chunks, rest);
      DechunkWhole(d, Concat(Framed(chunks[1..])) + rest, cap, acc);
      DechunkBody(chunks[1..], rest, cap, acc + d);
      Assoc(acc, d, Concat(chunks[1..]));
    }
  }

  function Framed(chunks: seq<bytes>): seq<bytes>
  {
    seq(|chunks|, i requires 0 <= i < |chunks| => Chunk(chunks[i]))
  }

  lemma {:induction false} FramedHead(chunks: seq<bytes>, rest: bytes)
    requires chunks != []
    ensures Concat(Framed(chunks)) + rest == Chunk(chunks[0]) + (Concat(Framed(chunks[1..])) + rest)
  {
    assert Framed(chunks) == [Chunk(chunks[0])] + Framed(chunks[1..]);
    Assoc(Chunk(chunks[0]), Concat(Framed(chunks[1..])), rest);
  }

  lemma {:induction false} DechunkEnd(cap: nat, acc: bytes)
    ensures Dechunk(TERMINATOR, cap, acc) == Some(acc)
  {
    assert TERMINATOR == Hex(0) + CRLF + [CR, LF] == Hex(0) + [CR] + [LF, CR, LF];
    LineEnd(0, [CR, LF]);
    StrtolOfHex(0, [LF, CR, LF]);
  }

  /** De-chunking the gateway's encoding of any non-empty chunks gives back their concatenation, or refuses exactly
      when it would not fit. */
  lemma {:induction false} ChunkedRoundTrip(chunks: seq<bytes>, cap: nat)
    requires Chunkable(chunks)
    ensures Dechunk(Concat(Framed(chunks)) + TERMINATOR, cap, [])
         == if |Concat(chunks)| >= cap && chunks != [] then None else Some(Concat(chunks))
  {
    DechunkBody(chunks, TERMINATOR, cap, []);
    DechunkEnd(cap, [] + Concat(chunks));
    assert [] + Concat(chunks) == Concat(chunks);
  }

  /** strtol stops at the first character that is no digit. */
  lemma {:induction false} StrtolStops(n: nat, u: bytes)
    requires 0 < n <= LONG_MAX && (u == [] || !IsHex(u[0]))
    ensures Strtol(Hex(n) + u) == n
  {
    var s := Hex(n) + u;
    assert s[0] == Hex(n)[0] && s[0] != 48;
    assert SkipSpace(s) == s;
    DigitsThrough(Hex(n), u, 0);
    HexRoundTrip(n);
  }

  /** A chunk from another server: what follows the size on its line, such as an extension, is ignored, and the line may
      end in a bare line feed. */
  lemma {:induction false} ExtensionsAreIgnored(ext: bytes, d: bytes, t: bytes)
    requires 0 < |d| <= LONG_MAX && LF !in ext && (ext == [] || !IsHex(ext[0]))
    ensures Takes(Hex(|d|) + ext + [LF] + d + t, |Hex(|d|) + ext| + 1, d, t)
  {
    LineSize(|d|, ext, d + t, Hex(|d|) + ext + [LF] + d + t);
    TakesLine(Hex(|d|) + ext + [LF] + d + t, Hex(|d|) + ext, d, t);
  }

  lemma {:induction false} LineSize(n: nat, ext: bytes, rest: bytes, b: bytes)
    requires 0 < n <= LONG_MAX && LF !in ext && (ext == [] || !IsHex(ext[0])) && b == Hex(n) + ext + [LF] + rest
    ensures Find(b, [LF], 0) == Some(|Hex(n) + ext|) && Strtol(b) == n
  {
    assert b == Hex(n) + (ext + ([LF] + rest));
    StrtolStops(n, ext + ([LF] + rest));
    AnyLineEnd(Hex(n) + ext, rest);
  }

  lemma {:induction false} TakesLine(b: bytes, line: bytes, d: bytes, t: bytes)
    requires b == line + [LF] + d + t && Find(b, [LF], 0) == Some(|line|) && Strtol(b) == |d| > 0
    ensures Takes(b, |line| + 1, d, t)
  {
    var k := |line| + 1;
    assert b[k..k + |d|] == d && b[k + |d|..] == t;
    TurnIs(b, |line|, |d|, t);
  }

  lemma {:induction false} AnyLineEnd(line: bytes, t: bytes)
    requires LF !in line
    ensures Find(line + [LF] + t, [LF], 0) == Some(|line|)
  {
    var s := line + [LF] + t;
    forall i | 0 <= i < |line| ensures !OccursAt(s, [LF], i) { assert s[i..i + 1] == [line[i]]; }
    assert s[|line|..|line| + 1] == [LF];
    FindIs(s, [LF], 0, |line|);
  }

  // ---- any other client ----

  /** A chunked body as section 7.1 of RFC 9112 has it, without extensions or trailers: the data, and what follows. */
  function Strict(b: bytes): Option<(bytes, bytes)>
    decreases |b|
  {
    match Find(b, CRLF, 0)
    case None => None
    case Some(n) =>
      var line, rest := b[..n], b[n + 2..];
      if line == [] || exists i :: 0 <= i < |line| && !IsHex(line[i]) then None
      else
        var size := Digits(line, 0);
        if |rest| < size + 2 || rest[size..size + 2] != CRLF then None
        else if size == 0 then Some(([], rest[2..]))
        else
          match Strict(rest[size + 2..])
          case None => None
          case Some((data, t)) => Some((rest[..size] + data, t))
  }

  lemma {:induction false} SizeLineEnds(n: nat, t: bytes)
    ensures Find(Hex(n) + CRLF + t, CRLF, 0) == Some(|Hex(n)|)
  {
    var s, k := Hex(n) + CRLF + t, |Hex(n)|;
    forall i | 0 <= i < k ensures !OccursAt(s, CRLF, i) {
      assert s[i..i + 2][0] == Hex(n)[i];
    }
    assert s[k..k + 2] == CRLF;
    FindIs(s, CRLF, 0, k);
  }

  lemma {:induction false} StrictStep(h: bytes, d: bytes, rest: bytes, b: bytes)
    requires b == h + CRLF + (d + (CRLF + rest)) && Find(b, CRLF, 0) == Some(|h|) && Digits(h, 0) == |d|
    requires h != [] && forall i :: 0 <= i < |h| ==> IsHex(h[i])
    ensures Strict(b) == if d == [] then Some(([], rest)) else
      match Strict(rest) case None => None case Some((data, t)) => Some((d + data, t))
  {
    var after := d + (CRLF + rest);
    assert b[..|h|] == h && b[|h| + 2..] == after;
    AfterData(d, rest);
  }

  lemma {:induction false} AfterData(d: bytes, rest: bytes)
    ensures var after := d + (CRLF + rest);
      |after| >= |d| + 2 && after[..|d|] == d && after[|d|..|d| + 2] == CRLF && after[|d| + 2..] == rest
  {
  }

  lemma {:induction false} StrictChunk(d: bytes, rest: bytes)
    requires d != []
    ensures Strict(Chunk(d) + rest)
         == match Strict(rest) case None => None case Some((data, t)) => Some((d + data, t))
  {
    var h := Hex(|d|);
    assert Chunk(d) + rest == h + CRLF + (d + (CRLF + rest));
    SizeLineEnds(|d|, d + (CRLF + rest));
    HexRoundTrip(|d|);
    StrictStep(h, d, rest, Chunk(d) + rest);
  }

  lemma {:induction false} StrictEnd(t: bytes)
    ensures Strict(TERMINATOR + t) == Some(([], t))
  {
    var none: bytes := [];
    assert TERMINATOR + t == Hex(0) + CRLF + (none + (CRLF + t));
    SizeLineEnds(0, none + (CRLF + t));
    HexRoundTrip(0);
    StrictStep(Hex(0), none, t, TERMINATOR + t);
  }

  /** What the gateway streams is a chunked body to any client: a strict reader gives back the chunks, concatenated, and
      what follows. */
  lemma {:induction false} StrictlyChunked(chunks: seq<bytes>, t: bytes)
    requires forall i :: 0 <= i < |chunks| ==> chunks[i] != []
    ensures Strict(Concat(Framed(chunks)) + (TERMINATOR + t)) == Some((Concat(chunks), t))
    decreases |chunks|
  {
    if chunks == [] {
      assert Concat(Framed(chunks)) + (TERMINATOR + t) == TERMINATOR + t;
      StrictEnd(t);
    } else {
      FramedHead(chunks, TERMINATOR + t);
      StrictlyChunked(chunks[1..], t);
      StrictChunk(chunks[0], Concat(Framed(chunks[1..])) + (TERMINATOR + t));
    }
  }

  // ---- a response cut short ----

  lemma {:induction false} NoLineEnd(p: bytes, cap: nat, acc: bytes)
    requires LF !in p
    ensures Dechunk(p, cap, acc) == Some(acc)
  {
  }

  /** A chunk that has not wholly arrived yields nothing, or all of its data when only the closing CRLF is missing. */
  lemma {:induction false} DechunkPartial(d: bytes, p: bytes, cap: nat, acc: bytes)
    requires 0 < |d| <= LONG_MAX && p < Chunk(d)
    ensures Dechunk(p, cap, acc)
         == if |p| + 2 < |Chunk(d)| then Some(acc) else if |acc| + |d| >= cap then None else Some(acc + d)
  {
    var h := Hex(|d|);
    assert |Chunk(d)| == |h| + 2 + |d| + 2;
    if |p| < |h| + 2 {
      PartialSize(d, h, p);
      NoLineEnd(p, cap, acc);
    } else if |p| < |h| + 2 + |d| {
      PartialData(d, p[|h| + 2..], cap, acc);
      assert p == h + CRLF + p[|h| + 2..];
    } else {
      var t := p[|h| + 2 + |d|..];
      assert t == CRLF[..|t|];
      assert p == h + CRLF + d + t;
      PartialEnd(d, t, cap, acc);
    }
  }

  lemma {:induction false} PartialSize(d: bytes, h: bytes, p: bytes)
    requires p < h + CRLF + d + CRLF && |p| < |h| + 2 && (forall i :: 0 <= i < |h| ==> IsHex(h[i]))
    ensures LF !in p
  {
    forall i | 0 <= i < |p| ensures p[i] != LF { assert p[i] == (h + CRLF + d + CRLF)[i]; }
  }

  lemma {:induction false} PartialData(d: bytes, t: bytes, cap: nat, acc: bytes)
    requires |t| < |d| <= LONG_MAX
    ensures Dechunk(Hex(|d|) + CRLF + t, cap, acc) == Some(acc)
  {
    assert Hex(|d|) + CRLF + t == Hex(|d|) + [CR] + ([LF] + t);
    LineEnd(|d|, t);
    StrtolOfHex(|d|, [LF] + t);
  }

  lemma {:induction false} PartialEnd(d: bytes, t: bytes, cap: nat, acc: bytes)
    requires 0 < |d| <= LONG_MAX && t < CRLF
    ensures Dechunk(Hex(|d|) + CRLF + d + t, cap, acc) == if |acc| + |d| >= cap then None else Some(acc + d)
  {
    TurnOnChunk(d, t);
    assert LF !in t;
    NoLineEnd(t, cap, acc + d);
  }

  lemma {:induction false} DechunkEndPartial(p: bytes, cap: nat, acc: bytes)
    requires p <= TERMINATOR
    ensures Dechunk(p, cap, acc) == Some(acc)
  {
    if |p| < 3 {
      assert LF !in p;
      NoLineEnd(p, cap, acc);
    } else {
      var t := p[3..];
      assert p == Hex(0) + CRLF + t == Hex(0) + [CR] + ([LF] + t);
      LineEnd(0, t);
      StrtolOfHex(0, [LF] + t);
    }
  }

  /** How many chunks have all of their data among the first n bytes of the encoding. */
  function Arrived(chunks: seq<bytes>, n: nat): (k: nat)
    ensures k <= |chunks|
    decreases |chunks|
  {
    if chunks == [] || n + 2 < |Chunk(chunks[0])| then 0
    else if n < |Chunk(chunks[0])| then 1
    else 1 + Arrived(chunks[1..], n - |Chunk(chunks[0])|)
  }

  /** That is: the most chunks whose framed bytes, less the last CRLF, make at most n bytes. */
  lemma {:induction false} ArrivedIs(chunks: seq<bytes>, n: nat)
    ensures var k := Arrived(chunks, n);
      && (k > 0 ==> |Concat(Framed(chunks[..k]))| <= n + 2)
      && (k < |chunks| ==> n + 2 < |Concat(Framed(chunks[..k + 1]))|)
    decreases |chunks|
  {
    if chunks != [] {
      var c, k := |Chunk(chunks[0])|, Arrived(chunks, n);
      FramedLength(chunks, k);
      if k < |chunks| { FramedLength(chunks, k + 1); }
      if n >= c {
        ArrivedIs(chunks[1..], n - c);
      } else if 1 < |chunks| {
        FramedLength(chunks[1..], 1);
        assert |Chunk(chunks[1])| >= 4;
      }
    }
  }

  lemma {:induction false} FramedLength(chunks: seq<bytes>, k: nat)
    requires k <= |chunks|
    ensures k > 0 ==>
      |Concat(Framed(chunks[..k]))| == |Chunk(chunks[0])| + |Concat(Framed(chunks[1..][..k - 1]))|
  {
    if k > 0 {
      FramedHead(chunks[..k], []);
      assert chunks[..k][1..] == chunks[1..][..k - 1];
    }
  }

  /** The first k chunks after what there is, if they fit below cap. */
  function FirstOf(chunks: seq<bytes>, k: nat, cap: nat, acc: bytes): Option<bytes>
    requires k <= |chunks|
  {
    if k > 0 && |acc| + |Concat(chunks[..k])| >= cap then None else Some(acc + Concat(chunks[..k]))
  }

  /** Cut anywhere, the encoding of `chunks` de-chunks to exactly those whose data has arrived: never to part of a
      chunk, nor to bytes that were not sent; it is refused exactly when they do not fit. */
  lemma {:induction false} DechunkCut(chunks: seq<bytes>, p: bytes, cap: nat, acc: bytes)
    requires Chunkable(chunks) && p <= Concat(Framed(chunks)) + TERMINATOR
    ensures Dechunk(p, cap, acc) == FirstOf(chunks, Arrived(chunks, |p|), cap, acc)
  {
    CutGives(chunks, p, cap, acc);
  }

  lemma {:induction false} CutGives(chunks: seq<bytes>, p: bytes, cap: nat, acc: bytes)
    requires Chunkable(chunks) && p <= Concat(Framed(chunks)) + TERMINATOR
    ensures Ahead(FirstOf(chunks, Arrived(chunks, |p|), cap, acc), p, cap, acc)
    decreases |chunks|
  {
    if chunks == [] {
      assert Concat(Framed(chunks)) + TERMINATOR == TERMINATOR;
      assert acc + Concat(chunks[..0]) == acc;
      EndGives(p, cap, acc);
    } else {
      var d, more := chunks[0], Concat(Framed(chunks[1..])) + TERMINATOR;
      FramedHead(chunks, TERMINATOR);
      PrefixSplit(Chunk(d), more, p);
      if |p| < |Chunk(d)| {
        PartialGives(d, p, cap, acc);
        FirstOnly(chunks, acc);
      } else {
        CutGives(chunks[1..], p[|Chunk(d)|..], cap, acc + d);
        CutMore(chunks, p, p[|Chunk(d)|..], cap, acc);
      }
    }
  }

  lemma {:induction false} CutMore(chunks: seq<bytes>, p: bytes, q: bytes, cap: nat, acc: bytes)
    requires chunks != [] && 0 < |chunks[0]| <= LONG_MAX && p == Chunk(chunks[0]) + q
    requires Ahead(FirstOf(chunks[1..], Arrived(chunks[1..], |q|), cap, acc + chunks[0]), q, cap, acc + chunks[0])
    ensures Ahead(FirstOf(chunks, Arrived(chunks, |p|), cap, acc), p, cap, acc)
  {
    var d, j := chunks[0], Arrived(chunks[1..], |q|);
    WholeGives(FirstOf(chunks[1..], j, cap, acc + d), d, q, cap, acc);
    FirstOfMore(chunks, j, cap, acc);
    assert |p| == |Chunk(d)| + |q|;
  }

  lemma {:induction false} EndGives(p: bytes, cap: nat, acc: bytes)
    requires p <= TERMINATOR
    ensures Ahead(Some(acc), p, cap, acc)
  {
    DechunkEndPartial(p, cap, acc);
  }

  lemma {:induction false} PartialGives(d: bytes, p: bytes, cap: nat, acc: bytes)
    requires 0 < |d| <= LONG_MAX && p < Chunk(d)
    ensures Ahead(if |p| + 2 < |Chunk(d)| then Some(acc) else if |acc| + |d| >= cap then None else Some(acc + d),
                  p, cap, acc)
  {
    DechunkPartial(d, p, cap, acc);
  }

  lemma {:induction false} WholeGives(goal: Option<bytes>, d: bytes, q: bytes, cap: nat, acc: bytes)
    requires 0 < |d| <= LONG_MAX && Ahead(goal, q, cap, acc + d)
    ensures Ahead(if |acc| + |d| >= cap then None else goal, Chunk(d) + q, cap, acc)
  {
    DechunkWhole(d, q, cap, acc);
  }

  lemma {:induction false} FirstOfMore(chunks: seq<bytes>, j: nat, cap: nat, acc: bytes)
    requires chunks != [] && j < |chunks|
    ensures FirstOf(chunks, j + 1, cap, acc)
         == if |acc| + |chunks[0]| >= cap then None else FirstOf(chunks[1..], j, cap, acc + chunks[0])
  {
    var d, more := chunks[0], chunks[1..][..j];
    ConcatCons(d, more, acc);
    assert chunks[..j + 1] == [d] + more;
    assert j == 0 ==> Concat(more) == [];
  }

  lemma {:induction false} PrefixSplit(c: bytes, more: bytes, p: bytes)
    requires p <= c + more
    ensures |p| < |c| ==> p < c
    ensures |p| >= |c| ==> p == c + p[|c|..] && p[|c|..] <= more
  {
  }

  lemma {:induction false} FirstOnly(chunks: seq<bytes>, acc: bytes)
    requires chunks != []
    ensures acc + Concat(chunks[..0]) == acc && acc + Concat(chunks[..1]) == acc + chunks[0]
    ensures |acc| + |Concat(chunks[..1])| == |acc| + |chunks[0]|
  {
    ConcatCons(chunks[0], [], acc);
    assert chunks[..1] == [chunks[0]] + [];
  }

  lemma {:induction false} ConcatCons(d: bytes, more: seq<bytes>, acc: bytes)
    ensures acc + Concat([d] + more) == acc + d + Concat(more)
  {
    assert ([d] + more)[1..] == more;
    Assoc(acc, d, Concat(more));
  }
}
