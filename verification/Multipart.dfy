/** multipart/form-data (section 5.1.1 of RFC 2046): the SDK's parser against the printed form of a list of parts.
    Characters stand for bytes. */
module Multipart {
  import opened Bytes

  const CRLF := "\r\n"
  const EOH := "\r\n\r\n"
  const QUOTE := "\""
  const DISPOSITION := "Content-Disposition: form-data; "
  const NAME_KEY := "name=\""
  const FILE_KEY := "filename=\""
  const TYPE_KEY := "Content-Type:"
  const DELIM_BUF := 260

  /** A part; a field that is absent is empty. */
  datatype Part = Part(name: string, filename: string, ctype: string, data: string)

  function Sep(b: string): string { CRLF + "--" + b }

  // ---- the parser ----

  /** mp_quoted: what stands between the key and the next quote. */
  function Quoted(h: string, key: string): string
  {
    match Find(h, key, 0)
    case None => []
    case Some(k) =>
      var rest := h[k + |key|..];
      match Find(rest, QUOTE, 0)
      case None => []
      case Some(q) => rest[..q]
  }

  function SkipSpaces(s: string): string { if s != [] && s[0] == ' ' then SkipSpaces(s[1..]) else s }

  function TypeOf(h: string): string
  {
    match Find(h, TYPE_KEY, 0)
    case None => []
    case Some(k) =>
      var t := SkipSpaces(h[k + |TYPE_KEY|..]);
      match Find(t, CRLF, 0)
      case None => t
      case Some(e) => t[..e]
  }

  /** What lies between two boundaries. */
  function PartOf(u: string): Part
  {
    match Find(u, EOH, 0)
    case None => Part([], [], [], u)
    case Some(he) =>
      var h := u[..he];
      Part(Quoted(h, NAME_KEY), Quoted(h, FILE_KEY), TypeOf(h), u[he + 4..])
  }

  predicate Dashes(t: string) { |t| >= 2 && t[0] == '-' && t[1] == '-' }

  predicate Newline(t: string) { |t| >= 2 && t[0] == '\r' && t[1] == '\n' }

  /** One turn of the loop, from after a boundary: what lies before the next one, and what follows it. */
  function Next(sep: string, t: string): Option<(string, string)>
  {
    if Dashes(t) || !Newline(t) then None else
    var n :- Find(t[2..], sep, 0);
    Some((t[2..2 + n], t[2 + n + |sep|..]))
  }

  type Turn = string -> Option<(string, string)>

  /** The loop, with room for so many more parts. */
  function PartsFrom(part: string -> Part, next: Turn, t: string, room: nat): seq<Part>
    decreases room
  {
    if room == 0 then []
    else
      match next(t)
      case None => []
      case Some((u, rest)) => [part(u)] + PartsFrom(part, next, rest, room - 1)
  }

  function Turns(sep: string): Turn { t => Next(sep, t) }

  /** ntc_multipart_parse: None is -1. */
  function Parse(body: string, b: string, max: nat): Option<seq<Part>>
  {
    match FirstBoundary(body, b)
    case None => None
    case Some(at) => Some(PartsAfter(b, body[at + |b| + 2..], max))
  }

  /** The first boundary, unless it is too long to look for. */
  function FirstBoundary(body: string, b: string): (r: Option<nat>)
    ensures r.Some? ==> r.value + |b| + 2 <= |body|
  {
    if |b| + 2 >= DELIM_BUF then None else Find(body, "--" + b, 0)
  }

  /** The parts that follow the first boundary. */
  function PartsAfter(b: string, t: string, max: nat): seq<Part> { PartsFrom(PartOf, Turns(Sep(b)), t, max) }

  // ---- the loop over a cursor ----

  method ParseBody(body: string, b: string, max: int) returns (r: Option<seq<Part>>)
    ensures r == Parse(body, b, if max < 0 then 0 else max)
  {
    var at, room := FirstBoundary(body, b), if max < 0 then 0 else max;
    ParseIs(body, b, room, at);
    if at.None? { return None; }
    ghost var all := PartsAfter(b, body[at.value + |b| + 2..], room);
    var parts := ReadFrom(body, b, at.value + |b| + 2, room, all);
    r := Some(parts);
  }

  lemma {:induction false} ParseIs(body: string, b: string, max: nat, at: Option<nat>)
    requires at == FirstBoundary(body, b)
    ensures Parse(body, b, max)
            == if at.None? then None else Some(PartsAfter(b, body[at.value + |b| + 2..], max))
  {
  }

  method ReadFrom(body: string, b: string, from: nat, max: nat, ghost all: seq<Part>) returns (parts: seq<Part>)
    requires from <= |body| && all == PartsAfter(b, body[from..], max)
    ensures parts == all
  {
    CutsTurns(Sep(b));
    parts := ReadParts(PartOf, Turns(Sep(b)), Sep(b), body, from, max);
  }

  ghost predicate Cuts(next: Turn, sep: string) { forall t :: CutsAt(next, sep, t) }

  ghost predicate CutsAt(next: Turn, sep: string, t: string) { next(t) == Next(sep, t) }

  lemma {:induction false} CutsTurns(sep: string)
    ensures Cuts(Turns(sep), sep)
  {
    forall t ensures CutsAt(Turns(sep), sep, t) { }
  }

  /** What the loop has collected and what it has still to read. */
  ghost predicate Reading(part: string -> Part, next: Turn, all: seq<Part>, parts: seq<Part>, t: string, room: nat)
  {
    all == parts + PartsFrom(part, next, t, room)
  }

  lemma {:induction false} ReadOne(part: string -> Part, next: Turn, all: seq<Part>, parts: seq<Part>, t: string,
                                   room: nat, u: string, rest: string)
    requires room > 0 && Reading(part, next, all, parts, t, room) && next(t) == Some((u, rest))
    ensures Reading(part, next, all, parts + [part(u)], rest, room - 1)
  {
    Assoc(parts, [part(u)], PartsFrom(part, next, rest, room - 1));
  }

  lemma {:induction false} ReadLast(part: string -> Part, next: Turn, all: seq<Part>, parts: seq<Part>, t: string,
                                    room: nat)
    requires Reading(part, next, all, parts, t, room) && (room == 0 || next(t).None?)
    ensures all == parts
  {
    assert parts + [] == parts;
  }

  /** The loop of ntc_multipart_parse, from the end of the first boundary. */
  method ReadParts(part: string -> Part, ghost next: Turn, sep: string, body: string, from: nat, max: nat)
    returns (parts: seq<Part>)
    requires from <= |body| && Cuts(next, sep)
    ensures parts == PartsFrom(part, next, body[from..], max)
  {
    var cur: nat, room: nat, going := from, max, true;
    parts := [];
    ghost var all := PartsFrom(part, next, body[from..], max);
    assert [] + all == all;
    while cur < |body| && room > 0 && going
      invariant cur <= |body|
      invariant if going then Reading(part, next, all, parts, body[cur..], room) else all == parts
      decreases room, going
    {
      var u, rest := ReadNext(next, sep, body, cur);
      if u.None? {
        ReadLast(part, next, all, parts, body[cur..], room);
        going := false;
      } else {
        ReadOne(part, next, all, parts, body[cur..], room, u.value, body[rest..]);
        parts, room, cur := parts + [part(u.value)], room - 1, rest;
      }
    }
    if going {
      if room > 0 { NothingLeft(next, sep, body[cur..]); }
      ReadLast(part, next, all, parts, body[cur..], room);
    }
  }

  lemma {:induction false} NothingLeft(next: Turn, sep: string, t: string)
    requires Cuts(next, sep) && |t| == 0
    ensures next(t).None?
  {
    assert CutsAt(next, sep, t);
  }

  /** The tests at the top of the loop, and where the part ends. */
  method ReadNext(ghost next: Turn, sep: string, body: string, cur: nat) returns (u: Option<string>, rest: nat)
    requires cur < |body| && Cuts(next, sep)
    ensures rest <= |body|
    ensures next(body[cur..]) == if u.None? then None else Some((u.value, body[rest..]))
  {
    u, rest := None, cur;
    ghost var t := body[cur..];
    assert CutsAt(next, sep, t);
    if cur + 2 <= |body| && !(body[cur] == '-' && body[cur + 1] == '-') && body[cur] == '\r' && body[cur + 1] == '\n' {
      var start := cur + 2;
      assert t[2..] == body[start..];
      var n := Find(body[start..], sep, 0);
      if n.Some? {
        u, rest := Some(body[start..start + n.value]), start + n.value + |sep|;
        assert t[2..2 + n.value] == u.value && t[2 + n.value + |sep|..] == body[rest..];
      }
    }
  }
}
