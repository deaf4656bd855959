/** The bounded writer and reader of the wire codec, and the payload encoder and decoder built from them. */
module WireIo {
  import opened Bytes
  import opened Wire

  /** A bounded writer with a sticky error: after one field does not fit, nothing more is written. */
  class Writer {
    const p: array<byte>
    const cap: nat
    var off: nat
    var err: bool
    ghost var goal: bytes      // every byte asked for so far
    ghost var oversize: bool   // some 16-bit field was too long
    ghost const tail: bytes    // what lies past cap, never touched

    ghost predicate Valid()
      reads this, p
    {
      && off <= cap <= p.Length
      && p[cap..] == tail
      && (err <==> oversize || |goal| > cap)
      && (!err ==> p[..off] == goal)
    }

    constructor (p: array<byte>, cap: nat)
      requires cap <= p.Length
      ensures Valid() && this.p == p && this.cap == cap && goal == [] && !oversize && tail == p[cap..]
    {
      this.p, this.cap, off, err := p, cap, 0, false;
      goal, oversize, tail := [], false, p[cap..];
    }

    method Put(s: bytes)
      requires Valid()
      modifies this, p
      ensures Valid() && goal == old(goal) + s && oversize == old(oversize)
    {
      if off + |s| > cap { err := true; }
      goal := goal + s;
      if !err {
        forall i | 0 <= i < |s| { p[off + i] := s[i]; }
        off := off + |s|;
      }
    }

    method PutSlice16(s: bytes)
      requires Valid()
      modifies this, p
      ensures Valid()
      ensures oversize == (old(oversize) || !Short(s))
      ensures !oversize ==> goal == old(goal) + Slice16(s)
    {
      if |s| > 0xFFFF {
        err := true;
        oversize := true;
      } else {
        Put(U16(|s|));
        Put(s);
        Assoc(old(goal), U16(|s|), s);
      }
    }

    method PutAll(fs: seq<Field>)
      requires Valid()
      modifies this, p
      ensures Valid()
      ensures oversize == (old(oversize) || !ShortFields(fs))
      ensures !oversize ==> goal == old(goal) + PutFields(fs, [])
    {
      var i := 0;
      while i < |fs|
        invariant i <= |fs| && Valid()
        invariant oversize == (old(oversize) || !ShortFields(fs[..i]))
        invariant !oversize ==> goal == old(goal) + PutFields(fs[..i], [])
      {
        assert fs[..i + 1] == fs[..i] + [fs[i]];
        PutFieldsSnoc(old(goal), fs[..i], fs[i]);
        PutSlice16(fs[i].name);
        PutSlice16(fs[i].value);
        i := i + 1;
      }
      assert fs[..i] == fs;
    }
  }

  lemma {:induction false} PutFieldsOnto(fs: seq<Field>, t: bytes)
    ensures PutFields(fs, t) == PutFields(fs, []) + t
    decreases |fs|
  {
    if fs != [] {
      var before, f := fs[..|fs| - 1], fs[|fs| - 1];
      PutFieldsOnto(before, PutField(f, t));
      PutFieldsOnto(before, PutField(f, []));
      assert PutField(f, t) == PutField(f, []) + t;
      Assoc(PutFields(before, []), PutField(f, []), t);
    }
  }

  lemma {:induction false} PutFieldsSnoc(base: bytes, fs: seq<Field>, f: Field)
    ensures base + PutFields(fs + [f], []) == base + PutFields(fs, []) + Slice16(f.name) + Slice16(f.value)
  {
    var a, b := Slice16(f.name), Slice16(f.value);
    assert (fs + [f])[..|fs|] == fs;
    assert PutField(f, []) == a + b;
    PutFieldsOnto(fs, a + b);
    Assoc(base, PutFields(fs, []), a + b);
    Assoc(base + PutFields(fs, []), a, b);
  }

  /** The encoder carries at most 64 headers and 8 parameters. */
  function Kept(q: Request): Request
  {
    q.(headers := q.headers[..Min(|q.headers|, MAX_HEADERS)], params := q.params[..Min(|q.params|, MAX_PARAMS)])
  }

  /** A request within those limits is carried whole; of a larger one, everything else. */
  lemma {:induction false} KeptIs(q: Request)
    ensures |q.headers| <= 64 && |q.params| <= 8 ==> Kept(q) == q
    ensures Kept(q).headers <= q.headers && |Kept(q).headers| == Min(|q.headers|, 64)
    ensures Kept(q).params <= q.params && |Kept(q).params| == Min(|q.params|, 8)
    ensures Kept(q) == q.(headers := Kept(q).headers, params := Kept(q).params)
  {
  }

  ghost predicate AllShort(q: Request)
  {
    && Short(q.verb) && Short(q.path) && Short(q.query) && ShortFields(q.headers) && ShortFields(q.params)
    && Short(q.authSub) && Short(q.authScope)
  }

  lemma {:induction false} Regroup(x: bytes, a: bytes, b: bytes, c: bytes, d: bytes)
    ensures x + a + b + c + d == x + (a + (b + (c + d)))
  {
    Assoc(x + a + b, c, d);
    Assoc(x + a, b, c + d);
    Assoc(x, a, b + (c + d));
  }

  lemma {:induction false} RegroupMore(x: bytes, a: bytes, b: bytes, c: bytes, d: bytes, e: bytes, f: bytes)
    ensures x + a + b + c + d + e + f == x + (a + (b + (c + (d + (e + f)))))
  {
    Regroup(x + a + b, c, d, e, f);
    Assoc(x + a, b, c + (d + (e + f)));
    Assoc(x, a, b + (c + (d + (e + f))));
  }

  /** The bytes that the first and the second half of the encoder add. */
  ghost function Front(base: bytes, q: Request): bytes
  {
    base + Slice16(q.verb) + Slice16(q.path) + Slice16(q.query) + U16(|q.headers|) + PutFields(q.headers, [])
  }

  ghost function Back(base: bytes, q: Request): bytes
  {
    base + U16(|q.params|) + PutFields(q.params, []) + Slice16(q.authSub) + Slice16(q.authScope)
    + U32(|q.body|) + q.body
  }

  /** The order in which the encoder emits the fields gives the request payload. */
  lemma {:induction false} FrontBackIsRequest(q: Request)
    ensures Back(Front([], q), q) == PutRequest(q, [])
  {
    var np, ps, sub, scope := U16(|q.params|), PutFields(q.params, []), Slice16(q.authSub), Slice16(q.authScope);
    var tail := sub + (scope + (U32(|q.body|) + q.body));
    var verb, path, query := Slice16(q.verb), Slice16(q.path), Slice16(q.query);
    var nh, hs := U16(|q.headers|), PutFields(q.headers, []);
    RegroupMore(Front([], q), np, ps, sub, scope, U32(|q.body|), q.body);
    RegroupMore([], verb, path, query, nh, hs, np + (ps + tail));
    assert Slice32(q.body) + [] == U32(|q.body|) + q.body;
    PutFieldsOnto(q.params, tail);
    PutFieldsOnto(q.headers, np + (ps + tail));
    assert [] + PutRequest(q, []) == PutRequest(q, []);
  }

  method EmitFront(w: Writer, req: Request)
    requires w.Valid()
    modifies w, w.p
    ensures w.Valid()
    ensures w.oversize == (old(w.oversize) || !(Short(req.verb) && Short(req.path) && Short(req.query)
                                                && ShortFields(Kept(req).headers)))
    ensures !w.oversize ==> w.goal == Front(old(w.goal), Kept(req))
  {
    w.PutSlice16(req.verb);
    w.PutSlice16(req.path);
    w.PutSlice16(req.query);
    var nh := if |req.headers| > MAX_HEADERS then MAX_HEADERS else |req.headers|;
    w.Put(U16(nh));
    w.PutAll(req.headers[..nh]);
  }

  method EmitBack(w: Writer, req: Request)
    requires w.Valid()
    modifies w, w.p
    ensures w.Valid()
    ensures w.oversize == (old(w.oversize) || !(ShortFields(Kept(req).params)
                                                && Short(req.authSub) && Short(req.authScope)))
    ensures !w.oversize ==> w.goal == Back(old(w.goal), Kept(req))
  {
    var np := if |req.params| > MAX_PARAMS then MAX_PARAMS else |req.params|;
    w.Put(U16(np));
    w.PutAll(req.params[..np]);
    w.PutSlice16(req.authSub);
    w.PutSlice16(req.authScope);
    w.Put(U32(|req.body|));
    w.Put(req.body);
  }

  /** Encoding succeeds exactly when every 16-bit field is short and the size formula fits cap; nothing past cap is
      written. */
  method EncodeRequest(req: Request, out: array<byte>, cap: nat) returns (n: int)
    requires cap <= out.Length
    modifies out
    ensures out[cap..] == old(out[cap..])
    ensures n == (if AllShort(Kept(req)) && RequestSize(Kept(req)) <= cap then RequestSize(Kept(req)) else -1)
    ensures n >= 0 ==> out[..n] == PutRequest(Kept(req), [])
  {
    var w := new Writer(out, cap);
    EmitFront(w, req);
    EmitBack(w, req);
    FrontBackIsRequest(Kept(req));
    RequestLength(Kept(req), []);
    n := if w.err then -1 else w.off;
  }

  /** A bounded reader. Its error is noted but does not stop later reads: only the final verdict counts. */
  class Reader {
    const p: bytes
    var off: nat
    var err: bool

    ghost predicate Valid() reads this { off <= |p| }

    ghost function Rest(): bytes
      requires Valid()
      reads this
    {
      p[off..]
    }

    constructor (p: bytes)
      ensures Valid() && Rest() == p && !err && this.p == p
    {
      this.p, off, err := p, 0, false;
      new;
      assert p[0..] == p;
    }

    method U16() returns (v: nat)
      requires Valid()
      modifies this
      ensures Valid() && err == (old(err) || TakeU16(old(Rest())).None?)
      ensures !err ==> Some((v, Rest())) == TakeU16(old(Rest()))
    {
      v := 0;
      if off + 2 > |p| { err := true; return; }
      v := GetU16(p[off..]);
      off := off + 2;
    }

    method U32() returns (v: nat)
      requires Valid()
      modifies this
      ensures Valid() && err == (old(err) || TakeU32(old(Rest())).None?)
      ensures !err ==> Some((v, Rest())) == TakeU32(old(Rest()))
    {
      v := 0;
      if off + 4 > |p| { err := true; return; }
      v := GetU32(p[off..]);
      off := off + 4;
    }

    method Slice16() returns (s: bytes)
      requires Valid()
      modifies this
      ensures Valid() && err == (old(err) || TakeSlice16(old(Rest())).None?)
      ensures !err ==> Some((s, Rest())) == TakeSlice16(old(Rest()))
    {
      s := [];
      var n := U16();
      if err || off + n > |p| { err := true; return; }
      assert p[off..off + n] == Rest()[..n] && p[off + n..] == Rest()[n..];
      s := p[off..off + n];
      off := off + n;
    }

    method Slice32() returns (s: bytes)
      requires Valid()
      modifies this
      ensures Valid() && err == (old(err) || TakeSlice32(old(Rest())).None?)
      ensures !err ==> Some((s, Rest())) == TakeSlice32(old(Rest()))
    {
      s := [];
      var n := U32();
      if err || off + n > |p| { err := true; return; }
      assert p[off..off + n] == Rest()[..n] && p[off + n..] == Rest()[n..];
      s := p[off..off + n];
      off := off + n;
    }

    method OneField() returns (f: Field)
      requires Valid()
      modifies this
      ensures Valid() && err == (old(err) || TakeField(old(Rest())).None?)
      ensures !err ==> Some((f, Rest())) == TakeField(old(Rest()))
    {
      var name := Slice16();
      var value := Slice16();
      f := Field(name, value);
    }

    method Fields(n: nat) returns (fs: seq<Field>)
      requires Valid()
      modifies this
      ensures Valid() && err == (old(err) || TakeFields(old(Rest()), n).None?)
      ensures !err ==> Some((fs, Rest())) == TakeFields(old(Rest()), n)
    {
      fs := [];
      var i := 0;
      while i < n
        invariant i <= n && Valid()
        invariant err == (old(err) || TakeFields(old(Rest()), i).None?)
        invariant !err ==> Some((fs, Rest())) == TakeFields(old(Rest()), i)
      {
        var f := OneField();
        fs := fs + [f];
        i := i + 1;
      }
    }

    /** A counted list of fields; `ok` is false when the count is above `max`, and then nothing more is read. */
    method Counted(max: nat) returns (ok: bool, fs: seq<Field>)
      requires Valid()
      modifies this
      ensures Valid()
      ensures !ok ==> old(err) || TakeCounted(old(Rest()), max).None?
      ensures ok ==> err == (old(err) || TakeCounted(old(Rest()), max).None?)
      ensures ok && !err ==> Some((fs, Rest())) == TakeCounted(old(Rest()), max)
    {
      var n := U16();
      if n > max { return false, []; }
      fs := Fields(n);
      ok := true;
    }
  }

  /** The decoder agrees with the strict reader on every payload, though it keeps reading after an error. */
  method DecodeRequest(buf: bytes) returns (ok: bool, q: Request)
    ensures ok == TakeRequest(buf).Some?
    ensures ok ==> q == TakeRequest(buf).value.0
  {
    q := Request([], [], [], [], [], [], [], []);
    var r := new Reader(buf);
    var verb := r.Slice16();
    var path := r.Slice16();
    var query := r.Slice16();
    var okh, headers := r.Counted(MAX_HEADERS);
    if !okh { return false, q; }
    var okp, params := r.Counted(MAX_PARAMS);
    if !okp { return false, q; }
    var sub := r.Slice16();
    var scope := r.Slice16();
    var body := r.Slice32();
    q := Request(verb, path, query, headers, params, sub, scope, body);
    ok := !r.err;
  }
}
