/** Incremental parsing: what a reader that takes items off the front of a growing buffer sees does not depend
    on how the bytes arrive. Used for the IPC frames, in both directions, and for WebSocket frames. */
module Incremental {
  import opened Bytes

  /** The verdict of a frame reader on the bytes it holds. */
  datatype Step<+F> = More | Bad | Item(value: F, size: nat)

  datatype Parsed<+F> = Parsed(items: seq<F>, rest: bytes, bad: bool)

  ghost predicate Progress<F(!new)>(next: bytes -> Step<F>)
  {
    forall b :: next(b).Item? ==> 0 < next(b).size <= |b|
  }

  /** A verdict other than "need more bytes" is final: later bytes cannot change it. */
  ghost predicate Final<F(!new)>(next: bytes -> Step<F>)
  {
    && Progress(next)
    && (forall b, t :: next(b).Item? ==> next(b + t) == next(b))
    && (forall b, t :: next(b).Bad? ==> next(b + t).Bad?)
  }

  /** Take items off the front until the reader needs more bytes or rejects them. */
  function ParseAll<F(!new)>(next: bytes -> Step<F>, b: bytes): (r: Parsed<F>)
    ensures !r.bad ==> next(r.rest).More?
    decreases |b|
  {
    match next(b)
    case More => Parsed([], b, false)
    case Bad => Parsed([], [], true)
    case Item(f, n) =>
      if !(0 < n <= |b|) then Parsed([], [], true) else
      var p := ParseAll(next, b[n..]);
      p.(items := [f] + p.items)
  }

  /** One more batch of bytes on top of what is buffered; after a bad frame nothing is read. */
  function Feed<F(!new)>(next: bytes -> Step<F>, st: Parsed<F>, batch: bytes): Parsed<F>
  {
    if st.bad then st else
    var p := ParseAll(next, st.rest + batch);
    p.(items := st.items + p.items)
  }

  function FeedAll<F(!new)>(next: bytes -> Step<F>, st: Parsed<F>, batches: seq<bytes>): Parsed<F>
    decreases |batches|
  {
    if batches == [] then st else FeedAll(next, Feed(next, st, batches[0]), batches[1..])
  }

  /** Parsing a longer buffer is parsing the shorter one and going on with what it left. */
  lemma {:induction false} ParseMore<F(!new)>(next: bytes -> Step<F>, b: bytes, t: bytes)
    requires Final(next)
    ensures ParseAll(next, b + t) == Feed(next, ParseAll(next, b), t)
    decreases |b|
  {
    match next(b)
    case More =>
      var p := ParseAll(next, b + t);
      assert [] + p.items == p.items;
    case Bad =>
      assert next(b + t).Bad?;
    case Item(f, n) =>
      assert next(b + t) == next(b);
      ParseMore(next, b[n..], t);
      assert (b + t)[n..] == b[n..] + t;
      FeedAfter(next, f, ParseAll(next, b[n..]), t);
  }

  lemma {:induction false} FeedAfter<F(!new)>(next: bytes -> Step<F>, f: F, p: Parsed<F>, t: bytes)
    ensures Feed(next, p.(items := [f] + p.items), t) == Feed(next, p, t).(items := [f] + Feed(next, p, t).items)
  {
    if !p.bad { Assoc([f], p.items, ParseAll(next, p.rest + t).items); }
  }

  /** Any chopping of a byte stream into batches yields the items, and the verdict, of the whole stream. */
  lemma {:induction false} SplitInvariance<F(!new)>(next: bytes -> Step<F>, sofar: bytes, batches: seq<bytes>)
    requires Final(next)
    ensures FeedAll(next, ParseAll(next, sofar), batches) == ParseAll(next, sofar + Concat(batches))
    decreases |batches|
  {
    if batches == [] {
      assert sofar + [] == sofar;
    } else {
      ParseMore(next, sofar, batches[0]);
      SplitInvariance(next, sofar + batches[0], batches[1..]);
      assert sofar + batches[0] + Concat(batches[1..]) == sofar + Concat(batches);
    }
  }

  /** What has been read from a prefix of a stream is a prefix of what the stream holds. */
  lemma {:induction false} ParsePrefix<F(!new)>(next: bytes -> Step<F>, b: bytes, t: bytes)
    requires Final(next)
    ensures ParseAll(next, b).items <= ParseAll(next, b + t).items
  {
    ParseMore(next, b, t);
  }

  function PutAll<F>(put: F -> bytes, fs: seq<F>): bytes
  {
    if fs == [] then [] else put(fs[0]) + PutAll(put, fs[1..])
  }

  lemma {:induction false} PutAllSnoc<F>(put: F -> bytes, fs: seq<F>, f: F)
    ensures PutAll(put, fs + [f]) == PutAll(put, fs) + put(f)
  {
    if fs == [] {
      assert fs + [f] == [f];
    } else {
      assert (fs + [f])[1..] == fs[1..] + [f];
      PutAllSnoc(put, fs[1..], f);
    }
  }

  /** A send buffer of which `out` has left and `buf[pos..]` has not, with one more item appended. */
  lemma {:induction false} AppendUnsent<F>(put: F -> bytes, fs: seq<F>, f: F, out: bytes, buf: bytes, pos: nat)
    requires pos <= |buf| && out + buf[pos..] == PutAll(put, fs)
    ensures out + (buf + put(f))[pos..] == PutAll(put, fs + [f])
  {
    PutAllSnoc(put, fs, f);
    assert (buf + put(f))[pos..] == buf[pos..] + put(f);
    assert out + (buf[pos..] + put(f)) == out + buf[pos..] + put(f);
  }

  /** The reader takes `f` off the front of its printed form, whatever follows. */
  ghost predicate Reads<F(!new)>(next: bytes -> Step<F>, put: F -> bytes, f: F)
  {
    forall u :: next(put(f) + u) == Item(f, |put(f)|)
  }

  lemma {:induction false} ReadOne<F(!new)>(next: bytes -> Step<F>, put: F -> bytes, f: F, u: bytes)
    requires Progress(next) && Reads(next, put, f)
    ensures ParseAll(next, put(f) + u) == Before([f], ParseAll(next, u))
  {
    assert next(put(f) + u) == Item(f, |put(f)|);
    assert (put(f) + u)[|put(f)|..] == u;
  }

  function Before<F>(fs: seq<F>, p: Parsed<F>): Parsed<F> { p.(items := fs + p.items) }

  lemma {:induction false} BeforeBefore<F>(f: F, fs: seq<F>, p: Parsed<F>)
    ensures Before([f], Before(fs, p)) == Before([f] + fs, p) && Before([], p) == p
  {
    assert [f] + (fs + p.items) == [f] + fs + p.items;
    assert [] + p.items == p.items;
  }

  lemma {:induction false} PutAllCons<F>(put: F -> bytes, f: F, fs: seq<F>, t: bytes)
    ensures PutAll(put, [f] + fs) + t == put(f) + (PutAll(put, fs) + t) && PutAll(put, []) + t == t
  {
    assert ([f] + fs)[1..] == fs;
  }

  /** Items printed one after the other are read back in order, whatever follows. */
  lemma {:induction false} ReadBack<F(!new)>(next: bytes -> Step<F>, put: F -> bytes, fs: seq<F>, t: bytes)
    requires Progress(next)
    requires forall i :: 0 <= i < |fs| ==> Reads(next, put, fs[i])
    ensures ParseAll(next, PutAll(put, fs) + t) == Before(fs, ParseAll(next, t))
    decreases |fs|
  {
    if fs == [] {
      assert PutAll(put, fs) + t == t;
      assert fs + ParseAll(next, t).items == ParseAll(next, t).items;
    } else {
      var f, more := fs[0], fs[1..];
      PutAllCons(put, f, more, t);
      ReadOne(next, put, f, PutAll(put, more) + t);
      ReadBack(next, put, more, t);
      BeforeBefore(f, more, ParseAll(next, t));
      assert [f] + more == fs;
    }
  }

  lemma {:induction false} TakeStep<F(!new)>(next: bytes -> Step<F>, items: seq<F>, b: bytes)
    requires Progress(next)
    ensures next(b).Item? ==> Before(items, ParseAll(next, b))
                              == Before(items + [next(b).value], ParseAll(next, b[next(b).size..]))
    ensures next(b).More? ==> Before(items, ParseAll(next, b)) == Parsed(items, b, false)
    ensures next(b).Bad? ==> Before(items, ParseAll(next, b)) == Parsed(items, [], true)
  {
    match next(b)
    case Item(f, n) =>
      var more := ParseAll(next, b[n..]).items;
      assert items + ([f] + more) == items + [f] + more;
    case _ =>
      assert items + [] == items;
  }

  /** The dispatch loop of a reader: items off the front of the buffer until none is complete; `off` bytes are used
      up. */
  method TakeAll<F(!new)>(next: bytes -> Step<F>, buf: bytes) returns (items: seq<F>, off: nat, bad: bool)
    requires Progress(next)
    ensures off <= |buf|
    ensures Parsed(items, if bad then [] else buf[off..], bad) == ParseAll(next, buf)
  {
    items, off, bad := [], 0, false;
    assert buf[0..] == buf;
    BeforeNone(ParseAll(next, buf));
    while true
      invariant off <= |buf| && !bad
      invariant ParseAll(next, buf) == Before(items, ParseAll(next, buf[off..]))
      decreases |buf| - off
    {
      TakeStep(next, items, buf[off..]);
      var r := next(buf[off..]);
      if r.More? { break; }
      if r.Bad? { bad := true; break; }
      assert buf[off..][r.size..] == buf[off + r.size..];
      items := items + [r.value];
      off := off + r.size;
    }
  }

  lemma {:induction false} BeforeNone<F>(p: Parsed<F>)
    ensures Before([], p) == p
  {
    assert [] + p.items == p.items;
  }
}
