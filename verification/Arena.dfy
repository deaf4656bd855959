/** The arena allocator: a list of blocks at addresses malloc chose, of which the last is the current one. */
module Arena {
  import opened Bytes

  const ALIGN := 16
  const HEADER := 32
  const SIZE_MAX := 0xFFFF_FFFF_FFFF_FFFF

  /** align_up to 16. */
  function AlignUp(n: nat): (r: nat)
    ensures r % ALIGN == 0 && n <= r < n + ALIGN
  {
    (n + ALIGN - 1) / ALIGN * ALIGN
  }

  datatype Range = Range(start: nat, size: nat)

  predicate Apart(a: Range, b: Range) { a.start + a.size <= b.start || b.start + b.size <= a.start }

  predicate Within(a: Range, b: Range) { b.start <= a.start && a.start + a.size <= b.start + b.size }

  class Block {
    const base: nat
    const cap: nat
    var off: nat
    var next: Block?

    constructor (base: nat, cap: nat)
      ensures this.base == base && this.cap == cap && off == 0 && next == null
    {
      this.base, this.cap, off, next := base, cap, 0, null;
    }

    ghost function Space(): Range { Range(base, cap) }

    ghost function Taken(): Range reads this { Range(base, off) }
  }

  /** Bytes handed out of the blocks of a list. */
  ghost function Total(chain: seq<Block>): nat
    reads chain
  {
    if chain == [] then 0 else chain[0].off + Total(chain[1..])
  }

  /** The blocks do not overlap. */
  ghost predicate Clear(chain: seq<Block>)
  {
    forall i, j :: 0 <= i < j < |chain| ==> Apart(chain[i].Space(), chain[j].Space())
  }

  lemma {:induction false} ClearSnoc(chain: seq<Block>, b: Block)
    requires Clear(chain) && forall c :: c in chain ==> Apart(c.Space(), b.Space())
    ensures Clear(chain + [b])
  {
    var all := chain + [b];
    forall i, j | 0 <= i < j < |all| ensures Apart(all[i].Space(), all[j].Space()) {
      if j == |chain| { assert all[i] in chain; }
    }
  }

  /** The capacity of a block made for one allocation. */
  function NewCap(blockSize: nat, size: nat): nat
  {
    if size + (ALIGN - 1) > blockSize then size + (ALIGN - 1) else blockSize
  }

  class Arena {
    var first: Block
    var cur: Block
    const blockSize: nat
    ghost var chain: seq<Block>    // the list from first on
    ghost var given: seq<Range>    // what was allocated since the last reset
    ghost var home: seq<nat>       // the block of each

    /** The pointers: cur is the last block and every block is reached from first. */
    ghost predicate Linked()
      reads this, chain
    {
      && chain != [] && first == chain[0] && cur == chain[|chain| - 1] && cur.next == null
      && (forall i :: 0 <= i < |chain| - 1 ==> chain[i].next == chain[i + 1])
      && (forall i, j :: 0 <= i < j < |chain| ==> chain[i] != chain[j])
    }

    ghost predicate Spaced()
      reads this, chain
    {
      (forall i :: 0 <= i < |chain| ==> chain[i].off <= chain[i].cap) && Clear(chain)
    }

    /** Every allocation lies in the taken part of one block, and no two meet. */
    ghost predicate Placed()
      reads this, chain
    {
      && |home| == |given|
      && (forall i :: 0 <= i < |given| ==> home[i] < |chain| && Within(given[i], chain[home[i]].Taken()))
      && (forall i, j :: 0 <= i < j < |given| ==> Apart(given[i], given[j]))
      && (forall i :: 0 <= i < |given| ==> given[i].start % ALIGN == 0 && given[i].size > 0)
    }

    ghost predicate Valid()
      reads this, chain
    {
      Linked() && Spaced() && Placed()
    }

    constructor (blockSize: nat, base: nat)
      ensures Valid() && this.blockSize == blockSize && given == [] && fresh(chain) && Total(chain) == 0
    {
      var b := new Block(base, blockSize);
      this.blockSize := blockSize;
      first, cur, chain, given, home := b, b, [b], [], [];
    }

    /** Where the next allocation would start in the current block. */
    ghost function Start(): nat reads this, cur { AlignUp(cur.base + cur.off) }

    ghost predicate HasRoom(n: nat) reads this, cur { Start() + n <= cur.base + cur.cap }

    /** ntc_arena_alloc. `place` is where malloc puts the data of a new block, if it can: clear of all the others. */
    method Alloc(size: nat, place: Option<nat>) returns (r: Option<nat>)
      requires Valid() && size <= SIZE_MAX
      requires place.Some? ==> forall b :: b in chain ==>
        Apart(b.Space(), Range(place.value, NewCap(blockSize, Need(size))))
      modifies this, cur
      ensures Valid() && fresh(set b | b in chain && b !in old(chain) :: b)
      ensures r.None? <==> (
        || Need(size) > SIZE_MAX - (ALIGN - 1)
        || (!old(HasRoom(Need(size))) && (place.None? || NewCap(blockSize, Need(size)) > SIZE_MAX - HEADER)))
      ensures r.None? ==> given == old(given) && chain == old(chain)
      ensures r.Some? ==> given == old(given) + [Range(r.value, Need(size))] && old(chain) <= chain
      ensures r.Some? ==> |chain| == |old(chain)| + if old(HasRoom(Need(size))) then 0 else 1
    {
      var n := Need(size);
      if n > SIZE_MAX - (ALIGN - 1) { return None; }
      if AlignUp(cur.base + cur.off) + n > cur.base + cur.cap {
        var cap := NewCap(blockSize, n);
        if cap > SIZE_MAX - HEADER || place.None? { return None; }
        Grow(place.value, cap);
      }
      var at := Bump(n);
      r := Some(at);
    }

    /** A fresh block at the end of the list. */
    method Grow(base: nat, cap: nat)
      requires Valid() && forall b :: b in chain ==> Apart(b.Space(), Range(base, cap))
      modifies this, cur
      ensures Valid() && given == old(given) && cur.base == base && cur.cap == cap && cur.off == 0 && fresh(cur)
      ensures chain == old(chain) + [cur]
    {
      var nb := new Block(base, cap);
      ghost var was := chain;
      cur.next := nb;
      cur := nb;
      chain := chain + [nb];
      assert Clear(chain) by { ClearSnoc(was, nb); }
      assert forall i :: 0 <= i < |was| ==> chain[i] == was[i];
    }

    /** Take n bytes of the current block. */
    method Bump(n: nat) returns (at: nat)
      requires Valid() && n > 0 && HasRoom(n)
      modifies this`given, this`home, cur`off
      ensures Valid() && chain == old(chain) && cur == old(cur) && at == old(Start())
      ensures given == old(given) + [Range(at, n)]
    {
      at := AlignUp(cur.base + cur.off);
      ghost var k := |chain| - 1;
      ghost var taken := cur.Taken();
      forall i | 0 <= i < |given| ensures Apart(given[i], Range(at, n)) {
        assert Within(given[i], chain[home[i]].Taken());
        if home[i] < k { assert Apart(chain[home[i]].Space(), chain[k].Space()); }
      }
      cur.off := at - cur.base + n;
      given, home := given + [Range(at, n)], home + [k];
    }

    /** ntc_arena_reset: every block after the first is freed, once. */
    method Reset() returns (freed: seq<Block>)
      requires Valid()
      modifies this, first
      ensures Valid() && given == [] && chain == [old(first)] && first == old(first) && Total(chain) == 0
      ensures freed == old(chain)[1..]
    {
      freed := [];
      var b := first.next;
      ghost var i := 1;
      while b != null
        invariant 1 <= i <= |chain| && b == (if i < |chain| then chain[i] else null) && freed == chain[1..i]
        decreases |chain| - i
      {
        var next := b.next;
        freed := freed + [b];
        b := next;
        i := i + 1;
      }
      assert chain[1..i] == chain[1..];
      first.next := null;
      first.off := 0;
      cur := first;
      chain, given, home := [first], [], [];
    }

    /** ntc_arena_used: the offsets along the list. */
    method Used() returns (total: nat)
      requires Valid()
      ensures total == Total(chain)
    {
      total := 0;
      var b: Block? := first;
      ghost var i := 0;
      while b != null
        invariant 0 <= i <= |chain| && b == (if i < |chain| then chain[i] else null)
        invariant Total(chain) == total + Total(chain[i..])
        decreases |chain| - i
      {
        assert chain[i..][1..] == chain[i + 1..];
        total := total + b.off;
        b := b.next;
        i := i + 1;
      }
    }
  }

  /** An allocation of nothing takes a byte. */
  function Need(size: nat): nat { if size == 0 then 1 else size }

  /** Every allocation has a byte of its own, and a new block has room for the one it is made for wherever it lies. */
  lemma {:induction false} Sizes(size: nat, blockSize: nat, base: nat)
    ensures Need(size) >= 1 && (size > 0 ==> Need(size) == size)
    ensures NewCap(blockSize, Need(size)) >= blockSize
    ensures AlignUp(base) + Need(size) <= base + NewCap(blockSize, Need(size))
    ensures NewCap(blockSize, Need(size)) in {blockSize, Need(size) + 15}
  {
  }

  /** The current block has room for n bytes exactly when some aligned address after its last byte does. */
  lemma {:induction false} RoomIff(a: Arena, n: nat)
    requires a.Valid()
    ensures a.HasRoom(n) <==> exists at: nat :: at % 16 == 0 && Fits(a, at, n)
  {
    if a.HasRoom(n) {
      assert a.Start() % 16 == 0 && Fits(a, a.Start(), n);
    } else {
      forall at: nat | at % 16 == 0 && Fits(a, at, n) ensures false {
        LeastAligned(a.cur.base + a.cur.off, at);
      }
    }
  }

  ghost predicate Fits(a: Arena, at: nat, n: nat)
    reads a, a.cur
  {
    a.cur.base + a.cur.off <= at && at + n <= a.cur.base + a.cur.cap
  }

  lemma {:induction false} LeastAligned(n: nat, at: nat)
    requires n <= at && at % 16 == 0
    ensures AlignUp(n) <= at
  {
    var k := (at - AlignUp(n)) / 16;
    assert AlignUp(n) < n + 16;
  }
}
