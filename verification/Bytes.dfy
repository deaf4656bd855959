/** Bytes, options and the few sequence facts that every protocol module shares. */
module Bytes {
  type byte = x: int | 0 <= x < 256
  type bytes = seq<byte>

  datatype Option<+T> = None | Some(value: T)
  {
    predicate IsFailure() { None? }
    function PropagateFailure<U>(): Option<U> requires None? { None }
    function Extract(): T requires Some? { value }
  }

  function Min(a: int, b: int): int { if a <= b then a else b }

  function Concat<T>(parts: seq<seq<T>>): (r: seq<T>)
  {
    if parts == [] then [] else parts[0] + Concat(parts[1..])
  }

  lemma {:induction false} ConcatAppend<T>(xs: seq<seq<T>>, ys: seq<seq<T>>)
    ensures Concat(xs + ys) == Concat(xs) + Concat(ys)
  {
    if xs == [] {
      assert xs + ys == ys;
    } else {
      assert (xs + ys)[1..] == xs[1..] + ys;
      ConcatAppend(xs[1..], ys);
    }
  }

  lemma {:induction false} ConcatSnoc<T>(xs: seq<seq<T>>, y: seq<T>)
    ensures Concat(xs + [y]) == Concat(xs) + y
  {
    ConcatAppend(xs, [y]);
    assert Concat([y]) == y + Concat<T>([]);
  }

  lemma {:induction false} Assoc<T>(a: seq<T>, b: seq<T>, c: seq<T>)
    ensures (a + b) + c == a + (b + c)
  {
  }

  lemma {:induction false} PrefixSnoc<T>(s: seq<T>, i: nat)
    requires i < |s|
    ensures s[..i] + [s[i]] == s[..i + 1]
  {
  }

  lemma {:induction false} SuffixCons<T>(s: seq<T>, i: nat)
    requires i < |s|
    ensures [s[i]] + s[i + 1..] == s[i..]
  {
  }

  /** A sequence without repetitions has as many elements as the set of them. */
  lemma {:induction false} DistinctSize(xs: seq<nat>, all: set<nat>)
    requires forall i, j :: 0 <= i < j < |xs| ==> xs[i] != xs[j]
    requires forall x :: x in all <==> x in xs
    ensures |all| == |xs|
    decreases |xs|
  {
    if xs == [] {
      assert all == {};
    } else {
      var n := |xs| - 1;
      assert xs == xs[..n] + [xs[n]];
      assert xs[n] !in xs[..n];
      DistinctSize(xs[..n], all - {xs[n]});
    }
  }

  ghost predicate OccursAt<T>(hay: seq<T>, needle: seq<T>, i: int)
  {
    0 <= i && i + |needle| <= |hay| && hay[i..i + |needle|] == needle
  }

  /** memmem and its one-character form memchr: the least place at or after `from` where `needle` stands. */
  function Find<T(==)>(hay: seq<T>, needle: seq<T>, from: nat): (r: Option<nat>)
    ensures r.Some? ==> from <= r.value && OccursAt(hay, needle, r.value)
    ensures forall i :: from <= i < (if r.Some? then r.value else |hay| + 1) ==> !OccursAt(hay, needle, i)
    decreases |hay| + 1 - from
  {
    if from + |needle| > |hay| then None
    else if hay[from..from + |needle|] == needle then Some(from)
    else Find(hay, needle, from + 1)
  }

  /** The result of Find is the only value that is an occurrence with none before it. */
  lemma {:induction false} FindIs<T>(hay: seq<T>, needle: seq<T>, from: nat, at: nat)
    requires from <= at && OccursAt(hay, needle, at)
    requires forall i :: from <= i < at ==> !OccursAt(hay, needle, i)
    ensures Find(hay, needle, from) == Some(at)
  {
  }
}
