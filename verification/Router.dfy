/** The router's matcher and the schema matcher of the gateway, which is written differently. */
module Router {
  import opened Bytes

  const MAX_SEGMENTS := 16
  const MAX_PARAMS := 8

  /** How far the first segment of s reaches. */
  function WordLen(s: string): (n: nat)
    ensures n <= |s| && '/' !in s[..n] && (n < |s| ==> s[n] == '/')
  {
    if s == [] || s[0] == '/' then 0 else 1 + WordLen(s[1..])
  }

  /** The non-empty pieces between slashes. */
  function Segments(s: string): seq<string>
    decreases |s|
  {
    if s == [] then []
    else if s[0] == '/' then Segments(s[1..])
    else [s[..WordLen(s)]] + Segments(s[WordLen(s)..])
  }

  /** A segment; a parameter's name is kept without its colon. */
  datatype Seg = Seg(text: string, param: bool)

  function SegOf(w: string): Seg { if |w| > 1 && w[0] == ':' then Seg(w[1..], true) else Seg(w, false) }

  function Segs(ws: seq<string>): (r: seq<Seg>)
    ensures |r| == |ws| && forall i :: 0 <= i < |r| ==> r[i] == SegOf(ws[i])
  {
    seq(|ws|, i requires 0 <= i < |ws| => SegOf(ws[i]))
  }

  /** split_segments into an array of 16. */
  function Split(s: string): Option<seq<Seg>>
  {
    if |Segments(s)| > MAX_SEGMENTS then None else Some(Segs(Segments(s)))
  }

  lemma {:induction false} SegsSnoc(ws: seq<string>, w: string)
    ensures Segs(ws + [w]) == Segs(ws) + [SegOf(w)]
  {
  }

  /** What split_segments has collected and what it has still to read. */
  ghost predicate Splitting(all: seq<string>, ws: seq<string>, rest: seq<string>) { all == ws + rest }

  lemma {:induction false} SplitOne(all: seq<string>, ws: seq<string>, w: string, rest: seq<string>)
    requires Splitting(all, ws, [w] + rest)
    ensures Splitting(all, ws + [w], rest)
  {
    Assoc(ws, [w], rest);
  }

  method SplitSegments(s: string) returns (r: Option<seq<Seg>>)
    ensures r == Split(s)
  {
    var out: seq<Seg> := [];
    ghost var ws, all := [], Segments(s);
    var i := SkipSlashes(s, 0);
    var ok := true;
    assert s[0..] == s && [] + all == all;
    while i < |s| && ok
      invariant i <= |s| && out == Segs(ws) && |out| <= MAX_SEGMENTS && (i < |s| ==> s[i] != '/')
      invariant if ok then Splitting(all, ws, Segments(s[i..])) else |all| > MAX_SEGMENTS
      decreases |s| - i, ok
    {
      var start := i;
      i := SkipWord(s, i);
      ghost var w, rest := s[start..i], Segments(s[i..]);
      assert Segments(s[start..]) == [w] + rest;
      SplitOne(all, ws, w, rest);
      ok := |out| < MAX_SEGMENTS;
      if ok {
        SegsSnoc(ws, w);
        out := out + [SegOf(s[start..i])];
        ws := ws + [w];
        i := SkipSlashes(s, i);
      } else {
        i := start;
      }
    }
    assert ws + [] == ws;
    r := if ok then Some(out) else None;
  }

  method SkipSlashes(s: string, from: nat) returns (i: nat)
    requires from <= |s|
    ensures from <= i <= |s| && Segments(s[from..]) == Segments(s[i..]) && (i < |s| ==> s[i] != '/')
  {
    i := from;
    while i < |s| && s[i] == '/'
      invariant from <= i <= |s| && Segments(s[from..]) == Segments(s[i..])
    {
      assert s[i..][1..] == s[i + 1..];
      i := i + 1;
    }
  }

  method SkipWord(s: string, from: nat) returns (i: nat)
    requires from < |s| && s[from] != '/'
    ensures from < i <= |s| && i == from + WordLen(s[from..])
    ensures s[from..][..i - from] == s[from..i] && s[from..][i - from..] == s[i..]
  {
    i := from;
    while i < |s| && s[i] != '/'
      invariant from <= i <= |s| && WordLen(s[from..]) == i - from + WordLen(s[i..])
    {
      assert s[i..][1..] == s[i + 1..];
      i := i + 1;
    }
  }

  // ---- matching ----

  datatype Route = Route(verb: string, segs: seq<Seg>, handler: nat)

  predicate Fits(segs: seq<Seg>, path: Option<seq<Seg>>)
  {
    && path.Some? && |segs| == |path.value|
    && forall j :: 0 <= j < |segs| ==> segs[j].param || segs[j].text == path.value[j].text
  }

  /** The values of the parameters among the first j segments. */
  function Captured(segs: seq<Seg>, path: seq<Seg>, j: nat): seq<(string, string)>
    requires j <= |segs| == |path|
  {
    if j == 0 then []
    else Captured(segs, path, j - 1) + if segs[j - 1].param then [(segs[j - 1].text, path[j - 1].text)] else []
  }

  datatype Outcome = Found(index: nat, params: seq<(string, string)>) | NotFound | MethodNotAllowed

  /** What ntc_router_match must return. */
  ghost predicate Correct(routes: seq<Route>, verb: string, path: string, r: Outcome)
  {
    var p := Split(path);
    match r
    case Found(i, params) =>
      && i < |routes| && Fits(routes[i].segs, p) && routes[i].verb == verb
      && (forall k :: 0 <= k < i ==> !(Fits(routes[k].segs, p) && routes[k].verb == verb))
      && var all := Captured(routes[i].segs, p.value, |routes[i].segs|); params == all[..Min(MAX_PARAMS, |all|)]
    case MethodNotAllowed =>
      && (exists k :: 0 <= k < |routes| && Fits(routes[k].segs, p))
      && (forall k :: 0 <= k < |routes| && Fits(routes[k].segs, p) ==> routes[k].verb != verb)
    case NotFound => forall k :: 0 <= k < |routes| ==> !Fits(routes[k].segs, p)
  }

  /** Exactly one outcome is correct. */
  lemma {:induction false} OneOutcome(routes: seq<Route>, verb: string, path: string, a: Outcome, b: Outcome)
    requires Correct(routes, verb, path, a) && Correct(routes, verb, path, b)
    ensures a == b
  {
  }

  class Table {
    var routes: seq<Route>

    constructor ()
      ensures routes == []
    {
      routes := [];
    }

    /** ntc_router_add: a pattern of more than 16 segments is refused. */
    method Add(verb: string, pattern: string, handler: nat) returns (ok: bool)
      modifies this
      ensures ok == Split(pattern).Some?
      ensures routes == old(routes) + if ok then [Route(verb, Split(pattern).value, handler)] else []
    {
      var segs := SplitSegments(pattern);
      ok := segs.Some?;
      if ok { routes := routes + [Route(verb, segs.value, handler)]; } else { assert routes + [] == routes; }
    }

    /** ntc_router_match: the first route whose segments and method fit; 405 if only methods differ; otherwise 404. */
    method Match(verb: string, path: string) returns (r: Outcome)
      ensures Correct(routes, verb, path, r)
    {
      var ps := SplitSegments(path);
      var mismatch, i := false, 0;
      while i < |routes|
        invariant 0 <= i <= |routes|
        invariant forall k :: 0 <= k < i ==> !(Fits(routes[k].segs, ps) && routes[k].verb == verb)
        invariant mismatch <==> exists k :: 0 <= k < i && Fits(routes[k].segs, ps)
      {
        var ok := FitsLoop(routes[i].segs, ps);
        if ok {
          if routes[i].verb == verb {
            var params := Capture(routes[i].segs, ps.value);
            return Found(i, params);
          }
          mismatch := true;
        }
        i := i + 1;
      }
      r := if mismatch then MethodNotAllowed else NotFound;
    }
  }

  method FitsLoop(segs: seq<Seg>, path: Option<seq<Seg>>) returns (ok: bool)
    ensures ok == Fits(segs, path)
  {
    if path.None? || |path.value| != |segs| { return false; }
    var j := 0;
    while j < |segs|
      invariant 0 <= j <= |segs|
      invariant forall k :: 0 <= k < j ==> segs[k].param || segs[k].text == path.value[k].text
    {
      if !segs[j].param && segs[j].text != path.value[j].text { return false; }
      j := j + 1;
    }
    ok := true;
  }

  method Capture(segs: seq<Seg>, path: seq<Seg>) returns (params: seq<(string, string)>)
    requires |segs| == |path|
    ensures var all := Captured(segs, path, |segs|); params == all[..Min(MAX_PARAMS, |all|)]
  {
    params := [];
    var j: nat := 0;
    while j < |segs|
      invariant j <= |segs|
      invariant var all := Captured(segs, path, j); params == all[..Min(MAX_PARAMS, |all|)]
    {
      if segs[j].param && |params| < MAX_PARAMS { params := params + [(segs[j].text, path[j].text)]; }
      j := j + 1;
    }
  }

  // ---- what a handler asks for ----

  /** ntc_params_get: the value of the first parameter of that name. */
  function ParamGet(params: seq<(string, string)>, name: string): Option<string>
  {
    if params == [] then None
    else if params[0].0 == name then Some(params[0].1)
    else ParamGet(params[1..], name)
  }

  /** The parameters captured from the first j segments are the first ones of all. */
  lemma {:induction false} CapturedFirst(segs: seq<Seg>, path: seq<Seg>, j: nat, n: nat)
    requires j <= n <= |segs| == |path|
    ensures Captured(segs, path, j) <= Captured(segs, path, n)
    decreases n
  {
    if j < n { CapturedFirst(segs, path, j, n - 1); }
  }

  lemma {:induction false} GetAppend(a: seq<(string, string)>, b: seq<(string, string)>, name: string)
    ensures ParamGet(a + b, name) == if ParamGet(a, name).Some? then ParamGet(a, name) else ParamGet(b, name)
    decreases |a|
  {
    if a == [] {
      assert a + b == b;
    } else {
      assert (a + b)[1..] == a[1..] + b;
      GetAppend(a[1..], b, name);
    }
  }

  /** No parameter of that name among the first j segments. */
  lemma {:induction false} NotCaptured(segs: seq<Seg>, path: seq<Seg>, j: nat, name: string)
    requires j <= |segs| == |path| && forall i :: 0 <= i < j ==> segs[i].param ==> segs[i].text != name
    ensures ParamGet(Captured(segs, path, j), name) == None
    decreases j
  {
    if j > 0 {
      NotCaptured(segs, path, j - 1, name);
      var last := if segs[j - 1].param then [(segs[j - 1].text, path[j - 1].text)] else [];
      GetAppend(Captured(segs, path, j - 1), last, name);
    }
  }

  /** A handler that asks for a parameter by name gets what the path has at the first place the pattern has it, as
      long as it is among the first eight. */
  lemma {:induction false} ParamsArrive(segs: seq<Seg>, path: seq<Seg>, k: nat)
    requires k < |segs| == |path| && segs[k].param
    requires forall i :: 0 <= i < k && segs[i].param ==> segs[i].text != segs[k].text
    requires |Captured(segs, path, k)| < MAX_PARAMS
    ensures var all := Captured(segs, path, |segs|);
      ParamGet(all[..Min(MAX_PARAMS, |all|)], segs[k].text) == Some(path[k].text)
  {
    var name := segs[k].text;
    var a, all := Captured(segs, path, k), Captured(segs, path, |segs|);
    var one := a + [(name, path[k].text)];
    assert Captured(segs, path, k + 1) == one;
    CapturedFirst(segs, path, k + 1, |segs|);
    var kept := all[..Min(MAX_PARAMS, |all|)];
    assert one <= kept && kept == one + kept[|one|..];
    NotCaptured(segs, path, k, name);
    GetAppend(a, [(name, path[k].text)], name);
    GetAppend(one, kept[|one|..], name);
  }

  // ---- the schema matcher ----

  /** One turn of seg_pattern_match: what is left of the pattern and of the path after a segment that matches. */
  function SchemaNext(p: string, x: string): (r: Option<(string, string)>)
    requires p != [] && x != []
    ensures r.Some? ==> |r.value.0| < |p|
  {
    if p[0] != '/' || x[0] != '/' then None
    else
      var p', x' := p[1..], x[1..];
      var a, b := WordLen(p'), WordLen(x');
      if a > 0 && p'[0] == ':' then (if b == 0 then None else Some((p'[a..], x'[b..])))
      else if p'[..a] != x'[..b] then None else Some((p'[a..], x'[b..]))
  }

  predicate SchemaMatch(p: string, x: string)
    decreases |p|
  {
    if p == [] || x == [] then p == [] && x == []
    else
      match SchemaNext(p, x)
      case None => false
      case Some((p', x')) => SchemaMatch(p', x')
  }

  method SegPatternMatch(pat: string, path: string) returns (ok: bool)
    ensures ok == SchemaMatch(pat, path)
  {
    var pp: nat, xp: nat, going := 0, 0, true;
    while pp < |pat| && xp < |path| && going
      invariant pp <= |pat| && xp <= |path|
      invariant SchemaMatch(pat, path) == (going && SchemaMatch(pat[pp..], path[xp..]))
      decreases |pat| - pp, going
    {
      going, pp, xp := SchemaTurn(pat, pp, path, xp);
    }
    ok := going && pp == |pat| && xp == |path|;
  }

  method SchemaTurn(pat: string, pp: nat, path: string, xp: nat) returns (ok: bool, pp': nat, xp': nat)
    requires pp < |pat| && xp < |path|
    ensures pp <= pp' <= |pat| && xp <= xp' <= |path| && (ok ==> pp < pp')
    ensures SchemaNext(pat[pp..], path[xp..]) == if ok then Some((pat[pp'..], path[xp'..])) else None
  {
    ok, pp', xp' := false, pp, xp;
    if pat[pp] == '/' && path[xp] == '/' {
      Tails(pat, pp, 1);
      Tails(path, xp, 1);
      var a, b := WordLen(pat[pp + 1..]), WordLen(path[xp + 1..]);
      Tails(pat, pp + 1, a);
      Tails(path, xp + 1, b);
      ok := if a > 0 && pat[pp + 1] == ':' then b > 0 else pat[pp + 1..pp + 1 + a] == path[xp + 1..xp + 1 + b];
      if ok { pp', xp' := pp + 1 + a, xp + 1 + b; }
    }
  }

  lemma {:induction false} Tails(s: string, i: nat, k: nat)
    requires i + k <= |s|
    ensures s[i..][k..] == s[i + k..] && s[i..][..k] == s[i..i + k]
  {
  }

  // ---- canonical texts ----

  function Join(ws: seq<string>): string { if ws == [] then [] else ['/'] + (ws[0] + Join(ws[1..])) }

  /** The canonical text of a list of segments. */
  function Path(ws: seq<string>): string { if ws == [] then "/" else Join(ws) }

  /** No empty segment and no slash in one. */
  ghost predicate Plain(ws: seq<string>) { forall w :: w in ws ==> w != [] && '/' !in w }

  lemma {:induction false} PlainTail(ws: seq<string>)
    requires Plain(ws) && ws != []
    ensures Plain(ws[1..])
  {
    forall w | w in ws[1..] ensures w != [] && '/' !in w { assert w in ws; }
  }

  lemma {:induction false} WordOf(w: string, rest: string)
    requires '/' !in w && (rest == [] || rest[0] == '/')
    ensures WordLen(w + rest) == |w| && (w + rest)[..|w|] == w && (w + rest)[|w|..] == rest
    decreases |w|
  {
    if w == [] {
      assert w + rest == rest;
    } else {
      assert (w + rest)[1..] == w[1..] + rest;
      WordOf(w[1..], rest);
    }
  }

  lemma {:induction false} JoinStart(ws: seq<string>)
    ensures Join(ws) == [] || Join(ws)[0] == '/'
  {
  }

  lemma {:induction false} SegmentsOfJoin(ws: seq<string>)
    requires Plain(ws)
    ensures Segments(Join(ws)) == ws
    decreases |ws|
  {
    if ws != [] {
      var w, rest := ws[0], Join(ws[1..]);
      assert w in ws;
      PlainTail(ws);
      JoinStart(ws[1..]);
      WordOf(w, rest);
      SegmentsOfJoin(ws[1..]);
      assert Join(ws)[1..] == w + rest;
      assert (w + rest)[0] == w[0];
      assert ws == [w] + ws[1..];
    }
  }

  lemma {:induction false} SegmentsOfPath(ws: seq<string>)
    requires Plain(ws)
    ensures Segments(Path(ws)) == ws
  {
    if ws == [] { assert "/"[1..] == []; } else { SegmentsOfJoin(ws); }
  }

  ghost predicate SameShape(ps: seq<string>, xs: seq<string>)
  {
    |ps| == |xs| && forall i :: 0 <= i < |ps| ==> (ps[i] != [] && ps[i][0] == ':') || ps[i] == xs[i]
  }

  lemma {:induction false} SameShapeCons(ps: seq<string>, xs: seq<string>)
    requires ps != [] && xs != []
    ensures SameShape(ps, xs) <==> ((ps[0] != [] && ps[0][0] == ':') || ps[0] == xs[0]) && SameShape(ps[1..], xs[1..])
  {
    var p', x' := ps[1..], xs[1..];
    if |ps| == |xs| {
      assert forall i :: 0 < i < |ps| ==> ps[i] == p'[i - 1] && xs[i] == x'[i - 1];
      assert forall i :: 0 <= i < |p'| ==> p'[i] == ps[i + 1] && x'[i] == xs[i + 1];
    }
  }

  /** One turn of the schema matcher on a segment and what follows it. */
  lemma {:induction false} SchemaSegment(p: string, p': string, x: string, x': string)
    requires p != [] && x != [] && '/' !in p && '/' !in x
    requires (p' == [] || p'[0] == '/') && (x' == [] || x'[0] == '/')
    ensures SchemaNext(['/'] + (p + p'), ['/'] + (x + x')) == if p[0] == ':' || p == x then Some((p', x')) else None
  {
    WordOf(p, p');
    WordOf(x, x');
    assert (['/'] + (p + p'))[1..] == p + p' && (['/'] + (x + x'))[1..] == x + x' && (p + p')[0] == p[0];
  }

  lemma {:induction false} SchemaOfJoin(ps: seq<string>, xs: seq<string>)
    requires Plain(ps) && Plain(xs)
    ensures SchemaMatch(Join(ps), Join(xs)) == SameShape(ps, xs)
    decreases |ps|
  {
    if ps != [] && xs != [] {
      assert ps[0] in ps && xs[0] in xs;
      PlainTail(ps);
      PlainTail(xs);
      JoinStart(ps[1..]);
      JoinStart(xs[1..]);
      SchemaSegment(ps[0], Join(ps[1..]), xs[0], Join(xs[1..]));
      SchemaOfJoin(ps[1..], xs[1..]);
      SameShapeCons(ps, xs);
    }
  }

  lemma {:induction false} SchemaOfPath(ps: seq<string>, xs: seq<string>)
    requires Plain(ps) && Plain(xs)
    ensures SchemaMatch(Path(ps), Path(xs)) == SameShape(ps, xs)
  {
    if ps != [] && xs != [] {
      SchemaOfJoin(ps, xs);
    } else {
      assert WordLen([]) == 0;
      RootOnly(ps, xs);
    }
  }

  lemma {:induction false} RootOnly(ps: seq<string>, xs: seq<string>)
    requires Plain(ps) && Plain(xs) && (ps == [] || xs == [])
    ensures SchemaMatch(Path(ps), Path(xs)) == (ps == [] && xs == [])
  {
    if ps != [] {
      assert ps[0] in ps;
      JoinStart(ps[1..]);
      WordOf(ps[0], Join(ps[1..]));
      assert Join(ps)[1..] == ps[0] + Join(ps[1..]) && (ps[0] + Join(ps[1..]))[0] == ps[0][0];
    }
    if xs != [] {
      assert xs[0] in xs;
      JoinStart(xs[1..]);
      WordOf(xs[0], Join(xs[1..]));
      assert Join(xs)[1..] == xs[0] + Join(xs[1..]);
    }
    assert "/"[1..] == [];
  }

  // ---- where the two matchers part ----

  /** The router's test of one segment, and the schema matcher's. */
  predicate RouterTakes(p: string, x: string) { SegOf(p).param || SegOf(p).text == SegOf(x).text }

  predicate SchemaTakes(p: string, x: string) { (p != [] && p[0] == ':') || p == x }

  predicate Named(p: string) { |p| > 1 && p[0] == ':' }

  /** Segment by segment the tests agree except in two cases: a bare colon, which is a literal to the router and a
      parameter to the schema matcher, and a path segment that is the literal with a colon before it, which the router
      strips. */
  lemma {:induction false} SegmentsAgree(p: string, x: string)
    requires p != [] && x != []
    ensures RouterTakes(p, x) == SchemaTakes(p, x)
      <==> !(p == ":" && x != ":" && x != "::") && !(p[0] != ':' && x == ":" + p)
  {
    assert |p| == 1 ==> p == [p[0]];
    assert x == [x[0]] + x[1..];
    assert |x| == 1 ==> x[1..] == [];
    assert (":" + p)[0] == ':' && (":" + p)[1..] == p;
    if x[0] == ':' { assert x == ":" + x[1..]; }
  }

  /** The whole matchers, on canonical texts, are the segment tests at every place. */
  lemma {:induction false} MatchersBySegment(ps: seq<string>, xs: seq<string>)
    requires Plain(ps) && Plain(xs) && |ps| <= MAX_SEGMENTS
    ensures Split(Path(ps)).Some?
    ensures Fits(Split(Path(ps)).value, Split(Path(xs)))
      <==> |ps| == |xs| && forall i :: 0 <= i < |ps| ==> RouterTakes(ps[i], xs[i])
    ensures SchemaMatch(Path(ps), Path(xs))
      <==> |ps| == |xs| && forall i :: 0 <= i < |ps| ==> SchemaTakes(ps[i], xs[i])
  {
    SegmentsOfPath(ps);
    SegmentsOfPath(xs);
    SchemaOfPath(ps, xs);
    FitsBySegment(ps, xs);
    ShapeBySegment(ps, xs);
  }

  lemma {:induction false} FitsBySegment(ps: seq<string>, xs: seq<string>)
    ensures Fits(Segs(ps), Some(Segs(xs))) <==> |ps| == |xs| && forall i :: 0 <= i < |ps| ==> RouterTakes(ps[i], xs[i])
  {
    var a, b := Segs(ps), Segs(xs);
    if |ps| == |xs| {
      assert forall i :: 0 <= i < |ps| ==> (a[i].param || a[i].text == b[i].text) == RouterTakes(ps[i], xs[i]);
    }
  }

  lemma {:induction false} ShapeBySegment(ps: seq<string>, xs: seq<string>)
    ensures SameShape(ps, xs) <==> |ps| == |xs| && forall i :: 0 <= i < |ps| ==> SchemaTakes(ps[i], xs[i])
  {
    if |ps| == |xs| {
      assert forall i :: 0 <= i < |ps| ==>
        SchemaTakes(ps[i], xs[i]) == ((ps[i] != [] && ps[i][0] == ':') || ps[i] == xs[i]);
    }
  }

  // ---- any text ----

  /** One slash before every segment, none after the last. */
  predicate Canonical(s: string) { s == Path(Segments(s)) }

  lemma {:induction false} SegmentsPlain(s: string)
    ensures Plain(Segments(s))
    decreases |s|
  {
    if s != [] && s[0] == '/' {
      SegmentsPlain(s[1..]);
    } else if s != [] {
      SegmentsPlain(s[WordLen(s)..]);
    }
  }

  /** What the schema matcher sees of a text: a slash, a word that may be empty, and the rest. */
  lemma {:induction false} JoinedStep(s: string, w: string, rest: string)
    requires s == ['/'] + (w + rest) && '/' !in w && (rest == [] || rest[0] == '/')
    ensures s == Join(Segments(s)) <==> w != [] && rest == Join(Segments(rest))
  {
    WordOf(w, rest);
    assert s[1..] == w + rest;
    if w == [] {
      assert w + rest == rest;
      EmptyWord(s, rest);
    } else {
      assert (w + rest)[0] == w[0];
      assert Segments(s) == [w] + Segments(rest);
      assert ([w] + Segments(rest))[1..] == Segments(rest);
      SameTail(w, rest, Join(Segments(rest)));
    }
  }

  lemma {:induction false} SameTail(w: string, a: string, b: string)
    ensures ['/'] + (w + a) == ['/'] + (w + b) <==> a == b
  {
    assert (['/'] + (w + a))[1 + |w|..] == a && (['/'] + (w + b))[1 + |w|..] == b;
  }

  lemma {:induction false} EmptyWord(s: string, rest: string)
    requires s == ['/'] + rest && (rest == [] || rest[0] == '/')
    ensures s != Join(Segments(s))
  {
    var ws := Segments(s);
    SegmentsPlain(s);
    if ws != [] {
      assert ws[0] in ws;
      assert Join(ws)[1] == ws[0][0];
      assert rest != [] ==> s[1] == '/';
    }
  }

  lemma {:induction false} CanonicalIs(s: string)
    ensures Canonical(s) <==> s == "/" || (s != [] && s == Join(Segments(s)))
  {
    assert "/"[1..] == [];
  }

  /** A match leaves no room for a difference in slashes: one text is canonical exactly when the other is. */
  lemma {:induction false} MatchKeepsSlashes(p: string, x: string)
    requires SchemaMatch(p, x)
    ensures p == Join(Segments(p)) <==> x == Join(Segments(x))
    ensures p == "/" <==> x == "/"
    decreases |p|
  {
    if p != [] && x != [] {
      var (p', x') := SchemaNext(p, x).value;
      var a, b := TurnParts(p, p', x, x');
      JoinedStep(p, a, p');
      JoinedStep(x, b, x');
      MatchKeepsSlashes(p', x');
    }
  }

  /** A turn takes a slash and a word off both texts, and both words are empty or none is. */
  lemma {:induction false} TurnParts(p: string, p': string, x: string, x': string) returns (a: string, b: string)
    requires p != [] && x != [] && SchemaNext(p, x) == Some((p', x'))
    ensures p == ['/'] + (a + p') && x == ['/'] + (b + x')
    ensures '/' !in a && '/' !in b && (a == [] <==> b == [])
    ensures (p' == [] || p'[0] == '/') && (x' == [] || x'[0] == '/')
  {
    a, b := p[1..][..WordLen(p[1..])], x[1..][..WordLen(x[1..])];
    WordAndRest(p);
    WordAndRest(x);
  }

  lemma {:induction false} WordAndRest(s: string)
    requires s != [] && s[0] == '/'
    ensures var u := s[1..]; s == ['/'] + (u[..WordLen(u)] + u[WordLen(u)..])
  {
  }

  lemma {:induction false} CanonicalMatch(p: string, x: string)
    requires SchemaMatch(p, x)
    ensures Canonical(p) <==> Canonical(x)
  {
    MatchKeepsSlashes(p, x);
    CanonicalIs(p);
    CanonicalIs(x);
  }

  /** Each matcher on any text of the path: the router looks at its segments only, the schema matcher takes it only if
      it is canonical. */
  lemma {:induction false} MatchersOnText(p: string, x: string)
    requires Split(p).Some? && Canonical(p)
    ensures Fits(Split(p).value, Split(x)) <==> Everywhere(RouterTakes, Segments(p), Segments(x))
    ensures SchemaMatch(p, x) <==> Canonical(x) && Everywhere(SchemaTakes, Segments(p), Segments(x))
  {
    var ps, xs := Segments(p), Segments(x);
    SegmentsPlain(p);
    SegmentsPlain(x);
    MatchersBySegment(ps, xs);
    FitsBySegment(ps, xs);
    if SchemaMatch(p, x) { CanonicalMatch(p, x); }
  }

  ghost predicate Everywhere(takes: (string, string) -> bool, ps: seq<string>, xs: seq<string>)
  {
    |ps| == |xs| && forall i :: 0 <= i < |ps| ==> takes(ps[i], xs[i])
  }

  /** The router, on any pattern that can be registered and any path. */
  lemma {:induction false} RouterOnText(p: string, x: string)
    requires Split(p).Some?
    ensures Fits(Split(p).value, Split(x)) <==> Everywhere(RouterTakes, Segments(p), Segments(x))
  {
    FitsBySegment(Segments(p), Segments(x));
  }

  // ---- agreement ----

  /** The router and the schema matcher give the same answer. */
  ghost predicate Agree(p: string, x: string)
    requires Split(p).Some?
  {
    Fits(Split(p).value, Split(x)) == SchemaMatch(p, x)
  }

  /** No segment that starts with a colon. */
  ghost predicate NoColons(xs: seq<string>) { forall x :: x in xs ==> x != [] && x[0] != ':' }

  /** Where the segment tests agree, the schema matcher takes exactly the canonical ones of the paths that are
      routed. */
  lemma {:induction false} MatchersAgree(p: string, x: string)
    requires Split(p).Some? && Canonical(p)
    requires var ps, xs := Segments(p), Segments(x);
      forall i :: 0 <= i < |ps| && i < |xs| ==> RouterTakes(ps[i], xs[i]) == SchemaTakes(ps[i], xs[i])
    ensures SchemaMatch(p, x) <==> Fits(Split(p).value, Split(x)) && Canonical(x)
  {
    MatchersOnText(p, x);
  }

  /** In particular for a pattern without a bare colon and a path without a colon-led segment. */
  lemma {:induction false} AgreeUpToSlashes(p: string, x: string)
    requires Split(p).Some? && Canonical(p) && ":" !in Segments(p) && NoColons(Segments(x))
    ensures SchemaMatch(p, x) <==> Fits(Split(p).value, Split(x)) && Canonical(x)
  {
    var ps, xs := Segments(p), Segments(x);
    SegmentsPlain(p);
    forall i | 0 <= i < |ps| && i < |xs| ensures RouterTakes(ps[i], xs[i]) == SchemaTakes(ps[i], xs[i]) {
      assert ps[i] in ps && xs[i] in xs;
      SegmentsAgree(ps[i], xs[i]);
    }
    MatchersAgree(p, x);
  }

  /** A path that every segment of ps takes: a parameter is filled with "x". */
  function Filled(ps: seq<string>, bare: bool): (xs: seq<string>)
    ensures |xs| == |ps| && forall i :: 0 <= i < |xs| ==> xs[i] == Fill(ps[i], bare)
  {
    seq(|ps|, i requires 0 <= i < |ps| => Fill(ps[i], bare))
  }

  /** What stands for p: bare says whether a bare colon is a parameter too. */
  function Fill(p: string, bare: bool): string { if Named(p) || (bare && p == ":") then "x" else p }

  lemma {:induction false} FillPlain(ps: seq<string>, bare: bool)
    requires Plain(ps)
    ensures Plain(Filled(ps, bare)) && (bare || ":" !in ps ==> NoColons(Filled(ps, bare)))
  {
    var xs := Filled(ps, bare);
    forall x | x in xs ensures x != [] && '/' !in x && (bare || ":" !in ps ==> x[0] != ':') {
      var i :| 0 <= i < |xs| && xs[i] == x;
      assert ps[i] in ps;
      assert |ps[i]| == 1 ==> ps[i] == [ps[i][0]];
    }
  }

  /** The router takes the filled path, whatever slashes are added to it. */
  lemma {:induction false} RouterTakesFilled(p: string, x: string)
    requires Split(p).Some? && Segments(x) == Filled(Segments(p), false)
    ensures Fits(Split(p).value, Split(x))
  {
    RouterOnText(p, x);
  }

  lemma {:induction false} CanonicalPath(ws: seq<string>)
    requires Plain(ws)
    ensures Segments(Path(ws)) == ws && Canonical(Path(ws))
  {
    SegmentsOfPath(ws);
  }

  /** Among canonical paths without a colon-led segment a pattern is matched alike everywhere exactly when it is
      canonical and has no bare colon, or neither (and then it matches none of them). */
  lemma {:induction false} AgreeWithoutColons(p: string)
    requires Split(p).Some?
    ensures (forall x :: Canonical(x) && NoColons(Segments(x)) ==> Agree(p, x))
      <==> (Canonical(p) <==> ":" !in Segments(p))
  {
    SegmentsPlain(p);
    if ":" in Segments(p) {
      if Canonical(p) { BareColonParts(p); } else { MatchesNone(p); }
    } else if Canonical(p) {
      forall x | Canonical(x) && NoColons(Segments(x)) ensures Agree(p, x) { AgreeUpToSlashes(p, x); }
    } else {
      SlashesPart(p);
    }
  }

  lemma {:induction false} BareColonParts(p: string)
    requires Split(p).Some? && Canonical(p) && ":" in Segments(p)
    ensures exists x :: Canonical(x) && NoColons(Segments(x)) && !Agree(p, x)
  {
    var ps := Segments(p);
    SegmentsPlain(p);
    var xs := Filled(ps, true);
    FillPlain(ps, true);
    CanonicalPath(xs);
    var k :| 0 <= k < |ps| && ps[k] == ":";
    MatchersOnText(p, Path(xs));
    forall i | 0 <= i < |ps| ensures SchemaTakes(ps[i], xs[i]) { assert ps[i] in ps; }
    assert ":"[0] != "x"[0];
    assert !RouterTakes(ps[k], xs[k]);
    assert !Agree(p, Path(xs));
  }

  /** A pattern that is not canonical and has a bare colon matches no canonical path without colon-led segments, for
      either matcher. */
  lemma {:induction false} MatchesNone(p: string)
    requires Split(p).Some? && !Canonical(p) && ":" in Segments(p)
    ensures forall x :: Canonical(x) && NoColons(Segments(x)) ==> Agree(p, x)
  {
    var ps := Segments(p);
    var k :| 0 <= k < |ps| && ps[k] == ":";
    forall x | Canonical(x) && NoColons(Segments(x)) ensures Agree(p, x) {
      if SchemaMatch(p, x) { CanonicalMatch(p, x); }
      RouterOnText(p, x);
      var xs := Segments(x);
      if |xs| == |ps| {
        assert xs[k] in xs;
        assert !RouterTakes(ps[k], xs[k]);
      }
    }
  }

  /** Slashes of the pattern's own: the router takes its canonical filling, the schema matcher does not. */
  lemma {:induction false} SlashesPart(p: string)
    requires Split(p).Some? && !Canonical(p)
    ensures exists x :: Canonical(x) && !Agree(p, x)
    ensures ":" !in Segments(p) ==> exists x :: Canonical(x) && NoColons(Segments(x)) && !Agree(p, x)
  {
    var xs := Filled(Segments(p), false);
    SegmentsPlain(p);
    FillPlain(Segments(p), false);
    CanonicalPath(xs);
    RouterTakesFilled(p, Path(xs));
    if SchemaMatch(p, Path(xs)) { CanonicalMatch(p, Path(xs)); }
    assert !Agree(p, Path(xs));
  }

  /** Among all canonical paths a pattern is matched alike everywhere exactly when it is canonical and every segment of
      it is a named parameter. */
  lemma {:induction false} AgreeOnCanonical(p: string)
    requires Split(p).Some?
    ensures (forall x :: Canonical(x) ==> Agree(p, x)) <==> Canonical(p) && forall w :: w in Segments(p) ==> Named(w)
  {
    var ps := Segments(p);
    if !Canonical(p) {
      SlashesPart(p);
    } else if forall w :: w in ps ==> Named(w) {
      forall x | Canonical(x) ensures Agree(p, x) {
        forall i | 0 <= i < |ps| && i < |Segments(x)|
          ensures RouterTakes(ps[i], Segments(x)[i]) == SchemaTakes(ps[i], Segments(x)[i])
        {
          assert ps[i] in ps;
        }
        MatchersAgree(p, x);
      }
    } else if ":" in ps {
      BareColonParts(p);
    } else {
      var w :| w in ps && !Named(w);
      var k :| 0 <= k < |ps| && ps[k] == w;
      StrippedColonParts(p, k);
    }
  }

  lemma {:induction false} StrippedColonParts(p: string, k: nat)
    requires Split(p).Some? && Canonical(p) && k < |Segments(p)| && !Named(Segments(p)[k]) && ":" !in Segments(p)
    ensures exists x :: Canonical(x) && !Agree(p, x)
  {
    var ps := Segments(p);
    var w := ps[k];
    SegmentsPlain(p);
    assert w in ps && (|w| == 1 ==> w == [w[0]]);
    var xs := Filled(ps, false)[k := ":" + w];
    FillPlain(ps, false);
    forall x | x in xs ensures x != [] && '/' !in x {
      if x != ":" + w { assert x in Filled(ps, false); }
    }
    CanonicalPath(xs);
    MatchersOnText(p, Path(xs));
    SegmentsAgree(w, ":" + w);
    forall i | 0 <= i < |ps| ensures RouterTakes(ps[i], xs[i]) {
      assert ps[i] in ps;
      if i == k { assert (":" + w)[1..] == w; }
    }
    assert !SchemaTakes(ps[k], xs[k]);
    assert !Agree(p, Path(xs));
  }

  lemma {:induction false} SlashAfter(s: string)
    ensures Segments(s + "/") == Segments(s)
    decreases |s|
  {
    if s == [] {
      assert s + "/" == "/" && "/"[1..] == [];
    } else if s[0] == '/' {
      assert (s + "/")[1..] == s[1..] + "/";
      SlashAfter(s[1..]);
    } else {
      var n := WordLen(s);
      WordOf(s[..n], s[n..] + "/");
      assert s[..n] + (s[n..] + "/") == s + "/";
      SlashAfter(s[n..]);
    }
  }

  /** Over all texts of a path no pattern is matched alike everywhere: with a slash more at the end a path is still
      routed, and no schema applies. */
  lemma {:induction false} NeverAgreesEverywhere(p: string)
    requires Split(p).Some?
    ensures exists x :: !Agree(p, x)
  {
    if Canonical(p) {
      var xs := Filled(Segments(p), false);
      SegmentsPlain(p);
      FillPlain(Segments(p), false);
      SegmentsOfPath(xs);
      var x := Path(xs) + "/";
      SlashAfter(Path(xs));
      RouterTakesFilled(p, x);
      assert |x| > |Path(xs)|;
      MatchersOnText(p, x);
      assert !Agree(p, x);
    } else {
      SlashesPart(p);
    }
  }

  /** A segment of a path that loses its colon in the router and is then a literal. */
  predicate LosesColon(x: string) { |x| > 1 && x[0] == ':' && x[1] != ':' }

  /** The other way round: a path is matched alike by all canonical patterns without a bare colon exactly when it has
      too many segments for any, or is canonical and no segment of it loses a colon. */
  lemma {:induction false} SafePaths(x: string)
    ensures (forall p :: Split(p).Some? && Canonical(p) && ":" !in Segments(p) ==> Agree(p, x))
      <==> |Segments(x)| > MAX_SEGMENTS || (Canonical(x) && forall w :: w in Segments(x) ==> !LosesColon(w))
  {
    var xs := Segments(x);
    SegmentsPlain(x);
    if |xs| > MAX_SEGMENTS {
      forall p | Split(p).Some? && Canonical(p) && ":" !in Segments(p) ensures Agree(p, x) { MatchersOnText(p, x); }
    } else if !Canonical(x) {
      AnyParameters(x, |xs|, "x");
    } else if exists w :: w in xs && LosesColon(w) {
      var w :| w in xs && LosesColon(w);
      var k :| 0 <= k < |xs| && xs[k] == w;
      AnyParameters(x, k, w[1..]);
    } else {
      forall p | Split(p).Some? && Canonical(p) && ":" !in Segments(p) ensures Agree(p, x) {
        SafeSegments(p, x);
      }
    }
  }

  lemma {:induction false} SafeSegments(p: string, x: string)
    requires Split(p).Some? && Canonical(p) && ":" !in Segments(p)
    requires Canonical(x) && forall w :: w in Segments(x) ==> !LosesColon(w)
    ensures Agree(p, x)
  {
    var ps, xs := Segments(p), Segments(x);
    SegmentsPlain(p);
    SegmentsPlain(x);
    forall i | 0 <= i < |ps| && i < |xs| ensures RouterTakes(ps[i], xs[i]) == SchemaTakes(ps[i], xs[i]) {
      assert ps[i] in ps && xs[i] in xs;
      SegmentsAgree(ps[i], xs[i]);
      assert (":" + ps[i])[0] == ':' && (":" + ps[i])[1] == ps[i][0];
    }
    MatchersAgree(p, x);
  }

  /** The pattern of parameters, with the literal lit at place k if that is one of its places: the router takes x. */
  lemma {:induction false} AnyParameters(x: string, k: nat, lit: string)
    requires |Segments(x)| <= MAX_SEGMENTS && lit != [] && lit[0] != ':' && '/' !in lit
    requires if k < |Segments(x)| then Segments(x)[k] == ":" + lit else !Canonical(x)
    ensures exists p :: Split(p).Some? && Canonical(p) && ":" !in Segments(p) && !Agree(p, x)
  {
    var xs := Segments(x);
    var ps := seq(|xs|, i => if i == k then lit else ":x");
    forall w | w in ps ensures w != [] && '/' !in w && w != ":" {
      var i :| 0 <= i < |ps| && ps[i] == w;
      assert w == if i == k then lit else ":x";
    }
    CanonicalPath(ps);
    var p := Path(ps);
    MatchersOnText(p, x);
    assert (":" + lit)[1..] == lit;
    assert Everywhere(RouterTakes, ps, xs);
    assert k < |xs| ==> !SchemaTakes(ps[k], xs[k]);
    assert !Agree(p, x);
  }

  // ---- at an input ----

  /** A bare colon is a literal to the router and a parameter to the schema matcher. */
  lemma {:induction false} BareColonDiffers()
    ensures SchemaMatch("/:", "/x") && Split("/:").Some? && !Fits(Split("/:").value, Split("/x"))
  {
    var ps, xs := [":"], ["x"];
    assert Plain(ps) && Plain(xs);
    assert Path(ps) == "/:" && Path(xs) == "/x";
    MatchersBySegment(ps, xs);
    assert SegOf(":") == Seg(":", false) && SegOf("x") == Seg("x", false) && ":"[0] != "x"[0];
    assert !RouterTakes(ps[0], xs[0]) && SchemaTakes(ps[0], xs[0]);
  }

  /** The router strips a colon from a segment of the path too, so "/:a" is routed like "/a"; no schema for "/a"
      applies. */
  lemma {:induction false} ColonPathDiffers()
    ensures !SchemaMatch("/a", "/:a") && Split("/a").Some? && Fits(Split("/a").value, Split("/:a"))
  {
    var ps, xs := ["a"], [":a"];
    assert Plain(ps) && Plain(xs);
    assert Path(ps) == "/a" && Path(xs) == "/:a";
    MatchersBySegment(ps, xs);
    assert ":a"[1..] == "a";
    assert SegOf(":a") == Seg("a", true) && SegOf("a") == Seg("a", false);
    assert RouterTakes(ps[0], xs[0]) && !SchemaTakes(ps[0], xs[0]);
  }

  /** The router drops empty segments, so "/a/" is routed like "/a"; no schema for "/a" applies. */
  lemma {:induction false} TrailingSlashDiffers()
    ensures !SchemaMatch("/a", "/a/") && Split("/a").Some? && Fits(Split("/a").value, Split("/a/"))
  {
    var ps := ["a"];
    assert Plain(ps) && Path(ps) == "/a" && "/a" + "/" == "/a/";
    CanonicalPath(ps);
    SlashAfter("/a");
    assert |"/a/"| != |"/a"|;
    MatchersOnText("/a", "/a/");
    assert RouterTakes(ps[0], ps[0]);
  }
}
