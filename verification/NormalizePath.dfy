/**
 Canonical paths: the specification that folds a path's segments over a stack,
 and the in-place algorithm that fills a buffer, marks segments and compacts
 them towards the front.
 */
module NormalizePath {
  import opened Options

  type Bytes = seq<nat>

  const SLASH: nat := 47
  const DOT: nat := 46
  const MAX_SEGMENTS: nat := 64

  // ------------------------------------------------------- specification

  /** Index of the first slash, or the length. */
  function SegEnd(s: Bytes): (k: nat)
    ensures k <= |s| && (forall i :: 0 <= i < k ==> s[i] != SLASH) && (k < |s| ==> s[k] == SLASH)
  {
    Slash(s, 0)
  }

  /** Index of the first slash from `i` on, or the length. */
  function Slash(s: Bytes, i: nat): (k: nat)
    requires i <= |s|
    ensures i <= k <= |s| && (forall j :: i <= j < k ==> s[j] != SLASH) && (k < |s| ==> s[k] == SLASH)
    decreases |s| - i
  {
    if i == |s| || s[i] == SLASH then i else Slash(s, i + 1)
  }

  /** The pieces between slashes, empty ones included. */
  function Split(s: Bytes): seq<Bytes>
    decreases |s|
  {
    var k := SegEnd(s);
    if k == |s| then [s] else [s[..k]] + Split(s[k + 1..])
  }

  predicate Keep(p: Bytes) {
    p != [] && p != [DOT] && p != [DOT, DOT]
  }

  /** The stack of at most 64 names after one piece: drop an empty piece and
      ".", pop on "..", push any other. */
  function Next(stack: seq<Bytes>, p: Bytes): Option<seq<Bytes>> {
    if p == [DOT, DOT] then Some(if stack == [] then [] else stack[..|stack| - 1])
    else if !Keep(p) then Some(stack)
    else if |stack| >= MAX_SEGMENTS then None
    else Some(stack + [p])
  }

  function Fold(stack: seq<Bytes>, ps: seq<Bytes>): Option<seq<Bytes>>
    decreases |ps|
  {
    if ps == [] then Some(stack) else
    match Next(stack, ps[0])
    case None => None
    case Some(next) => Fold(next, ps[1..])
  }

  /** Each name behind a slash. */
  function Join(stack: seq<Bytes>): Bytes {
    if stack == [] then [] else Join(stack[..|stack| - 1]) + [SLASH] + stack[|stack| - 1]
  }

  function Rendered(stack: seq<Bytes>): Bytes {
    if stack == [] then [SLASH] else Join(stack)
  }

  /** The absolute path `input` stands for in directory `cwd`. */
  function Full(cwd: Bytes, input: Bytes): Bytes
    requires cwd != [] && input != []
  {
    if input[0] == SLASH then input
    else cwd + (if cwd[|cwd| - 1] == SLASH then [] else [SLASH]) + input
  }

  /** What normalising `input` in directory `cwd` into `cap` bytes yields. */
  function Normal(cwd: Bytes, input: Bytes, cap: nat): Option<Bytes>
    requires cwd != []
  {
    if input == [] then Some([])
    else if |Full(cwd, input)| > cap then None
    else match Fold([], Split(Full(cwd, input)))
      case None => None
      case Some(stack) => Some(Rendered(stack))
  }

  // ---------------------------------------------- canonical, a fixed point

  /** A name that can stand in a canonical path. */
  predicate Name(p: Bytes) {
    Keep(p) && SLASH !in p
  }

  ghost predicate Names(ps: seq<Bytes>) {
    forall i :: 0 <= i < |ps| ==> Name(ps[i])
  }

  ghost predicate Canonical(path: Bytes) {
    exists stack :: Names(stack) && |stack| <= MAX_SEGMENTS && path == Rendered(stack)
  }

  lemma {:induction false} SplitPieces(s: Bytes)
    ensures forall i :: 0 <= i < |Split(s)| ==> SLASH !in Split(s)[i]
    decreases |s|
  {
    var k := SegEnd(s);
    if k < |s| {
      SplitPieces(s[k + 1..]);
    }
  }

  lemma {:induction false} FoldNames(stack: seq<Bytes>, ps: seq<Bytes>)
    requires Names(stack) && |stack| <= MAX_SEGMENTS && forall i :: 0 <= i < |ps| ==> SLASH !in ps[i]
    ensures Fold(stack, ps).Some? ==> Names(Fold(stack, ps).value) && |Fold(stack, ps).value| <= MAX_SEGMENTS
    decreases |ps|
  {
    if ps != [] && Next(stack, ps[0]).Some? {
      FoldNames(Next(stack, ps[0]).value, ps[1..]);
    }
  }

  /** Every result is canonical: absolute, no empty, "." or ".." segment, no
      trailing slash. */
  lemma NormalIsCanonical(cwd: Bytes, input: Bytes, cap: nat)
    requires cwd != [] && input != [] && Normal(cwd, input, cap).Some?
    ensures Canonical(Normal(cwd, input, cap).value)
  {
    var ps := Split(Full(cwd, input));
    SplitPieces(Full(cwd, input));
    FoldNames([], ps);
    assert Normal(cwd, input, cap).value == Rendered(Fold([], ps).value);
  }

  /** The first piece, and what follows it with and without its slash. */
  lemma SplitStep(t: Bytes)
    ensures var k := SegEnd(t);
      if k == |t| then Split(t) == [t[..k]] + [] && Split(t[k..]) == [[]] + []
      else Split(t) == [t[..k]] + Split(t[k + 1..]) && Split(t[k..]) == [[]] + Split(t[k + 1..])
  {
    var k := SegEnd(t);
    if k == |t| {
      assert t[..k] == t && t[k..] == [];
    } else {
      var r := t[k..];
      assert r[0] == SLASH && r[1..] == t[k + 1..] && r[..0] == [] && SegEnd(r) == 0;
    }
  }

  lemma {:induction false} SegEndOf(p: Bytes, s: Bytes)
    requires SLASH !in p
    ensures SegEnd(p + [SLASH] + s) == |p| && SegEnd(p) == |p|
  {
    var t := p + [SLASH] + s;
    assert forall i :: 0 <= i < |p| ==> t[i] == p[i] && p[i] in p;
    assert t[|p|] == SLASH;
  }

  lemma SplitCons(p: Bytes, s: Bytes)
    requires SLASH !in p
    ensures Split(p) == [p] && Split(p + [SLASH] + s) == [p] + Split(s)
  {
    var t := p + [SLASH] + s;
    SegEndOf(p, s);
    assert t[..|p|] == p && t[|p| + 1..] == s;
  }

  /** Splitting at a slash behind a piece. */
  lemma {:induction false} SplitSnoc(s: Bytes, p: Bytes)
    requires SLASH !in p
    ensures Split(s + [SLASH] + p) == Split(s) + [p]
    decreases |s|
  {
    SplitCons(p, []);
    var k := SegEnd(s);
    if k == |s| {
      SplitCons(s, p);
    } else {
      var a, b := s[..k], s[k + 1..];
      assert s == a + [SLASH] + b && s + [SLASH] + p == a + [SLASH] + (b + [SLASH] + p);
      SplitCons(a, b);
      SplitCons(a, b + [SLASH] + p);
      SplitSnoc(b, p);
    }
  }

  lemma {:induction false} SplitJoin(stack: seq<Bytes>)
    requires Names(stack)
    ensures Split(Join(stack)) == [[]] + stack
  {
    if stack == [] {
      assert Split([]) == [[]];
    } else {
      var n := |stack| - 1;
      SplitJoin(stack[..n]);
      SplitSnoc(Join(stack[..n]), stack[n]);
      assert [[]] + stack[..n] + [stack[n]] == [[]] + stack;
    }
  }

  lemma {:induction false} FoldKeeps(stack: seq<Bytes>, ps: seq<Bytes>)
    requires Names(ps) && |stack| + |ps| <= MAX_SEGMENTS
    ensures Fold(stack, ps) == Some(stack + ps)
    decreases |ps|
  {
    if ps == [] {
      assert stack + ps == stack;
    } else {
      FoldKeeps(stack + [ps[0]], ps[1..]);
      assert stack + [ps[0]] + ps[1..] == stack + ps;
    }
  }

  lemma EmptyFolds(stack: seq<Bytes>)
    ensures Fold(stack, Split([])) == Some(stack)
  {}

  /** Normalising a canonical path gives it back, in every directory. */
  lemma CanonicalIsFixed(cwd: Bytes, path: Bytes, cap: nat)
    requires cwd != [] && Canonical(path) && |path| <= cap
    ensures Normal(cwd, path, cap) == Some(path)
  {
    var stack :| Names(stack) && |stack| <= MAX_SEGMENTS && path == Rendered(stack);
    if stack == [] {
      EmptyFolds([]);
      FoldStep(path, []);
      assert path[1..] == [];
    } else {
      SplitJoin(stack);
      JoinStarts(stack);
      FoldKeeps([], stack);
      assert ([[]] + stack)[1..] == stack && [] + stack == stack;
    }
  }

  lemma {:induction false} JoinStarts(stack: seq<Bytes>)
    requires stack != []
    ensures Join(stack) != [] && Join(stack)[0] == SLASH
  {
    if |stack| > 1 { JoinStarts(stack[..|stack| - 1]); }
  }

  /** Bytes the pieces need, each behind a slash. */
  function Weight(ps: seq<Bytes>): nat {
    if ps == [] then 0 else 1 + |ps[0]| + Weight(ps[1..])
  }

  lemma {:induction false} SplitWeight(s: Bytes)
    ensures Weight(Split(s)) == |s| + 1
    decreases |s|
  {
    var k := SegEnd(s);
    if k == |s| {
      assert [s][1..] == [];
    } else {
      SplitWeight(s[k + 1..]);
      assert Split(s)[1..] == Split(s[k + 1..]);
    }
  }

  lemma {:induction false} FoldShrinks(stack: seq<Bytes>, ps: seq<Bytes>)
    ensures Fold(stack, ps).Some? ==> |Join(Fold(stack, ps).value)| <= |Join(stack)| + Weight(ps)
    decreases |ps|
  {
    if ps != [] && Next(stack, ps[0]).Some? {
      var next := Next(stack, ps[0]).value;
      FoldShrinks(next, ps[1..]);
      if next == stack + [ps[0]] {
        assert next[..|next| - 1] == stack;
      }
    }
  }

  /** The result of normalising is never longer than the path it came from, and
      normalising it again changes nothing. */
  lemma NormalTwice(cwd: Bytes, input: Bytes, cap: nat)
    requires cwd != [] && cwd[0] == SLASH && Normal(cwd, input, cap).Some?
    ensures |Normal(cwd, input, cap).value| <= cap
    ensures Normal(cwd, Normal(cwd, input, cap).value, cap) == Normal(cwd, input, cap)
  {
    if input != [] {
      var t := Full(cwd, input);
      assert t[0] == SLASH;
      FoldStep(t, []);
      SplitWeight(t[1..]);
      FoldShrinks([], Split(t[1..]));
      NormalIsCanonical(cwd, input, cap);
      CanonicalIsFixed(cwd, Normal(cwd, input, cap).value, cap);
    }
  }

  // -------------------------------------------------- where segments start

  /** The starts of the names on the stack after a piece that starts at `at`. */
  function NextAt(starts: seq<nat>, p: Bytes, at: nat): seq<nat> {
    if p == [DOT, DOT] then (if starts == [] then [] else starts[..|starts| - 1])
    else if !Keep(p) then starts
    else starts + [at]
  }

  /** The same after pieces of which the first starts at `at`. */
  function Places(starts: seq<nat>, ps: seq<Bytes>, at: nat): seq<nat>
    decreases |ps|
  {
    if ps == [] then starts else Places(NextAt(starts, ps[0], at), ps[1..], at + |ps[0]| + 1)
  }

  /** A copy of `len` bytes from `src` to `dst`. */
  datatype Shift = Shift(src: nat, dst: nat, len: nat)

  /** The bytes the first `k` names take, each behind a slash. */
  function Width(stack: seq<Bytes>, k: nat): nat
    requires k <= |stack|
  {
    if k == 0 then 0 else Width(stack, k - 1) + 1 + |stack[k - 1]|
  }

  /** The copy of name `k`, from its start to behind the names before it. */
  ghost predicate IsShift(m: Shift, stack: seq<Bytes>, starts: seq<nat>, k: nat) {
    k < |stack| && k < |starts| && m.src == starts[k] && m.dst == Width(stack, k) + 1 && m.len == |stack[k]|
  }

  /** The copies that render the first names of a stack that start at `starts`. */
  ghost predicate Renders(ms: seq<Shift>, stack: seq<Bytes>, starts: seq<nat>) {
    forall k {:trigger ms[k]} :: 0 <= k < |ms| ==> IsShift(ms[k], stack, starts, k)
  }

  lemma RendersMore(ms: seq<Shift>, stack: seq<Bytes>, starts: seq<nat>, m: Shift)
    requires Renders(ms, stack, starts) && IsShift(m, stack, starts, |ms|)
    ensures Renders(ms + [m], stack, starts)
  {}

  lemma {:induction false} JoinWidth(stack: seq<Bytes>, k: nat)
    requires k <= |stack|
    ensures |Join(stack[..k])| == Width(stack, k)
    decreases k
  {
    if k > 0 {
      JoinWidth(stack, k - 1);
      assert stack[..k][..k - 1] == stack[..k - 1];
    }
  }

  lemma PlacesCons(starts: seq<nat>, p: Bytes, ps: seq<Bytes>, at: nat)
    ensures Places(starts, [p] + ps, at) == Places(NextAt(starts, p, at), ps, at + |p| + 1)
  {
    assert ([p] + ps)[1..] == ps;
  }

  /** Past a slash, or past a whole segment, the rest of the starts are the same. */
  lemma PlacesStep(t: Bytes, starts: seq<nat>, at: nat)
    requires t != []
    ensures var k := SegEnd(t);
      if t[0] == SLASH then Places(starts, Split(t), at) == Places(starts, Split(t[1..]), at + 1)
      else k > 0 && Places(starts, Split(t), at) == Places(NextAt(starts, t[..k], at), Split(t[k..]), at + k)
  {
    var k := SegEnd(t);
    var rest := if k == |t| then [] else Split(t[k + 1..]);
    SplitStep(t);
    PlacesCons(starts, t[..k], rest, at);
    PlacesCons(NextAt(starts, t[..k], at), [], rest, at + k);
  }

  // ------------------------------------------------------------- marking

  /** Marks [ss[k], se[k]) in `t` name `stack`, from left to right, each behind
      at least one byte that is not its own. */
  ghost predicate Marked(t: Bytes, ss: seq<nat>, se: seq<nat>, stack: seq<Bytes>) {
    && |ss| == |se| == |stack|
    && (forall k :: 0 <= k < |ss| ==> 0 < ss[k] <= se[k] <= |t| && t[ss[k]..se[k]] == stack[k])
    && (forall j, k :: 0 <= j < k < |ss| ==> se[j] < ss[k])
  }

  /** Past a slash, or past a whole segment, the rest of the fold is the same. */
  lemma FoldStep(t: Bytes, stack: seq<Bytes>)
    requires t != []
    ensures t[0] == SLASH ==> Fold(stack, Split(t)) == Fold(stack, Split(t[1..]))
    ensures t[0] != SLASH ==>
      var k := SegEnd(t);
      k > 0 && Fold(stack, Split(t))
        == match Next(stack, t[..k]) case None => None case Some(next) => Fold(next, Split(t[k..]))
  {
    var k := SegEnd(t);
    var rest := if k == |t| then [] else Split(t[k + 1..]);
    SplitStep(t);
    FoldCons(stack, t[..k], rest);
    if Next(stack, t[..k]).Some? { FoldCons(Next(stack, t[..k]).value, [], rest); }
  }

  lemma FoldCons(stack: seq<Bytes>, p: Bytes, ps: seq<Bytes>)
    ensures Fold(stack, [p] + ps) == match Next(stack, p) case None => None case Some(next) => Fold(next, ps)
  {
    assert ([p] + ps)[1..] == ps;
  }

  /** The marks end before `i`, or at a slash there. */
  ghost predicate Passed(t: Bytes, se: seq<nat>, i: nat) {
    se != [] ==> se[|se| - 1] < i || (se[|se| - 1] == i && (i < |t| ==> t[i] == SLASH))
  }

  /** The fold of what follows byte `i`. */
  function Rest(stack: seq<Bytes>, t: Bytes, i: nat): Option<seq<Bytes>>
    requires i <= |t|
  {
    Fold(stack, Split(t[i..]))
  }

  lemma SkipSlash(t: Bytes, i: nat, stack: seq<Bytes>)
    requires i < |t| && t[i] == SLASH
    ensures Rest(stack, t, i) == Rest(stack, t, i + 1)
  {}

  lemma SegmentAt(t: Bytes, i: nat)
    requires i < |t| && t[i] != SLASH
    ensures var j := i + SegEnd(t[i..]); i < j <= |t| && (j < |t| ==> t[j] == SLASH)
  {}

  /** Passing a whole segment takes one step of the fold. */
  lemma MarkFold(t: Bytes, i: nat, j: nat, was: seq<Bytes>, ok: bool, stack: seq<Bytes>)
    requires i < |t| && t[i] != SLASH && j == i + SegEnd(t[i..]) && j <= |t|
    requires Next(was, t[i..j]) == if ok then Some(stack) else None
    ensures Rest(was, t, i) == if ok then Rest(stack, t, j) else None
  {
    var u := t[i..];
    FoldStep(u, was);
    assert u[..j - i] == t[i..j] && u[j - i..] == t[j..];
  }

  /** After the first `i` bytes: `nseg` marks in use, naming `stack`. */
  ghost predicate At(t: Bytes, ss: seq<nat>, se: seq<nat>, nseg: nat, stack: seq<Bytes>, i: nat) {
    && |ss| == MAX_SEGMENTS && |se| == MAX_SEGMENTS && nseg == |stack| <= MAX_SEGMENTS && i <= |t|
    && Marked(t, ss[..nseg], se[..nseg], stack) && Passed(t, se[..nseg], i)
  }

  lemma MarkPush(t: Bytes, i: nat, j: nat, ss: seq<nat>, se: seq<nat>, nseg: nat, stack: seq<Bytes>)
    requires 0 < i < j <= |t| && t[i] != SLASH && (j < |t| ==> t[j] == SLASH)
    requires At(t, ss, se, nseg, stack, i) && nseg < MAX_SEGMENTS
    ensures At(t, ss[nseg := i], se[nseg := j], nseg + 1, stack + [t[i..j]], j)
    ensures ss[nseg := i][..nseg + 1] == ss[..nseg] + [i]
  {
    assert ss[nseg := i][..nseg + 1] == ss[..nseg] + [i] && se[nseg := j][..nseg + 1] == se[..nseg] + [j];
  }

  lemma MarkPop(t: Bytes, i: nat, j: nat, ss: seq<nat>, se: seq<nat>, nseg: nat, stack: seq<Bytes>)
    requires At(t, ss, se, nseg, stack, i) && i < j <= |t| && stack != []
    ensures At(t, ss, se, nseg - 1, stack[..nseg - 1], j) && ss[..nseg][..nseg - 1] == ss[..nseg - 1]
  {
    var m := nseg - 1;
    assert ss[..nseg][..m] == ss[..m] && se[..nseg][..m] == se[..m];
    if m > 0 { assert se[..nseg][m - 1] < ss[..nseg][m] <= se[..nseg][m]; }
  }

  /** The starts after what follows byte `i`. */
  function PlacesRest(starts: seq<nat>, t: Bytes, i: nat): seq<nat>
    requires i <= |t|
  {
    Places(starts, Split(t[i..]), i)
  }

  lemma PlacesFrom(t: Bytes, i: nat, starts: seq<nat>)
    requires i < |t|
    ensures t[i] == SLASH ==> PlacesRest(starts, t, i) == PlacesRest(starts, t, i + 1)
    ensures t[i] != SLASH ==>
      var j := i + SegEnd(t[i..]);
        i < j <= |t| && PlacesRest(starts, t, i) == PlacesRest(NextAt(starts, t[i..j], i), t, j)
  {
    var u := t[i..];
    PlacesStep(u, starts, i);
    var k := SegEnd(u);
    assert u[..k] == t[i..i + k] && u[k..] == t[i + k..];
    assert u[1..] == t[i + 1..];
  }

  lemma NothingLeft(t: Bytes, stack: seq<Bytes>, starts: seq<nat>)
    ensures Rest(stack, t, |t|) == Some(stack) && PlacesRest(starts, t, |t|) == starts
  {
    assert t[|t|..] == [];
    EmptyFolds(stack);
  }

  /** The inner loop of the marking pass. */
  method SegmentEnd(out: array<nat>, len: nat, start: nat) returns (j: nat)
    requires start <= len <= out.Length
    ensures j == start + SegEnd(out[..len][start..])
  {
    ghost var u := out[..len][start..];
    j := start;
    while j < len && out[j] != SLASH
      invariant start <= j <= start + SegEnd(u) && SegEnd(u) <= |u| == len - start
    {
      assert u[j - start] == out[j];
      j := j + 1;
    }
    assert j < len ==> u[j - start] == out[j];
  }

  /** One segment of the marking pass. */
  method MarkOne(out: array<nat>, len: nat, start: nat, ss0: seq<nat>, se0: seq<nat>, nseg0: nat, ghost t: Bytes,
                 ghost stack0: seq<Bytes>)
    returns (i: nat, ok: bool, ss: seq<nat>, se: seq<nat>, nseg: nat, ghost stack: seq<Bytes>, ghost starts: seq<nat>)
    requires 0 < start < len <= out.Length && t == out[..len] && t[start] != SLASH
    requires At(t, ss0, se0, nseg0, stack0, start)
    ensures i == start + SegEnd(t[start..]) && start < i <= len && |ss| == MAX_SEGMENTS && |se| == MAX_SEGMENTS
    ensures Next(stack0, t[start..i]) == if ok then Some(stack) else None
    ensures ok ==>
      At(t, ss, se, nseg, stack, i) && starts == ss[..nseg]
      && starts == NextAt(ss0[..nseg0], t[start..i], start)
  {
    SegmentAt(t, start);
    i := SegmentEnd(out, len, start);
    ghost var p := t[start..i];
    assert p[0] == t[start] == out[start] && (i - start > 1 ==> p[1] == t[start + 1] == out[start + 1]);
    ok, ss, se, nseg, stack, starts := true, ss0, se0, nseg0, stack0, ss0[..nseg0];
    if i - start == 1 && out[start] == DOT {
      assert p == [DOT];
      return;
    }
    if i - start == 2 && out[start] == DOT && out[start + 1] == DOT {
      assert p == [DOT, DOT];
      if nseg > 0 {
        MarkPop(t, start, i, ss, se, nseg, stack);
        nseg := nseg - 1;
        stack, starts := stack[..nseg], ss[..nseg];
      }
      return;
    }
    assert Keep(p);
    if nseg >= MAX_SEGMENTS {
      ok := false;
      return;
    }
    MarkPush(t, start, i, ss, se, nseg, stack);
    ss, se := ss[nseg := start], se[nseg := i];
    nseg, stack, starts := nseg + 1, stack + [p], starts + [start];
  }

  /** Passing one segment: a step of the fold and of the starts. */
  method MarkNext(out: array<nat>, len: nat, start: nat, ss0: seq<nat>, se0: seq<nat>, nseg0: nat,
                  ghost t: Bytes, ghost stack0: seq<Bytes>, ghost starts0: seq<nat>)
    returns (i: nat, ok: bool, ss: seq<nat>, se: seq<nat>, nseg: nat, ghost stack: seq<Bytes>, ghost starts: seq<nat>)
    requires 0 < start < len <= out.Length && t == out[..len] && t[start] != SLASH
    requires At(t, ss0, se0, nseg0, stack0, start)
    requires starts0 == ss0[..nseg0]
    ensures start < i <= len && |ss| == MAX_SEGMENTS && |se| == MAX_SEGMENTS
    ensures Rest(stack0, t, start) == if ok then Rest(stack, t, i) else None
    ensures ok ==> At(t, ss, se, nseg, stack, i) && starts == ss[..nseg]
    ensures ok ==> PlacesRest(starts0, t, start) == PlacesRest(starts, t, i)
  {
    PlacesFrom(t, start, starts0);
    i, ok, ss, se, nseg, stack, starts := MarkOne(out, len, start, ss0, se0, nseg0, t, stack0);
    MarkFold(t, start, i, stack0, ok, stack);
  }

  /** The marking pass: refused exactly when the fold overflows its stack. */
  method Mark(out: array<nat>, len: nat) returns (ss: seq<nat>, se: seq<nat>, n: Option<nat>)
    requires 0 < len <= out.Length && out[0] == SLASH
    ensures |ss| == MAX_SEGMENTS && |se| == MAX_SEGMENTS
    ensures n.None? <==> Fold([], Split(out[..len])).None?
    ensures n.Some? ==>
      n.value <= MAX_SEGMENTS
      && Marked(out[..len], ss[..n.value], se[..n.value], Fold([], Split(out[..len])).value)
    ensures n.Some? ==> ss[..n.value] == Places([], Split(out[..len]), 0)
  {
    ss, se := seq(MAX_SEGMENTS, _ => 0), seq(MAX_SEGMENTS, _ => 0);
    ghost var t := out[..len];
    ghost var stack: seq<Bytes> := [];
    ghost var starts: seq<nat> := [];
    var nseg: nat, i: nat := 0, 0;
    assert t[0..] == t;
    while i < len
      invariant i <= len && t == out[..len] && At(t, ss, se, nseg, stack, i)
      invariant Rest([], t, 0) == Rest(stack, t, i)
      invariant starts == ss[..nseg] && PlacesRest([], t, 0) == PlacesRest(starts, t, i)
      decreases len - i
    {
      if out[i] == SLASH {
        SkipSlash(t, i, stack);
        PlacesFrom(t, i, starts);
        i := i + 1;
        continue;
      }
      var ok;
      i, ok, ss, se, nseg, stack, starts := MarkNext(out, len, i, ss, se, nseg, t, stack, starts);
      if !ok {
        n := None;
        return;
      }
    }
    NothingLeft(t, stack, starts);
    n := Some(nseg);
  }

  // -------------------------------------------------------- filling, moving

  /** Copy bytes behind the first `len`, unless they do not fit. */
  method Append(out: array<nat>, len: nat, s: Bytes) returns (r: Option<nat>)
    requires len <= out.Length
    modifies out
    ensures r == if len + |s| <= out.Length then Some(len + |s|) else None
    ensures r.Some? ==> out[..r.value] == old(out[..len]) + s
  {
    var n := len;
    for i := 0 to |s|
      invariant n == len + i <= out.Length && out[..n] == old(out[..len]) + s[..i]
    {
      if n >= out.Length { return None; }
      out[n] := s[i];
      n := n + 1;
    }
    assert s[..|s|] == s;
    r := Some(n);
  }

  /** The first pass: the absolute path, unless it does not fit. */
  method Fill(cwd: Bytes, input: Bytes, out: array<nat>) returns (r: Option<nat>)
    requires cwd != [] && input != []
    modifies out
    ensures r == if |Full(cwd, input)| <= out.Length then Some(|Full(cwd, input)|) else None
    ensures r.Some? ==> out[..r.value] == Full(cwd, input)
  {
    if input[0] == SLASH {
      r := Append(out, 0, [SLASH]);
      if r.None? { return; }
      r := Append(out, r.value, input[1..]);
      assert [SLASH] + input[1..] == input;
    } else {
      r := Append(out, 0, cwd);
      if r.None? { return; }
      if cwd[|cwd| - 1] != SLASH {
        r := Append(out, r.value, [SLASH]);
        if r.None? { return; }
      }
      r := Append(out, r.value, input);
    }
  }

  /** Move bytes towards the front, lowest first. */
  method CopyDown(out: array<nat>, src: nat, dst: nat, n: nat) returns (ghost done: Shift)
    requires dst <= src && src + n <= out.Length
    modifies out
    ensures done == Shift(src, dst, n)
    ensures forall i :: dst <= i < dst + n ==> out[i] == old(out[i + (src - dst)])
    ensures forall i :: 0 <= i < out.Length && !(dst <= i < dst + n) ==> out[i] == old(out[i])
  {
    for m := 0 to n
      invariant forall i :: dst <= i < dst + m ==> out[i] == old(out[i + (src - dst)])
      invariant forall i :: 0 <= i < out.Length && !(dst <= i < dst + m) ==> out[i] == old(out[i])
    {
      out[dst + m] := out[src + m];
    }
    done := Shift(src, dst, n);
  }

  /** Segments from `k` on are where they were marked. */
  ghost predicate Unread(b: Bytes, ss: seq<nat>, se: seq<nat>, stack: seq<Bytes>, k: nat) {
    && |ss| == |se| == |stack|
    && forall j :: k <= j < |ss| ==> 0 < ss[j] <= se[j] <= |b| && b[ss[j]..se[j]] == stack[j]
  }

  /** Where the write cursor may stand before segment `k` is moved. */
  ghost predicate CursorOk(ss: seq<nat>, se: seq<nat>, k: nat, o: nat) {
    && |ss| == |se| && k <= |ss| && (k < |ss| ==> o < ss[k])
    && (forall j :: 0 <= j < |ss| ==> ss[j] <= se[j])
    && (forall i, j :: 0 <= i < j < |ss| ==> se[i] < ss[j])
  }

  /** Moving segment `k` down leaves the later ones unread. */
  lemma MoveKeeps(b: Bytes, c: Bytes, ss: seq<nat>, se: seq<nat>, stack: seq<Bytes>, k: nat, o: nat)
    requires CursorOk(ss, se, k, o) && k < |ss| && Unread(b, ss, se, stack, k) && |b| == |c|
    requires o + 1 + se[k] - ss[k] <= |c|
    requires forall i :: 0 <= i < |b| && !(o <= i <= o + se[k] - ss[k]) ==> c[i] == b[i]
    requires c[o] == SLASH && forall i :: o < i <= o + se[k] - ss[k] ==> c[i] == b[i + (ss[k] - o - 1)]
    ensures Unread(c, ss, se, stack, k + 1)
    ensures c[..o + 1 + se[k] - ss[k]] == b[..o] + [SLASH] + stack[k]
    ensures CursorOk(ss, se, k + 1, o + 1 + se[k] - ss[k])
  {}

  method Move(out: array<nat>, ss: seq<nat>, se: seq<nat>, ghost stack: seq<Bytes>, k: nat, o: nat)
    returns (next: nat, ghost done: Shift)
    requires k < |ss| && CursorOk(ss, se, k, o) && Unread(out[..], ss, se, stack, k)
    modifies out
    ensures next <= out.Length && CursorOk(ss, se, k + 1, next) && Unread(out[..], ss, se, stack, k + 1)
    ensures out[..next] == old(out[..o]) + [SLASH] + stack[k]
    ensures done == Shift(ss[k], o + 1, |stack[k]|)
  {
    ghost var b := out[..];
    out[o] := SLASH;
    done := CopyDown(out, ss[k], o + 1, se[k] - ss[k]);
    MoveKeeps(b, out[..], ss, se, stack, k, o);
    next := o + 1 + (se[k] - ss[k]);
  }

  method Render(out: array<nat>, ss: seq<nat>, se: seq<nat>, ghost stack: seq<Bytes>, k: nat, o: nat)
    returns (next: nat, ghost done: Shift)
    requires k < |ss| && CursorOk(ss, se, k, o) && Unread(out[..], ss, se, stack, k) && out[..o] == Join(stack[..k])
    modifies out
    ensures next <= out.Length && CursorOk(ss, se, k + 1, next) && Unread(out[..], ss, se, stack, k + 1)
    ensures out[..next] == Join(stack[..k + 1]) && IsShift(done, stack, ss, k)
  {
    JoinWidth(stack, k);
    assert stack[..k + 1][..k] == stack[..k];
    next, done := Move(out, ss, se, stack, k, o);
  }

  /** The last pass: the marked segments, each behind a slash, from the front.
      The write cursor stays below the segment to be moved, so its capacity
      checks cannot fail. */
  method Compact(out: array<nat>, ss: seq<nat>, se: seq<nat>, ghost stack: seq<Bytes>)
    returns (o: nat, ghost done: seq<Shift>)
    requires Marked(out[..], ss, se, stack) && stack != []
    modifies out
    ensures o <= out.Length && out[..o] == Join(stack) && |done| == |stack| && Renders(done, stack, ss)
  {
    o, done := 0, [];
    for k := 0 to |ss|
      invariant o <= out.Length && CursorOk(ss, se, k, o) && Unread(out[..], ss, se, stack, k)
      invariant out[..o] == Join(stack[..k])
      invariant |done| == k && Renders(done, stack, ss)
    {
      ghost var last;
      o, last := Render(out, ss, se, stack, k, o);
      RendersMore(done, stack, ss, last);
      done := done + [last];
    }
    assert stack[..|ss|] == stack;
  }

  /** normalize_path, and the copies its last pass makes. */
  method Normalize(cwd: Bytes, input: Bytes, out: array<nat>) returns (r: Option<nat>, ghost done: seq<Shift>)
    requires cwd != [] && cwd[0] == SLASH
    modifies out
    ensures r.None? <==> Normal(cwd, input, out.Length).None?
    ensures r.Some? ==> r.value <= out.Length && Some(out[..r.value]) == Normal(cwd, input, out.Length)
    ensures r.Some? && input != [] ==>
      var stack := Fold([], Split(Full(cwd, input))).value;
        |done| == |stack| && Renders(done, stack, Places([], Split(Full(cwd, input)), 0))
  {
    done := [];
    if input == [] { return Some(0), done; }
    var len := Fill(cwd, input, out);
    if len.None? { return None, done; }
    ghost var t := out[..len.value];
    assert t[0] == SLASH;
    var ss, se, n := Mark(out, len.value);
    if n.None? { return None, done; }
    if n.value == 0 {
      out[0] := SLASH;
      assert out[..1] == [SLASH] && Fold([], Split(t)).value == [];
      return Some(1), done;
    }
    ghost var stack := Fold([], Split(t)).value;
    Widen(t, out[..], ss[..n.value], se[..n.value], stack);
    var o;
    o, done := Compact(out, ss[..n.value], se[..n.value], stack);
    r := Some(o);
  }

  lemma Widen(t: Bytes, b: Bytes, ss: seq<nat>, se: seq<nat>, stack: seq<Bytes>)
    requires Marked(t, ss, se, stack) && |t| <= |b| && b[..|t|] == t
    ensures Marked(b, ss, se, stack)
  {
    forall k | 0 <= k < |ss| ensures b[ss[k]..se[k]] == t[ss[k]..se[k]] {}
  }
}
