/**
 The copies by which normalize_path moves names to the front of its buffer.  The
 source makes each with a copy that asks for ranges apart from one another; this
 module says for which paths they are.
 */
module NormalizeMoves {
  import opened Options
  import opened NormalizePath

  predicate Apart(m: Shift) {
    m.src + m.len <= m.dst || m.dst + m.len <= m.src
  }

  ghost predicate AllApart(ms: seq<Shift>) {
    forall k :: 0 <= k < |ms| ==> Apart(ms[k])
  }

  /** The names and where they start in the path, before byte `at`. */
  ghost predicate Behind(stack: seq<Bytes>, starts: seq<nat>, at: nat) {
    && |starts| == |stack| && Width(stack, |stack|) < at
    && forall k {:trigger starts[k]} :: 0 <= k < |starts| ==> stack[k] != [] && Width(stack, k) < starts[k]
  }

  /** The first names take no more bytes for what is behind them. */
  lemma {:induction false} WidthOfFirst(a: seq<Bytes>, b: seq<Bytes>, k: nat)
    requires k <= |a| && a <= b
    ensures Width(a, k) == Width(b, k)
    decreases k
  {
    if k > 0 { WidthOfFirst(a, b, k - 1); }
  }

  lemma BehindNext(stack: seq<Bytes>, starts: seq<nat>, p: Bytes, at: nat)
    requires Behind(stack, starts, at) && Next(stack, p).Some?
    ensures Behind(Next(stack, p).value, NextAt(starts, p, at), at + |p| + 1)
  {
    var next := Next(stack, p).value;
    if |next| < |stack| {
      forall k | 0 <= k <= |next| ensures Width(next, k) == Width(stack, k) { WidthOfFirst(next, stack, k); }
    } else {
      assert stack <= next;
      forall k | 0 <= k <= |stack| ensures Width(next, k) == Width(stack, k) { WidthOfFirst(stack, next, k); }
    }
  }

  lemma FoldTurn(stack: seq<Bytes>, starts: seq<nat>, ps: seq<Bytes>, at: nat)
    returns (next: seq<Bytes>, more: seq<nat>, to: nat)
    requires Behind(stack, starts, at) && ps != [] && Fold(stack, ps).Some?
    ensures Behind(next, more, to) && Fold(stack, ps) == Fold(next, ps[1..])
    ensures Places(starts, ps, at) == Places(more, ps[1..], to)
  {
    var p := ps[0];
    next, more, to := Next(stack, p).value, NextAt(starts, p, at), at + |p| + 1;
    BehindNext(stack, starts, p, at);
  }

  lemma {:induction false} FoldBehind(stack: seq<Bytes>, starts: seq<nat>, ps: seq<Bytes>, at: nat) returns (end: nat)
    requires Behind(stack, starts, at) && Fold(stack, ps).Some?
    ensures Behind(Fold(stack, ps).value, Places(starts, ps, at), end)
    decreases |ps|
  {
    end := at;
    if ps != [] {
      var next, more, to := FoldTurn(stack, starts, ps, at);
      end := FoldBehind(next, more, ps[1..], to);
    }
  }

  /** In an absolute path each kept name starts behind the cursor it is moved to. */
  lemma CursorBehind(t: Bytes) returns (end: nat)
    requires t != [] && t[0] == SLASH && Fold([], Split(t)).Some?
    ensures Behind(Fold([], Split(t)).value, Places([], Split(t), 0), end)
  {
    FoldStep(t, []);
    PlacesStep(t, [], 0);
    end := FoldBehind([], [], Split(t[1..]), 1);
  }

  /** Every copy is between ranges apart exactly when no kept name, moved behind
      those before it, would reach its own start: when the path drops at least
      as many bytes before each name as the name is long. */
  lemma ApartIff(t: Bytes, ms: seq<Shift>)
    requires t != [] && t[0] == SLASH && Fold([], Split(t)).Some?
    ensures var stack := Fold([], Split(t)).value; var starts := Places([], Split(t), 0);
      && |starts| == |stack|
      && (|ms| == |stack| && Renders(ms, stack, starts) ==>
            (AllApart(ms) <==> forall k :: 0 <= k < |stack| ==> Width(stack, k) + 1 + |stack[k]| <= starts[k]))
  {
    var end := CursorBehind(t);
    var stack, starts := Fold([], Split(t)).value, Places([], Split(t), 0);
    if |ms| == |stack| && Renders(ms, stack, starts) {
      forall k | 0 <= k < |ms| ensures Apart(ms[k]) <==> Width(stack, k) + 1 + |stack[k]| <= starts[k] {
        assert IsShift(ms[k], stack, starts, k) && Width(stack, k) < starts[k];
      }
    }
  }

  // --------------------------------------------------- paths that overlap

  /** Each name starts where it is moved to. */
  ghost predicate InPlace(stack: seq<Bytes>, starts: seq<nat>) {
    |starts| == |stack| && forall k {:trigger starts[k]} :: 0 <= k < |starts| ==> starts[k] == Width(stack, k) + 1
  }

  lemma InPlaceMore(stack: seq<Bytes>, starts: seq<nat>, p: Bytes)
    requires InPlace(stack, starts)
    ensures InPlace(stack + [p], starts + [Width(stack, |stack|) + 1])
    ensures Width(stack + [p], |stack| + 1) == Width(stack, |stack|) + 1 + |p|
  {
    var next := stack + [p];
    forall k | 0 <= k <= |stack| ensures Width(next, k) == Width(stack, k) { WidthOfFirst(stack, next, k); }
  }

  lemma {:induction false} PlacesOfNames(stack: seq<Bytes>, starts: seq<nat>, ps: seq<Bytes>)
    requires Names(ps) && InPlace(stack, starts)
    ensures InPlace(stack + ps, Places(starts, ps, Width(stack, |stack|) + 1))
    decreases |ps|
  {
    if ps == [] {
      assert stack + ps == stack;
    } else {
      InPlaceMore(stack, starts, ps[0]);
      PlacesOfNames(stack + [ps[0]], starts + [Width(stack, |stack|) + 1], ps[1..]);
      assert stack + [ps[0]] + ps[1..] == stack + ps;
    }
  }

  /** Normalising a canonical path copies every name onto itself. */
  lemma CanonicalOverlaps(stack: seq<Bytes>, ms: seq<Shift>)
    requires Names(stack) && stack != [] && |stack| <= MAX_SEGMENTS
    ensures Fold([], Split(Join(stack))) == Some(stack)
    ensures |ms| == |stack| && Renders(ms, stack, Places([], Split(Join(stack)), 0)) ==>
      forall k :: 0 <= k < |ms| ==> ms[k].src == ms[k].dst && !Apart(ms[k])
  {
    SplitJoin(stack);
    FoldKeeps([], stack);
    assert ([[]] + stack)[1..] == stack && [] + stack == stack;
    PlacesOfNames([], [], stack);
    var starts := Places([], Split(Join(stack)), 0);
    assert InPlace(stack, starts);
    if Renders(ms, stack, starts) {
      forall k | 0 <= k < |ms|
        ensures ms[k].src == ms[k].dst && ms[k].len > 0
      {
        assert IsShift(ms[k], stack, starts, k) && Name(stack[k]);
      }
    }
  }

  /** The path "//ab": its one name is moved from byte 2 to byte 1. */
  lemma DoubleSlashOverlaps()
    ensures var t := [SLASH, SLASH, 97, 98];
      && Fold([], Split(t)) == Some([[97, 98]]) && Places([], Split(t), 0) == [2]
      && Renders([Shift(2, 1, 2)], [[97, 98]], [2]) && !Apart(Shift(2, 1, 2))
  {
    var t := [SLASH, SLASH, 97, 98];
    var u := t[1..];
    var v: Bytes := u[1..];
    assert v == [97, 98] && t[0] == SLASH && u[0] == SLASH;
    assert SegEnd(v[1..]) == 1 && SegEnd(v) == 2;
    assert Split(v) == [v];
    var vs: seq<Bytes> := [v];
    assert vs[1..] == [];
    FoldStep(t, []);
    FoldStep(u, []);
    PlacesStep(t, [], 0);
    PlacesStep(u, [], 1);
    var none: seq<Bytes> := [];
    assert v[0] == 97 && Keep(v) && none + [v] == vs;
    assert Next(none, v) == Some(vs);
    assert IsShift(Shift(2, 1, 2), [[97, 98]], [2], 0);
  }
}
