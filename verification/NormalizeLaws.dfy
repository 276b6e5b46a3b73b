/**
 What each piece of a path does to its canonical form, said of the result of
 normalising alone: ".." takes the last name away, "." and nothing change
 nothing, and any other piece is one more name.
 */
module NormalizeLaws {
  import opened Options
  import opened NormalizePath

  const PARENT: Bytes := [DOT, DOT]
  const SELF: Bytes := [DOT]

  /** A path of at most 64 names. */
  ghost predicate Stack(stack: seq<Bytes>) {
    Names(stack) && |stack| <= MAX_SEGMENTS
  }

  lemma {:induction false} FoldSnoc(stack: seq<Bytes>, ps: seq<Bytes>, p: Bytes)
    ensures Fold(stack, ps + [p]) == match Fold(stack, ps) case None => None case Some(s) => Next(s, p)
    decreases |ps|
  {
    if ps == [] {
      assert ps + [p] == [p] + [];
      FoldCons(stack, p, []);
    } else {
      var q := ps[1..];
      assert ps == [ps[0]] + q && ps + [p] == [ps[0]] + (q + [p]);
      FoldCons(stack, ps[0], q);
      FoldCons(stack, ps[0], q + [p]);
      if Next(stack, ps[0]).Some? { FoldSnoc(Next(stack, ps[0]).value, q, p); }
    }
  }

  /** Different names give different paths. */
  lemma RenderedOnce(a: seq<Bytes>, b: seq<Bytes>)
    requires Names(a) && Names(b) && Rendered(a) == Rendered(b)
    ensures a == b
  {
    SplitJoin(a);
    SplitJoin(b);
    if a == [] || b == [] {
      SplitCons([], []);
      assert [] + [SLASH] + [] == [SLASH] && Split([SLASH]) == [[], []];
      assert Split([SLASH])[1] == [] && !Name([]);
    } else {
      assert a == ([[]] + a)[1..] && b == ([[]] + b)[1..];
    }
  }

  /** The names of the result. */
  lemma NamesOf(cwd: Bytes, input: Bytes, cap: nat) returns (stack: seq<Bytes>)
    requires cwd != [] && input != [] && Normal(cwd, input, cap).Some?
    ensures Stack(stack) && Normal(cwd, input, cap) == Some(Rendered(stack))
    ensures Fold([], Split(Full(cwd, input))) == Some(stack)
  {
    SplitPieces(Full(cwd, input));
    stack := Fold([], Split(Full(cwd, input))).value;
    FoldNames([], Split(Full(cwd, input)));
  }

  /** One more piece behind a slash. */
  lemma OnePieceMore(cwd: Bytes, input: Bytes, cap: nat, p: Bytes)
    requires cwd != [] && input != [] && SLASH !in p && |Full(cwd, input)| + 1 + |p| <= cap
    ensures Normal(cwd, input + [SLASH] + p, cap) ==
      match Fold([], Split(Full(cwd, input)))
      case None => None
      case Some(stack) =>
        match Next(stack, p)
        case None => None
        case Some(next) => Some(Rendered(next))
  {
    var t := Full(cwd, input);
    assert Full(cwd, input + [SLASH] + p) == t + [SLASH] + p;
    SplitSnoc(t, p);
    FoldSnoc([], Split(t), p);
  }

  /** Whatever path has the names `stack`, wherever there is room: a further ".."
      drops the last of them and stays at the root; "." and a trailing slash do
      nothing; a further name is the last one, or one too many. */
  lemma PieceLaws(cwd: Bytes, input: Bytes, cap: nat, stack: seq<Bytes>, name: Bytes)
    requires cwd != [] && input != [] && Stack(stack) && Normal(cwd, input, cap) == Some(Rendered(stack))
    requires Name(name)
    ensures |Full(cwd, input)| + 3 <= cap ==>
      Normal(cwd, input + [SLASH] + PARENT, cap) == Some(Rendered(if stack == [] then [] else stack[..|stack| - 1]))
    ensures |Full(cwd, input)| + 2 <= cap ==> Normal(cwd, input + [SLASH] + SELF, cap) == Some(Rendered(stack))
    ensures |Full(cwd, input)| + 1 <= cap ==> Normal(cwd, input + [SLASH], cap) == Some(Rendered(stack))
    ensures |Full(cwd, input)| + 1 + |name| <= cap ==>
      Normal(cwd, input + [SLASH] + name, cap) ==
        if |stack| == MAX_SEGMENTS then None else Some(Rendered(stack + [name]))
  {
    var found := NamesOf(cwd, input, cap);
    RenderedOnce(found, stack);
    var t := Full(cwd, input);
    if |t| + 3 <= cap { OnePieceMore(cwd, input, cap, PARENT); }
    if |t| + 2 <= cap { OnePieceMore(cwd, input, cap, SELF); }
    if |t| + 1 <= cap {
      OnePieceMore(cwd, input, cap, []);
      assert input + [SLASH] + [] == input + [SLASH];
    }
    if |t| + 1 + |name| <= cap { OnePieceMore(cwd, input, cap, name); }
  }

  /** A path refused for its names is refused with anything behind it. */
  lemma RefusedForGood(cwd: Bytes, input: Bytes, cap: nat, p: Bytes)
    requires cwd != [] && input != [] && SLASH !in p && |Full(cwd, input)| <= cap
    requires Normal(cwd, input, cap).None?
    ensures Normal(cwd, input + [SLASH] + p, cap).None?
  {
    if |Full(cwd, input)| + 1 + |p| <= cap {
      OnePieceMore(cwd, input, cap, p);
    } else {
      assert |Full(cwd, input + [SLASH] + p)| > cap;
    }
  }

  /** At the root: one piece behind the first slash. */
  lemma RootLaws(cwd: Bytes, cap: nat, name: Bytes)
    requires cwd != [] && Name(name)
    ensures cap >= 1 ==> Normal(cwd, [SLASH], cap) == Some([SLASH])
    ensures cap >= 2 ==> Normal(cwd, [SLASH] + SELF, cap) == Some([SLASH])
    ensures cap >= 3 ==> Normal(cwd, [SLASH] + PARENT, cap) == Some([SLASH])
    ensures cap > |name| ==> Normal(cwd, [SLASH] + name, cap) == Some([SLASH] + name)
  {
    RootPiece([]);
    RootPiece(SELF);
    RootPiece(PARENT);
    RootPiece(name);
    assert [SLASH] + [] == [SLASH];
    assert Join([name]) == [SLASH] + name;
  }

  lemma RootPiece(p: Bytes)
    requires SLASH !in p
    ensures Fold([], Split([SLASH] + p)) == Next([], p)
  {
    SplitCons([], p);
    SplitCons(p, []);
    assert [] + [SLASH] + p == [SLASH] + p && Split([SLASH] + p) == [[]] + [p];
    FoldCons([], [], [p]);
    assert [p] == [p] + [];
    FoldCons([], p, []);
  }

  /** A path that starts with a slash means the same everywhere; any other means
      what it means behind the directory it is used in. */
  lemma WhereItStarts(cwd: Bytes, other: Bytes, input: Bytes, cap: nat)
    requires cwd != [] && cwd[0] == SLASH && other != [] && input != []
    ensures input[0] == SLASH ==> Normal(cwd, input, cap) == Normal(other, input, cap)
    ensures input[0] != SLASH && cwd[|cwd| - 1] != SLASH ==>
      Normal(cwd, input, cap) == Normal(other, cwd + [SLASH] + input, cap)
    ensures input[0] != SLASH && cwd[|cwd| - 1] == SLASH ==> Normal(cwd, input, cap) == Normal(other, cwd + input, cap)
  {
    assert cwd + [] + input == cwd + input;
  }
}
