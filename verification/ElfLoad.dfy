/**
 Loading the PT_LOAD segments of an ELF file (ELF gABI chapter 5) into a new
 address space, page by page.
 */
module ElfLoad {
  import opened Options

  const PAGE: nat := 4096
  const WORD: nat := 0x1_0000_0000_0000_0000

  type Bytes = seq<nat>

  /** A loadable segment at virtual address `base`; `bits` are its PF_ flags. */
  datatype Segment = Segment(base: nat, offset: nat, filesz: nat, memsz: nat, bits: nat)

  datatype Flags = Flags(writable: bool, noExec: bool)

  datatype Page = Page(bytes: Bytes, flags: Flags)

  /** An address space: virtual page number to page. */
  type Space = map<nat, Page>

  /** pt_flags: PF_X is bit 0, PF_W bit 1. */
  function FlagsOf(bits: nat): Flags {
    Flags(bits / 2 % 2 == 1, bits % 2 == 0)
  }

  /** The pages of a segment: from the one of its first byte to the one of its
      last. */
  function First(s: Segment): nat {
    s.base / PAGE
  }

  function Past(s: Segment): (r: nat)
    ensures r >= First(s)
  {
    (s.base + s.memsz + (PAGE - 1)) / PAGE
  }

  predicate Spans(s: Segment, v: nat) {
    First(s) <= v < Past(s)
  }

  /** A page is a segment's exactly if it reaches below the segment's end and above
      its start; so every address of the segment is on one of its pages. */
  lemma SpansMemory(s: Segment, v: nat)
    ensures Spans(s, v) <==> v * PAGE < s.base + s.memsz && s.base < v * PAGE + PAGE
    ensures forall a :: s.base <= a < s.base + s.memsz ==> Spans(s, a / PAGE)
  {
    forall a | s.base <= a < s.base + s.memsz ensures Spans(s, a / PAGE) {
      assert a / PAGE * PAGE <= a < a / PAGE * PAGE + PAGE;
    }
  }

  function Min(a: nat, b: nat): nat {
    if a < b then a else b
  }

  /** The file bytes page `v` needs are all there; otherwise none is copied. */
  predicate InFile(s: Segment, data: Bytes, v: nat) {
    s.offset + Min(s.base + s.filesz, (v + 1) * PAGE) <= |data| + s.base
  }

  /** The byte segment `s` puts at address `a` of one of its pages. */
  function Byte(s: Segment, data: Bytes, a: nat): nat {
    if s.base <= a < s.base + s.filesz && InFile(s, data, a / PAGE) && s.offset + (a - s.base) < |data|
    then data[s.offset + (a - s.base)] else 0
  }

  function PageOf(s: Segment, data: Bytes, v: nat): Page {
    Page(seq<nat>(PAGE, i requires 0 <= i < PAGE => Byte(s, data, v * PAGE + i)), FlagsOf(s.bits))
  }

  // ------------------------------------------------------------- one page

  function Zeros(): Bytes {
    seq(PAGE, _ => 0)
  }

  function Overlay(b: Bytes, at: nat, src: Bytes): (r: Bytes)
    requires at + |src| <= |b|
    ensures |r| == |b|
  {
    b[..at] + src + b[at + |src|..]
  }

  /** The copy of one turn of the page loop, `from` being the address of the
      first byte to fill and `n` the number of bytes. */
  function Filled(s: Segment, data: Bytes, v: nat, from: nat, n: nat): Bytes
    requires v * PAGE <= from && from + n <= v * PAGE + PAGE && s.base <= from
  {
    if n > 0 && s.offset + (from - s.base) + n <= |data|
    then Overlay(Zeros(), from - v * PAGE, data[s.offset + (from - s.base)..s.offset + (from - s.base) + n])
    else Zeros()
  }

  /** Where the copy into page `v` starts and how long it is. */
  function CopyStart(s: Segment, v: nat): nat {
    if v == First(s) then s.base else v * PAGE
  }

  function CopySize(s: Segment, v: nat): nat {
    var end := s.base + s.filesz;
    if end > v * PAGE + PAGE then (if CopyStart(s, v) <= v * PAGE + PAGE then v * PAGE + PAGE - CopyStart(s, v) else 0)
    else if end > CopyStart(s, v) then end - CopyStart(s, v) else 0
  }

  lemma StartInPage(s: Segment, v: nat)
    requires v >= First(s)
    ensures v * PAGE <= CopyStart(s, v) < v * PAGE + PAGE && s.base <= CopyStart(s, v)
    ensures v == First(s) || s.base < v * PAGE
  {}

  lemma FilledAt(s: Segment, data: Bytes, v: nat, i: nat)
    requires v >= First(s) && i < PAGE
    requires v * PAGE <= CopyStart(s, v) && CopyStart(s, v) + CopySize(s, v) <= v * PAGE + PAGE
    requires s.base <= CopyStart(s, v)
    ensures |Filled(s, data, v, CopyStart(s, v), CopySize(s, v))| == PAGE
    ensures Filled(s, data, v, CopyStart(s, v), CopySize(s, v))[i] == Byte(s, data, v * PAGE + i)
  {
    StartInPage(s, v);
    assert (v * PAGE + i) / PAGE == v;
  }

  /** Zeroing a page and copying the file's part of it gives the page the
      segment prescribes. */
  lemma FilledIsPage(s: Segment, data: Bytes, v: nat)
    requires v >= First(s)
    ensures v * PAGE <= CopyStart(s, v) && CopyStart(s, v) + CopySize(s, v) <= v * PAGE + PAGE
    ensures s.base <= CopyStart(s, v)
    ensures Filled(s, data, v, CopyStart(s, v), CopySize(s, v)) == PageOf(s, data, v).bytes
  {
    StartInPage(s, v);
    forall i | 0 <= i < PAGE
      ensures |Filled(s, data, v, CopyStart(s, v), CopySize(s, v))| == PAGE
           && Filled(s, data, v, CopyStart(s, v), CopySize(s, v))[i] == PageOf(s, data, v).bytes[i]
    {
      FilledAt(s, data, v, i);
    }
  }

  // ------------------------------------------------------------- segments

  /** The space after the pages of `s` below page `upto` were mapped. */
  function Loaded(space: Space, s: Segment, data: Bytes, upto: nat): Space {
    space + map v: nat | First(s) <= v < upto :: PageOf(s, data, v)
  }

  function Pages(s: Segment): nat {
    Past(s) - First(s)
  }

  /** The last segment that has page `v`, if any. */
  function LastOf(segs: seq<Segment>, v: nat): (k: Option<nat>)
    ensures k.Some? ==>
      k.value < |segs| && Spans(segs[k.value], v)
      && forall j :: k.value < j < |segs| ==> !Spans(segs[j], v)
    ensures k.None? ==> forall j :: 0 <= j < |segs| ==> !Spans(segs[j], v)
  {
    if segs == [] then None
    else if Spans(segs[|segs| - 1], v) then Some(|segs| - 1)
    else LastOf(segs[..|segs| - 1], v)
  }

  /** Page by page what loading `segs` in order makes of `before`. */
  ghost predicate IsImage(space: Space, before: Space, segs: seq<Segment>, data: Bytes) {
    forall v: nat ::
      && (v in space <==> v in before || LastOf(segs, v).Some?)
      && (v in space ==> space[v] == match LastOf(segs, v)
                                     case None => before[v]
                                     case Some(k) => PageOf(segs[k], data, v))
  }

  lemma LoadedNone(space: Space, s: Segment, data: Bytes)
    ensures Loaded(space, s, data, First(s)) == space
  {}

  lemma LoadedMore(space: Space, s: Segment, data: Bytes, v: nat)
    requires v >= First(s)
    ensures Loaded(space, s, data, v)[v := PageOf(s, data, v)] == Loaded(space, s, data, v + 1)
  {}

  lemma ImageMore(space: Space, before: Space, segs: seq<Segment>, data: Bytes, s: Segment)
    requires IsImage(space, before, segs, data)
    ensures IsImage(Loaded(space, s, data, Past(s)), before, segs + [s], data)
  {
    var more, next := segs + [s], Loaded(space, s, data, Past(s));
    assert more[..|segs|] == segs;
    forall v: nat ensures LastOf(more, v) == if Spans(s, v) then Some(|segs|) else LastOf(segs, v) {}
  }

  /** The space after all of `segs` were loaded in turn. */
  function Image(before: Space, segs: seq<Segment>, data: Bytes): Space {
    if segs == [] then before
    else var s := segs[|segs| - 1]; Loaded(Image(before, segs[..|segs| - 1], data), s, data, Past(s))
  }

  /** Each page is as the last segment that has it prescribes. */
  lemma {:induction false} ImageIs(before: Space, segs: seq<Segment>, data: Bytes)
    ensures IsImage(Image(before, segs, data), before, segs, data)
  {
    if segs != [] {
      var n := |segs| - 1;
      ImageIs(before, segs[..n], data);
      ImageMore(Image(before, segs[..n], data), before, segs[..n], data, segs[n]);
      assert segs == segs[..n] + [segs[n]];
    }
  }

  // -------------------------------------------------------- the headers

  /** Little-endian numbers. */
  function U16(data: Bytes, at: nat): nat
    requires at + 2 <= |data|
  {
    data[at] + 0x100 * data[at + 1]
  }

  function U32(data: Bytes, at: nat): nat
    requires at + 4 <= |data|
  {
    U16(data, at) + 0x1_0000 * U16(data, at + 2)
  }

  function U64(data: Bytes, at: nat): nat
    requires at + 8 <= |data|
  {
    U32(data, at) + 0x1_0000_0000 * U32(data, at + 4)
  }

  const MAGIC: Bytes := [0x7f, 0x45, 0x4c, 0x46]
  const PT_LOAD: nat := 1
  const PHDR_SIZE: nat := 56

  function TableAt(data: Bytes): nat requires |data| >= 64 { U64(data, 32) }
  function EntrySize(data: Bytes): nat requires |data| >= 64 { U16(data, 54) }
  function Count(data: Bytes): nat requires |data| >= 64 { U16(data, 56) }

  /** The checks of load_elf_at: a 64-bit little-endian x86-64 file whose table
      of program headers is not empty and ends inside the file. */
  predicate Accepted(data: Bytes) {
    && |data| >= 64
    && data[..4] == MAGIC && data[4] == 2 && data[5] == 1
    && U16(data, 18) == 0x3E
    && 0 < Count(data) <= 0x10000
    && TableAt(data) + EntrySize(data) * Count(data) <= |data|
  }

  function HeaderAt(data: Bytes, i: nat): nat
    requires |data| >= 64
  {
    TableAt(data) + i * EntrySize(data)
  }

  /** Every program header is read inside the file; so it is when the entries
      have the size the gABI gives them. */
  ghost predicate HeadersInFile(data: Bytes)
    requires |data| >= 64
  {
    forall i: nat :: i < Count(data) ==> HeaderInFile(data, i)
  }

  predicate HeaderInFile(data: Bytes, i: nat)
    requires |data| >= 64
  {
    HeaderAt(data, i) + PHDR_SIZE <= |data|
  }

  lemma HeadersFit(data: Bytes)
    requires Accepted(data) && EntrySize(data) >= PHDR_SIZE
    ensures HeadersInFile(data)
  {
    var at, n, size := TableAt(data), Count(data), EntrySize(data);
    forall i: nat | i < n ensures HeaderInFile(data, i) {
      EntryFits(at, i, n, size, |data|);
    }
  }

  lemma EntryFits(at: nat, i: nat, n: nat, size: nat, len: nat)
    requires i < n && size >= PHDR_SIZE && at + size * n <= len
    ensures at + i * size + PHDR_SIZE <= len
  {
    assert (i + 1) * size <= n * size;
  }

  datatype Header = Header(kind: nat, seg: Segment)

  function ReadHeader(data: Bytes, load: nat, i: nat): Header
    requires |data| >= 64 && HeaderInFile(data, i)
  {
    var h := HeaderAt(data, i);
    Header(U32(data, h),
           Segment(U64(data, h + 16) + load, U64(data, h + 8), U64(data, h + 32), U64(data, h + 40), U32(data, h + 4)))
  }

  function Headers(data: Bytes, load: nat): seq<Header>
    requires |data| >= 64 && HeadersInFile(data)
  {
    seq(Count(data), i requires 0 <= i < Count(data) => ReadHeader(data, load, i))
  }

  /** The loadable segments, in the order of their headers. */
  function Loadable(hs: seq<Header>): seq<Segment> {
    if hs == [] then []
    else if hs[|hs| - 1].kind == PT_LOAD then Loadable(hs[..|hs| - 1]) + [hs[|hs| - 1].seg]
    else Loadable(hs[..|hs| - 1])
  }

  /** The segments of a file loaded at `load`. */
  function Segments(data: Bytes, load: nat): seq<Segment>
    requires |data| >= 64 && HeadersInFile(data)
  {
    Loadable(Headers(data, load))
  }

  /** No address of a segment wraps around. */
  ghost predicate NoWrap(segs: seq<Segment>) {
    forall k :: 0 <= k < |segs| ==> segs[k].base + segs[k].memsz + PAGE <= WORD && segs[k].base + segs[k].filesz < WORD
  }

  /** The pages a load takes, shared ones counted once per segment. */
  function Needed(segs: seq<Segment>): nat {
    if segs == [] then 0 else Needed(segs[..|segs| - 1]) + Pages(segs[|segs| - 1])
  }

  lemma {:induction false} LoadableGrows(hs: seq<Header>, n: nat)
    requires n <= |hs|
    ensures Loadable(hs[..n]) <= Loadable(hs)
    decreases |hs|
  {
    if n < |hs| {
      var m := |hs| - 1;
      LoadableGrows(hs[..m], n);
      assert hs[..m][..n] == hs[..n];
    } else {
      assert hs[..n] == hs;
    }
  }

  lemma {:induction false} NeededGrows(segs: seq<Segment>, more: seq<Segment>)
    requires segs <= more
    ensures Needed(segs) <= Needed(more)
    decreases |more|
  {
    if |segs| < |more| {
      NeededGrows(segs, more[..|more| - 1]);
    } else {
      assert segs == more;
    }
  }

  /** What holds of all the segments holds of those of the first headers. */
  lemma FirstSegments(hs: seq<Header>, n: nat)
    requires n <= |hs| && NoWrap(Loadable(hs))
    ensures NoWrap(Loadable(hs[..n])) && Needed(Loadable(hs[..n])) <= Needed(Loadable(hs))
  {
    LoadableGrows(hs, n);
    NeededGrows(Loadable(hs[..n]), Loadable(hs));
  }

  lemma NextHeader(hs: seq<Header>, i: nat)
    requires i < |hs|
    ensures Loadable(hs[..i + 1]) == if hs[i].kind == PT_LOAD then Loadable(hs[..i]) + [hs[i].seg]
      else Loadable(hs[..i])
  {
    assert hs[..i + 1][..i] == hs[..i];
  }

  lemma OneMore(before: Space, segs: seq<Segment>, s: Segment, data: Bytes)
    ensures Needed(segs + [s]) == Needed(segs) + Pages(s)
    ensures Image(before, segs + [s], data) == Loaded(Image(before, segs, data), s, data, Past(s))
  {
    assert (segs + [s])[..|segs|] == segs;
  }

  class Loader {
    var space: Space

    /** One turn of the page loop: a zeroed page, mapped, with its part of the
        file copied in. */
    method MapPage(s: Segment, data: Bytes, v: nat)
      requires v >= First(s)
      modifies this
      ensures space == old(space)[v := PageOf(s, data, v)]
    {
      FilledIsPage(s, data, v);
      var bytes := Filled(s, data, v, CopyStart(s, v), CopySize(s, v));
      space := space[v := Page(bytes, FlagsOf(s.bits))];
    }

    /** The page loop over one segment; `budget` pages can be had. */
    method LoadSegment(s: Segment, data: Bytes, budget: nat) returns (left: Option<nat>)
      requires s.base + s.memsz + PAGE <= WORD && s.base + s.filesz < WORD
      modifies this
      ensures left == if Pages(s) <= budget then Some(budget - Pages(s)) else None
      ensures left.Some? ==> space == Loaded(old(space), s, data, Past(s))
      ensures left.None? ==> space == Loaded(old(space), s, data, First(s) + budget)
    {
      LoadedNone(space, s, data);
      var first, past := First(s), Past(s);
      var v := first;
      while v < past
        invariant first <= v <= past && v - first <= budget
        invariant space == Loaded(old(space), s, data, v)
      {
        if v - first == budget { return None; }
        LoadedMore(old(space), s, data, v);
        MapPage(s, data, v);
        v := v + 1;
      }
      left := Some(budget - (v - first));
    }

    /** load_elf_at: check the file header, then load every PT_LOAD segment in
        turn.  Each page ends up as the last segment that has it prescribes. */
    method Load(data: Bytes, load: nat, budget: nat) returns (ok: bool)
      requires Accepted(data) ==> HeadersInFile(data) && NoWrap(Segments(data, load))
      modifies this
      ensures ok <==> Accepted(data) && Needed(Segments(data, load)) <= budget
      ensures ok ==> IsImage(space, old(space), Segments(data, load), data)
      ensures !Accepted(data) ==> space == old(space)
    {
      if !Accepted(data) { return false; }
      ok := LoadHeaders(Headers(data, load), data, budget);
      ImageIs(old(space), Segments(data, load), data);
    }

    /** The loop over the program headers. */
    method LoadHeaders(hs: seq<Header>, data: Bytes, budget: nat) returns (ok: bool)
      requires NoWrap(Loadable(hs))
      modifies this
      ensures ok <==> Needed(Loadable(hs)) <= budget
      ensures ok ==> space == Image(old(space), Loadable(hs), data)
    {
      var left: nat, i: nat := budget, 0;
      while i < |hs|
        invariant i <= |hs|
        invariant space == Image(old(space), Loadable(hs[..i]), data)
        invariant left + Needed(Loadable(hs[..i])) == budget
      {
        FirstSegments(hs, i + 1);
        NextHeader(hs, i);
        ghost var segs := Loadable(hs[..i]);
        i := i + 1;
        if hs[i - 1].kind == PT_LOAD {
          var s := hs[i - 1].seg;
          OneMore(old(space), segs, s, data);
          assert Loadable(hs[..i])[|segs|] == s;
          var r := LoadSegment(s, data, left);
          if r.None? { return false; }
          left := r.value;
        }
      }
      assert hs[..i] == hs;
      ok := true;
    }
  }

  // ---------------------------------------------- what the gABI asks for

  /** The byte at address `a`. */
  function At(space: Space, a: nat): Option<nat> {
    if a / PAGE in space && |space[a / PAGE].bytes| == PAGE then Some(space[a / PAGE].bytes[a % PAGE]) else None
  }

  /** Segment `k` is in memory as the file says: its file bytes, zeros in the
      rest of its pages, its flags on every page. */
  ghost predicate Faithful(space: Space, s: Segment, data: Bytes) {
    forall a: nat :: Spans(s, a / PAGE) ==> FaithfulAt(space, s, data, a)
  }

  predicate FaithfulAt(space: Space, s: Segment, data: Bytes, a: nat) {
    && a / PAGE in space && space[a / PAGE].flags == FlagsOf(s.bits)
    && At(space, a) == Some(if s.base <= a < s.base + s.filesz && s.offset + (a - s.base) < |data|
      then data[s.offset + (a - s.base)] else 0)
  }

  lemma ImageAt(space: Space, before: Space, segs: seq<Segment>, data: Bytes, a: nat)
    requires IsImage(space, before, segs, data) && LastOf(segs, a / PAGE).Some?
    ensures var s := segs[LastOf(segs, a / PAGE).value];
      a / PAGE in space && space[a / PAGE] == PageOf(s, data, a / PAGE) && At(space, a) == Some(Byte(s, data, a))
  {
    assert a / PAGE * PAGE + a % PAGE == a;
  }

  /** On each page of segment `k` the last segment that has the page would put
      there what this one does. */
  ghost predicate Prevails(segs: seq<Segment>, data: Bytes, k: nat)
    requires k < |segs|
  {
    forall v: nat :: Spans(segs[k], v) ==>
      LastOf(segs, v).Some? && PageOf(segs[LastOf(segs, v).value], data, v) == PageOf(segs[k], data, v)
  }

  /** A segment inside the file is in memory as the file says exactly when it
      prevails on its pages. */
  lemma FaithfulIff(space: Space, before: Space, segs: seq<Segment>, data: Bytes, k: nat)
    requires IsImage(space, before, segs, data) && k < |segs|
    requires segs[k].offset + segs[k].filesz <= |data|
    ensures Faithful(space, segs[k], data) <==> Prevails(segs, data, k)
  {
    var s := segs[k];
    if Faithful(space, s, data) {
      forall v: nat | Spans(s, v)
        ensures LastOf(segs, v).Some? && PageOf(segs[LastOf(segs, v).value], data, v) == PageOf(s, data, v)
      {
        FaithfulPage(space, before, segs, data, s, v);
      }
    }
    if Prevails(segs, data, k) {
      forall a: nat | Spans(s, a / PAGE) ensures FaithfulAt(space, s, data, a) {
        PrevailsAt(space, before, segs, data, k, a);
      }
    }
  }

  lemma PrevailsAt(space: Space, before: Space, segs: seq<Segment>, data: Bytes, k: nat, a: nat)
    requires IsImage(space, before, segs, data) && k < |segs| && Prevails(segs, data, k) && Spans(segs[k], a / PAGE)
    requires segs[k].offset + segs[k].filesz <= |data|
    ensures FaithfulAt(space, segs[k], data, a)
  {
    ImageAt(space, before, segs, data, a);
    PageAt(segs[LastOf(segs, a / PAGE).value], data, a);
    PageAt(segs[k], data, a);
    WholeAt(segs[k], data, a);
  }

  /** With all of the segment in the file, no page lacks a byte. */
  lemma WholeAt(s: Segment, data: Bytes, a: nat)
    requires s.offset + s.filesz <= |data|
    ensures Byte(s, data, a) == if s.base <= a < s.base + s.filesz then data[s.offset + (a - s.base)] else 0
  {}

  lemma PageAt(s: Segment, data: Bytes, a: nat)
    ensures PageOf(s, data, a / PAGE).bytes[a % PAGE] == Byte(s, data, a)
  {
    assert a / PAGE * PAGE + a % PAGE == a;
  }

  /** A faithful page is the one the segment prescribes. */
  lemma FaithfulPage(space: Space, before: Space, segs: seq<Segment>, data: Bytes, s: Segment, v: nat)
    requires IsImage(space, before, segs, data) && Faithful(space, s, data) && Spans(s, v) && LastOf(segs, v).Some?
    requires s.offset + s.filesz <= |data|
    ensures PageOf(segs[LastOf(segs, v).value], data, v) == PageOf(s, data, v)
  {
    var l := segs[LastOf(segs, v).value];
    forall a | v * PAGE <= a < v * PAGE + PAGE ensures Byte(l, data, a) == Byte(s, data, a) {
      assert a / PAGE == v;
      assert FaithfulAt(space, s, data, a);
      ImageAt(space, before, segs, data, a);
      WholeAt(s, data, a);
    }
    assert v * PAGE / PAGE == v && FaithfulAt(space, s, data, v * PAGE);
    ImageAt(space, before, segs, data, v * PAGE);
    SamePage(l, s, data, v);
  }

  lemma SamePage(l: Segment, s: Segment, data: Bytes, v: nat)
    requires FlagsOf(l.bits) == FlagsOf(s.bits)
    requires forall a :: v * PAGE <= a < v * PAGE + PAGE ==> Byte(l, data, a) == Byte(s, data, a)
    ensures PageOf(l, data, v) == PageOf(s, data, v)
  {
    var p, q := PageOf(l, data, v), PageOf(s, data, v);
    forall i | 0 <= i < PAGE ensures p.bytes[i] == q.bytes[i] {
      assert p.bytes[i] == Byte(l, data, v * PAGE + i);
    }
    assert p.bytes == q.bytes;
  }

  /** So it is when no later segment has a page of it. */
  lemma SegmentFaithful(space: Space, before: Space, segs: seq<Segment>, data: Bytes, k: nat)
    requires IsImage(space, before, segs, data) && k < |segs|
    requires segs[k].offset + segs[k].filesz <= |data|
    requires forall j, v: nat :: k < j < |segs| && Spans(segs[k], v) ==> !Spans(segs[j], v)
    ensures Faithful(space, segs[k], data)
  {
    FaithfulIff(space, before, segs, data, k);
  }

  /** A file of two one-byte segments on one page. */
  const SHARED: Bytes := seq(176, i => SharedByte(i))

  function SharedByte(i: int): nat {
    match i
    case 0 => 0x7f case 1 => 0x45 case 2 => 0x4c case 3 => 0x46 case 4 => 2 case 5 => 1 case 6 => 1
    case 16 => 2 case 18 => 0x3E case 20 => 1 case 25 => 0x10          // type, machine, version, entry 0x1000
    case 32 => 64 case 52 => 64 case 54 => 56 case 56 => 2             // two headers of 56 bytes at 64
    case 64 => 1 case 68 => 5 case 81 => 0x10 case 89 => 0x10          // file byte 0 at 0x1000, readable, executable
    case 96 => 1 case 104 => 1 case 113 => 0x10
    case 120 => 1 case 124 => 6 case 128 => 1 case 137 => 0x18 case 145 => 0x18   // file byte 1 at 0x1800, writable
    case 152 => 1 case 160 => 1 case 169 => 0x10
    case _ => 0
  }

  lemma SharedHeader()
    ensures Accepted(SHARED) && TableAt(SHARED) == 64 && EntrySize(SHARED) == 56 && Count(SHARED) == 2
  {
  }

  lemma SharedFirst()
    requires HeaderInFile(SHARED, 0) && HeaderAt(SHARED, 0) == 64
    ensures ReadHeader(SHARED, 0, 0) == Header(PT_LOAD, Segment(0x1000, 0, 1, 1, 5))
  {
    assert U64(SHARED, 80) == 0x1000 && U64(SHARED, 72) == 0 && U64(SHARED, 96) == 1 && U64(SHARED, 104) == 1;
    assert U32(SHARED, 64) == 1 && U32(SHARED, 68) == 5;
  }

  lemma SharedSecond()
    requires HeaderInFile(SHARED, 1) && HeaderAt(SHARED, 1) == 120
    ensures ReadHeader(SHARED, 0, 1) == Header(PT_LOAD, Segment(0x1800, 1, 1, 1, 6))
  {
    assert U64(SHARED, 136) == 0x1800 && U64(SHARED, 128) == 1 && U64(SHARED, 152) == 1 && U64(SHARED, 160) == 1;
    assert U32(SHARED, 120) == 1 && U32(SHARED, 124) == 6;
  }

  lemma SharedSegments()
    ensures Accepted(SHARED) && HeadersInFile(SHARED)
    ensures Segments(SHARED, 0) == [Segment(0x1000, 0, 1, 1, 5), Segment(0x1800, 1, 1, 1, 6)]
  {
    SharedHeader();
    HeadersFit(SHARED);
    SharedFirst();
    SharedSecond();
    TwoSegments(Headers(SHARED, 0));
  }

  lemma TwoSegments(hs: seq<Header>)
    requires |hs| == 2 && hs[0].kind == PT_LOAD && hs[1].kind == PT_LOAD
    ensures Loadable(hs) == [hs[0].seg, hs[1].seg]
  {
    assert Loadable(hs[..1]) == [hs[0].seg];
  }

  /** Two segments on one page: the page is the later one's alone, and the first
      byte of the earlier one reads 0. */
  lemma SharedPageLost(space: Space, before: Space)
    requires Accepted(SHARED) && HeadersInFile(SHARED)
    requires IsImage(space, before, Segments(SHARED, 0), SHARED)
    ensures SHARED[0] == 0x7f && At(space, 0x1000) == Some(0)
    ensures !Faithful(space, Segment(0x1000, 0, 1, 1, 5), SHARED)
  {
    SharedSegments();
    LaterWins(space, before, SHARED);
  }

  lemma LaterWins(space: Space, before: Space, data: Bytes)
    requires |data| >= 2 && data[0] != 0
    requires IsImage(space, before, [Segment(0x1000, 0, 1, 1, 5), Segment(0x1800, 1, 1, 1, 6)], data)
    ensures At(space, 0x1000) == Some(0) && !Faithful(space, Segment(0x1000, 0, 1, 1, 5), data)
  {
    var segs := [Segment(0x1000, 0, 1, 1, 5), Segment(0x1800, 1, 1, 1, 6)];
    assert Spans(segs[1], 1) && LastOf(segs, 1) == Some(1);
    ImageAt(space, before, segs, data, 0x1000);
    assert Spans(segs[0], 0x1000 / PAGE) && !FaithfulAt(space, segs[0], data, 0x1000);
  }

  /** Every byte of the segment that the file has is loaded. */
  ghost predicate LoadedAsFar(s: Segment, data: Bytes) {
    forall a: nat :: s.base <= a < s.base + s.filesz && s.offset + (a - s.base) < |data| ==>
      Byte(s, data, a) == data[s.offset + (a - s.base)]
  }

  /** The file has only zeros for the page in which it ends. */
  ghost predicate EndsInZeros(s: Segment, data: Bytes) {
    var cut := |data| - s.offset + s.base;   // the address the file's end would have
    forall a: nat :: s.base <= a < cut && a / PAGE == cut / PAGE ==> data[s.offset + (a - s.base)] == 0
  }

  /** Past the end of the file a page gets none of its bytes, not even those
      the file still has: a segment is loaded byte by byte as far as the file
      goes exactly when the file holds all of it, or has only zeros for the page
      in which it ends. */
  lemma TruncatedIff(s: Segment, data: Bytes)
    ensures LoadedAsFar(s, data) <==> s.offset + s.filesz <= |data| || EndsInZeros(s, data)
  {
    if LoadedAsFar(s, data) && s.offset + s.filesz > |data| {
      var cut := |data| - s.offset + s.base;
      forall a: nat | s.base <= a < cut && a / PAGE == cut / PAGE ensures data[s.offset + (a - s.base)] == 0 {
        TruncatedAt(s, data, a);
      }
    }
    if s.offset + s.filesz <= |data| || EndsInZeros(s, data) {
      forall a: nat | s.base <= a < s.base + s.filesz && s.offset + (a - s.base) < |data|
        ensures Byte(s, data, a) == data[s.offset + (a - s.base)]
      {
        TruncatedAt(s, data, a);
      }
    }
  }

  lemma TruncatedAt(s: Segment, data: Bytes, a: nat)
    requires s.base <= a < s.base + s.filesz && s.offset + (a - s.base) < |data|
    ensures var cut := |data| - s.offset + s.base;
      Byte(s, data, a) == if s.offset + s.filesz <= |data| || a / PAGE != cut / PAGE then data[s.offset + (a - s.base)]
        else 0
  {
    var cut := |data| - s.offset + s.base;
    if a / PAGE != cut / PAGE {
      assert (a / PAGE + 1) * PAGE <= cut;
    } else {
      assert cut < (a / PAGE + 1) * PAGE;
    }
  }
}
