/**
 ELF files as the gABI lays them out (chapters 4 and 5, 64-bit little-endian): a
 writer of file and program headers, against which the loader's reading of them
 is proved.
 */
module ElfFile {
  import opened Options
  import opened Bits
  import opened ElfLoad

  /** The fields of a program header, in the order of the gABI. */
  datatype Phdr = Phdr(kind: nat, flags: nat, offset: nat, vaddr: nat, paddr: nat, filesz: nat, memsz: nat, align: nat)

  /** The fields of the file header that the loader does not look at. */
  datatype Rest = Rest(ident: Bytes, kind: nat, version: nat, entry: nat, shoff: nat, flags: nat, shentsize: nat,
                       shnum: nat, shstrndx: nat)

  const U32_END: nat := 0x1_0000_0000

  /** The low `n` bytes of `x`, lowest first. */
  function Le(n: nat, x: nat): (b: Bytes)
    ensures |b| == n
  {
    if n == 0 then [] else [x % 0x100] + Le(n - 1, x / 0x100)
  }

  /** Pieces one behind the other. */
  function Written(fs: seq<Bytes>): (b: Bytes)
    ensures |b| == Place(fs, |fs|)
  {
    if fs == [] then [] else
      var n := |fs| - 1;
      PlaceIn(fs, n, n);
      Written(fs[..n]) + fs[n]
  }

  /** Where piece `k` starts. */
  function Place(fs: seq<Bytes>, k: nat): nat
    requires k <= |fs|
  {
    if k == 0 then 0 else Place(fs, k - 1) + |fs[k - 1]|
  }

  lemma {:induction false} PlaceIn(fs: seq<Bytes>, n: nat, k: nat)
    requires k <= n <= |fs|
    ensures Place(fs[..n], k) == Place(fs, k)
  {
    if k > 0 { PlaceIn(fs, n, k - 1); }
  }

  lemma {:induction false} PieceAt(fs: seq<Bytes>, k: nat)
    requires k < |fs|
    ensures Place(fs, k) + |fs[k]| <= |Written(fs)|
    ensures Written(fs)[Place(fs, k)..Place(fs, k) + |fs[k]|] == fs[k]
  {
    var n := |fs| - 1;
    PlaceIn(fs, n, n);
    if k < n {
      PlaceIn(fs, n, k);
      PieceAt(fs[..n], k);
      var b := Written(fs[..n]);
      assert Written(fs)[..|b|] == b;
    }
  }

  predicate IsAt(data: Bytes, at: nat, b: Bytes) {
    at + |b| <= |data| && data[at..at + |b|] == b
  }

  lemma SliceIs(data: Bytes, b: Bytes, h: nat, p: nat, c: Bytes)
    requires IsAt(data, h, b) && p + |c| <= |b| && b[p..p + |c|] == c
    ensures IsAt(data, h + p, c)
  {
    var x, s, d := data[h + p..h + p + |c|], data[h..h + |b|], b[p..p + |c|];
    assert |x| == |c|;
    forall i | 0 <= i < |c| ensures x[i] == c[i] {
      assert x[i] == data[h + (p + i)] && s[p + i] == data[h + (p + i)] && d[i] == b[p + i];
    }
  }

  lemma PieceIn(data: Bytes, h: nat, fs: seq<Bytes>, k: nat)
    requires k < |fs| && IsAt(data, h, Written(fs))
    ensures IsAt(data, h + Place(fs, k), fs[k])
  {
    PieceAt(fs, k);
    SliceIs(data, Written(fs), h, Place(fs, k), fs[k]);
  }

  lemma Pair(data: Bytes, at: nat, a: Bytes, b: Bytes)
    requires IsAt(data, at, a + b)
    ensures IsAt(data, at, a) && IsAt(data, at + |a|, b)
  {
    assert (a + b)[0..0 + |a|] == a && (a + b)[|a|..|a| + |b|] == b;
    SliceIs(data, a + b, at, 0, a);
    SliceIs(data, a + b, at, |a|, b);
  }

  function EntryFields(p: Phdr): seq<Bytes> {
    [Le(4, p.kind), Le(4, p.flags), Le(8, p.offset), Le(8, p.vaddr), Le(8, p.paddr), Le(8, p.filesz),
     Le(8, p.memsz), Le(8, p.align)]
  }

  lemma EntryPlaces(p: Phdr)
    ensures var fs := EntryFields(p);
      && Place(fs, 0) == 0 && Place(fs, 1) == 4 && Place(fs, 2) == 8 && Place(fs, 3) == 16 && Place(fs, 4) == 24
      && Place(fs, 5) == 32 && Place(fs, 6) == 40 && Place(fs, 7) == 48 && Place(fs, 8) == 56
  {
    var fs := EntryFields(p);
    assert Place(fs, 2) == Place(fs, 1) + 4 && Place(fs, 3) == Place(fs, 2) + 8 && Place(fs, 4) == Place(fs, 3) + 8;
    assert Place(fs, 5) == Place(fs, 4) + 8 && Place(fs, 6) == Place(fs, 5) + 8 && Place(fs, 7) == Place(fs, 6) + 8;
  }

  function Entry(p: Phdr): (b: Bytes)
    ensures |b| == PHDR_SIZE
  {
    EntryPlaces(p);
    Written(EntryFields(p))
  }

  function Table(ps: seq<Phdr>): (b: Bytes)
    ensures |b| == PHDR_SIZE * |ps|
  {
    if ps == [] then [] else Table(ps[..|ps| - 1]) + Entry(ps[|ps| - 1])
  }

  /** The fields of an x86-64 file header behind its identification, for `n`
      program headers right behind it. */
  function HeaderFields(r: Rest, n: nat): seq<Bytes> {
    [Le(2, r.kind), Le(2, 0x3E), Le(4, r.version), Le(8, r.entry), Le(8, 64), Le(8, r.shoff),
     Le(4, r.flags), Le(2, 64), Le(2, PHDR_SIZE), Le(2, n), Le(2, r.shentsize), Le(2, r.shnum),
     Le(2, r.shstrndx)]
  }

  lemma HeaderPlaces(r: Rest, n: nat)
    ensures var fs := HeaderFields(r, n);
      Place(fs, 1) == 2 && Place(fs, 4) == 16 && Place(fs, 8) == 38 && Place(fs, 9) == 40 && Place(fs, 13) == 48
  {
    var fs := HeaderFields(r, n);
    assert Place(fs, 2) == Place(fs, 1) + 2 && Place(fs, 3) == Place(fs, 2) + 4 && Place(fs, 4) == Place(fs, 3) + 8;
    assert Place(fs, 5) == Place(fs, 4) + 8 && Place(fs, 6) == Place(fs, 5) + 8 && Place(fs, 7) == Place(fs, 6) + 4;
    assert Place(fs, 8) == Place(fs, 7) + 2 && Place(fs, 9) == Place(fs, 8) + 2 && Place(fs, 10) == Place(fs, 9) + 2;
    assert Place(fs, 11) == Place(fs, 10) + 2 && Place(fs, 12) == Place(fs, 11) + 2;
  }

  function FileHeader(r: Rest, n: nat): (b: Bytes)
    requires |r.ident| == 10
    ensures |b| == 64
  {
    HeaderPlaces(r, n);
    MAGIC + [2, 1] + r.ident + Written(HeaderFields(r, n))
  }

  /** A file: its header, its program headers and anything behind them. */
  function File(r: Rest, ps: seq<Phdr>, body: Bytes): Bytes
    requires |r.ident| == 10
  {
    FileHeader(r, |ps|) + Table(ps) + body
  }

  predicate Fits(p: Phdr) {
    && p.kind < U32_END && p.flags < U32_END
    && p.offset < WORD && p.vaddr < WORD && p.filesz < WORD && p.memsz < WORD
  }

  /** What is to be loaded: the PT_LOAD headers' segments in order, each at its
      virtual address. */
  function Wanted(ps: seq<Phdr>, load: nat): seq<Segment> {
    if ps == [] then [] else
      var p := ps[|ps| - 1];
      Wanted(ps[..|ps| - 1], load)
        + if p.kind == PT_LOAD then [Segment(p.vaddr + load, p.offset, p.filesz, p.memsz, p.flags)] else []
  }

  // ------------------------------------------------------------- numbers

  lemma ReadsU16(data: Bytes, at: nat, x: nat)
    requires IsAt(data, at, Le(2, x))
    ensures U16(data, at) == x % 0x1_0000
  {
    assert Le(1, x / 0x100) == [x / 0x100 % 0x100] + Le(0, x / 0x100 / 0x100);
    assert data[at] == data[at..at + 2][0] && data[at + 1] == data[at..at + 2][1];
  }

  lemma {:induction false} LeJoin(m: nat, n: nat, x: nat, y: nat)
    requires y == Shifted(x, m)
    ensures Le(m + n, x) == Le(m, x) + Le(n, y)
    decreases m
  {
    if m > 0 { LeJoin(m - 1, n, x / 0x100, y); }
  }

  /** `x` without its low `m` bytes. */
  function Shifted(x: nat, m: nat): nat {
    if m == 0 then x else Shifted(x / 0x100, m - 1)
  }

  lemma ShiftedTwice(x: nat)
    ensures Shifted(x, 2) == x / 0x1_0000
  {
    assert Shifted(x, 2) == Shifted(x / 0x100, 1) == Shifted(x / 0x100 / 0x100, 0);
  }

  lemma ShiftedFour(x: nat)
    ensures Shifted(x, 4) == x / U32_END
  {
    var y := x / 0x100 / 0x100;
    assert Shifted(x, 4) == Shifted(x / 0x100, 3) == Shifted(y, 2);
    ShiftedTwice(y);
  }

  lemma ReadsU32(data: Bytes, at: nat, x: nat)
    requires IsAt(data, at, Le(4, x))
    ensures U32(data, at) == x % U32_END
  {
    var y := x / 0x1_0000;
    ShiftedTwice(x);
    LeJoin(2, 2, x, y);
    Pair(data, at, Le(2, x), Le(2, y));
    ReadsU16(data, at, x);
    ReadsU16(data, at + 2, y);
  }

  lemma ReadsU64(data: Bytes, at: nat, x: nat)
    requires IsAt(data, at, Le(8, x))
    ensures U64(data, at) == x % WORD
  {
    var y := x / U32_END;
    ShiftedFour(x);
    LeJoin(4, 4, x, y);
    Pair(data, at, Le(4, x), Le(4, y));
    ReadsU32(data, at, x);
    ReadsU32(data, at + 4, y);
  }

  // ------------------------------------------------------------- headers

  lemma PieceU16(data: Bytes, h: nat, fs: seq<Bytes>, k: nat, at: nat, x: nat)
    requires k < |fs| && IsAt(data, h, Written(fs)) && fs[k] == Le(2, x) && at == h + Place(fs, k) && x < 0x1_0000
    ensures at + 2 <= |data| && U16(data, at) == x
  {
    PieceIn(data, h, fs, k);
    ReadsU16(data, at, x);
  }

  lemma PieceU32(data: Bytes, h: nat, fs: seq<Bytes>, k: nat, at: nat, x: nat)
    requires k < |fs| && IsAt(data, h, Written(fs)) && fs[k] == Le(4, x) && at == h + Place(fs, k) && x < U32_END
    ensures at + 4 <= |data| && U32(data, at) == x
  {
    PieceIn(data, h, fs, k);
    ReadsU32(data, at, x);
  }

  lemma PieceU64(data: Bytes, h: nat, fs: seq<Bytes>, k: nat, at: nat, x: nat)
    requires k < |fs| && IsAt(data, h, Written(fs)) && fs[k] == Le(8, x) && at == h + Place(fs, k) && x < WORD
    ensures at + 8 <= |data| && U64(data, at) == x
  {
    PieceIn(data, h, fs, k);
    ReadsU64(data, at, x);
  }

  /** The program header written at `h` is the one read there. */
  lemma ReadsEntry(data: Bytes, h: nat, p: Phdr)
    requires IsAt(data, h, Entry(p)) && Fits(p)
    ensures U32(data, h) == p.kind && U32(data, h + 4) == p.flags && U64(data, h + 8) == p.offset
    ensures U64(data, h + 16) == p.vaddr && U64(data, h + 32) == p.filesz && U64(data, h + 40) == p.memsz
  {
    var fs := EntryFields(p);
    EntryPlaces(p);
    PieceU32(data, h, fs, 0, h, p.kind);
    PieceU32(data, h, fs, 1, h + 4, p.flags);
    PieceU64(data, h, fs, 2, h + 8, p.offset);
    PieceU64(data, h, fs, 3, h + 16, p.vaddr);
    PieceU64(data, h, fs, 5, h + 32, p.filesz);
    PieceU64(data, h, fs, 6, h + 40, p.memsz);
  }

  lemma {:induction false} EntryOf(ps: seq<Phdr>, i: nat)
    requires i < |ps|
    ensures PHDR_SIZE * i + PHDR_SIZE <= |Table(ps)|
    ensures Table(ps)[PHDR_SIZE * i..PHDR_SIZE * i + PHDR_SIZE] == Entry(ps[i])
  {
    var n := |ps| - 1;
    if i < n {
      EntryOf(ps[..n], i);
      assert Table(ps)[..|Table(ps[..n])|] == Table(ps[..n]);
    }
  }

  /** A written file is accepted, and its table is found where it was put. */
  lemma WrittenAccepted(r: Rest, ps: seq<Phdr>, body: Bytes)
    requires |r.ident| == 10 && 0 < |ps| < 0x1_0000
    ensures var data := File(r, ps, body);
      Accepted(data) && TableAt(data) == 64 && EntrySize(data) == PHDR_SIZE && Count(data) == |ps|
  {
    var data, fs := File(r, ps, body), HeaderFields(r, |ps|);
    HeaderPlaces(r, |ps|);
    assert data[..4] == MAGIC && data[4] == 2 && data[5] == 1;
    assert data[16..64] == Written(fs);
    PieceU16(data, 16, fs, 1, 18, 0x3E);
    PieceU64(data, 16, fs, 4, 32, 64);
    PieceU16(data, 16, fs, 8, 54, PHDR_SIZE);
    PieceU16(data, 16, fs, 9, 56, |ps|);
  }

  lemma WrittenHeader(r: Rest, ps: seq<Phdr>, body: Bytes, load: nat, i: nat)
    requires |r.ident| == 10 && 0 < |ps| < 0x1_0000 && i < |ps| && Fits(ps[i])
    ensures var data, p := File(r, ps, body), ps[i];
      && |data| >= 64 && HeaderInFile(data, i)
      && ReadHeader(data, load, i) == Header(p.kind, Segment(p.vaddr + load, p.offset, p.filesz, p.memsz, p.flags))
  {
    var data := File(r, ps, body);
    WrittenAccepted(r, ps, body);
    EntryOf(ps, i);
    var h := 64 + PHDR_SIZE * i;
    assert HeaderAt(data, i) == h;
    assert data[h..h + PHDR_SIZE] == Table(ps)[PHDR_SIZE * i..PHDR_SIZE * i + PHDR_SIZE];
    ReadsEntry(data, h, ps[i]);
  }

  lemma {:induction false} WantedIsLoadable(ps: seq<Phdr>, load: nat, hs: seq<Header>)
    requires |hs| == |ps|
    requires forall i :: 0 <= i < |ps| ==>
      hs[i] == Header(ps[i].kind, Segment(ps[i].vaddr + load, ps[i].offset, ps[i].filesz, ps[i].memsz, ps[i].flags))
    ensures Loadable(hs) == Wanted(ps, load)
  {
    if ps != [] {
      var n := |ps| - 1;
      WantedIsLoadable(ps[..n], load, hs[..n]);
    }
  }

  /** Reading back: of every file written with these program headers the loader
      takes exactly the PT_LOAD segments, in order, each with its own virtual
      address, offset, sizes and flags. */
  lemma WrittenSegments(r: Rest, ps: seq<Phdr>, body: Bytes, load: nat)
    requires |r.ident| == 10 && 0 < |ps| < 0x1_0000 && forall i :: 0 <= i < |ps| ==> Fits(ps[i])
    ensures var data := File(r, ps, body);
      Accepted(data) && HeadersInFile(data) && Segments(data, load) == Wanted(ps, load)
  {
    var data := File(r, ps, body);
    WrittenAccepted(r, ps, body);
    HeadersFit(data);
    var hs := Headers(data, load);
    forall i | 0 <= i < |ps|
      ensures var p := ps[i]; hs[i] == Header(p.kind, Segment(p.vaddr + load, p.offset, p.filesz, p.memsz, p.flags))
    {
      WrittenHeader(r, ps, body, load, i);
    }
    WantedIsLoadable(ps, load, hs);
  }

  /** A loaded page is writable exactly with PF_W and executable exactly with
      PF_X of the last segment on it. */
  lemma PermissionsOf(space: Space, before: Space, segs: seq<Segment>, data: Bytes, v: nat)
    requires IsImage(space, before, segs, data) && LastOf(segs, v).Some?
    ensures var bits := segs[LastOf(segs, v).value].bits;
      v in space && (space[v].flags.writable <==> Bit(bits, 1)) && (space[v].flags.noExec <==> !Bit(bits, 0))
  {
    var bits := segs[LastOf(segs, v).value].bits;
    assert Bit(bits, 1) <==> Bit(bits / 2, 0);
  }
}
