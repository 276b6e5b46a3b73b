/**
 Address spaces that share page tables after a fork.

 Physical pages are numbered.  A page holds a table of 512 entries, the bytes
 of a user page, or junk left behind by the allocator's free path.  A space is
 named by the number of its root table (PML4).  Two count arrays sit beside
 memory: `tcount` (PTE_REFC, u16) for table pages and `lcount` (PAGE_REFC, u8)
 for user pages.
 */
module CowState {
  import opened Options

  const ENTRIES: nat := 512
  const USER_SLOTS: nat := 256     // root slots of the user half
  const LEAF: nat := 4             // depth of user pages below a root
  const MAX_TASKS: nat := 64
  const MAX_REFC_PAGES: nat := 0x20_0000
  const U8_MAX: nat := 255
  const U16_MAX: nat := 65535

  type Byte = b: int | 0 <= b < 256

  datatype Entry = Entry(page: nat, present: bool, writable: bool, user: bool, huge: bool, nx: bool)

  const ABSENT: Entry := Entry(0, false, false, false, false, false)

  datatype Frame = Table(es: seq<Entry>) | Bytes(bytes: seq<Byte>) | Junk

  datatype State = State(
    mem: seq<Frame>,       // contents of every managed physical page
    tcount: seq<nat>,
    lcount: seq<nat>,
    used: set<nat>,        // allocated pages
    typed: set<nat>,       // pages typed as page-table pages
    roots: set<nat>,       // roots of the live spaces
    kernel: seq<Entry>)    // the kernel's own root table

  /** An answer of the page allocator: nothing, a page from a free list, or a
      page out of the quarantine ring (whose count is raised twice). */
  datatype Grant = Refused | Fresh(page: nat) | Recycled(page: nat)

  // ---------------------------------------------------------------- paths

  /** The indices followed from a root, outermost first.  A path of depth 4
      names a virtual page. */
  datatype Path = Top | Sub(up: Path, idx: nat)

  function Depth(v: Path): nat {
    match v
    case Top => 0
    case Sub(up, _) => Depth(up) + 1
  }

  predicate Valid(v: Path) {
    v.Sub? ==> Depth(v) <= LEAF && v.idx < (if v.up.Top? then USER_SLOTS else ENTRIES) && Valid(v.up)
  }

  /** Does the walk continue through entry `e` of a table at depth `d`?  Huge
      leaves and non-user 4 KiB leaves belong to the kernel identity map. */
  predicate Follows(e: Entry, d: nat) {
    e.present && (0 < d < 3 ==> !e.huge) && (d == 3 ==> e.user)
  }

  function EntryAt(mem: seq<Frame>, p: nat, i: nat): Entry {
    if p < |mem| && mem[p].Table? && i < |mem[p].es| then mem[p].es[i] else ABSENT
  }

  function SetEntry(mem: seq<Frame>, p: nat, i: nat, e: Entry): seq<Frame> {
    if p < |mem| && mem[p].Table? && i < |mem[p].es| then mem[p := Table(mem[p].es[i := e])] else mem
  }

  function Child(mem: seq<Frame>, p: nat, d: nat, i: nat): Option<nat> {
    if Follows(EntryAt(mem, p, i), d) then Some(EntryAt(mem, p, i).page) else None
  }

  /** The page reached from root `r` along `v`. */
  function Node(mem: seq<Frame>, r: nat, v: Path): Option<nat> {
    match v
    case Top => Some(r)
    case Sub(up, i) =>
      match Node(mem, r, up)
      case None => None
      case Some(p) => Child(mem, p, Depth(up), i)
  }

  /** What space `r` reads at virtual page `v`. */
  function Read(s: State, r: nat, v: Path): Option<seq<Byte>> {
    match Node(s.mem, r, v)
    case None => None
    case Some(p) => if p < |s.mem| && s.mem[p].Bytes? then Some(s.mem[p].bytes) else None
  }

  // --------------------------------------------------------------- counts

  function Get(c: seq<nat>, p: nat): nat {
    if p < |c| then c[p] else 0
  }

  function Put(c: seq<nat>, p: nat, n: nat): (r: seq<nat>)
    ensures |r| == |c|
  {
    if p < |c| then c[p := n] else c
  }

  function Dec(n: nat): nat {
    if n > 0 then n - 1 else 0
  }

  function Min(a: nat, b: nat): nat {
    if a < b then a else b
  }

  /** The count of a page after a fork shares it once more: a private page was
      never counted, so its first share records both holders. */
  function Shared(n: nat, max: nat): nat {
    if n == 0 then 2 else Min(n + 1, max)
  }

  // ------------------------------------------------------------ allocator

  predicate Grantable(s: State, p: nat) {
    p < |s.mem| && p !in s.used
  }

  /** alloc_zeroed_page. */
  function Alloc(s: State, g: Grant): (State, Option<nat>) {
    if g.Refused? || !Grantable(s, g.page) then (s, None)
    else
      var n := Min(Get(s.tcount, g.page) + (if g.Recycled? then 2 else 1), U16_MAX);
      (s.(mem := s.mem[g.page := Table(seq(ENTRIES, _ => ABSENT))],
          tcount := Put(s.tcount, g.page, n),
          used := s.used + {g.page},
          typed := s.typed + {g.page}),
       Some(g.page))
  }

  /** free(p, 0): the page leaves the live set and its first bytes may be
      overwritten by a free-list header. */
  function Free(s: State, p: nat): State {
    if p !in s.used || p >= |s.mem| then s
    else
      s.(mem := s.mem[p := Junk],
         tcount := if p in s.typed then Put(s.tcount, p, Dec(Get(s.tcount, p))) else s.tcount,
         used := s.used - {p},
         typed := s.typed - {p})
  }

  // ---------------------------------------------------- write-fault steps

  datatype Walk = Stop(s: State) | At(s: State, page: nat)

  /** Make the table behind entry `i` of table `q` private to this space: a
      table with a count above one is copied and the entry redirected. */
  function Unshare(s: State, q: nat, i: nat, g: Grant): Walk {
    var e := EntryAt(s.mem, q, i);
    if Get(s.tcount, e.page) <= 1 then At(s, e.page)
    else
      var (s1, n) := Alloc(s, g);
      if n.None? || e.page >= |s1.mem| then Stop(s1)
      else
        var m := s1.mem[n.value := s1.mem[e.page]];
        At(s1.(mem := SetEntry(m, q, i, e.(page := n.value)),
               tcount := Put(s1.tcount, e.page, Dec(Get(s1.tcount, e.page)))),
           n.value)
  }

  /** cow_walk_pte: walk to the table at `v`, un-sharing every table on the
      way.  `g(d)` answers the allocation made below depth `d`. */
  function WalkTo(s: State, r: nat, v: Path, g: nat -> Grant): Walk {
    match v
    case Top => At(s, r)
    case Sub(up, i) =>
      match WalkTo(s, r, up, g)
      case Stop(s1) => Stop(s1)
      case At(s1, q) =>
        if Follows(EntryAt(s1.mem, q, i), Depth(up)) then Unshare(s1, q, i, g(Depth(up))) else Stop(s1)
  }

  /** What cow_remap_in does once the leaf table `pt` is private. */
  function RemapLeaf(s: State, pt: nat, i: nat, g: Grant): (State, bool) {
    var e := EntryAt(s.mem, pt, i);
    if !e.present || e.writable then (s, false)
    else if Get(s.lcount, e.page) == 0 then
      (s.(mem := SetEntry(s.mem, pt, i, e.(writable := true))), true)
    else
      var s0 := s.(lcount := Put(s.lcount, e.page, Dec(Get(s.lcount, e.page))));
      var (s1, n) := Alloc(s0, g);
      if n.None? || e.page >= |s1.mem| then (s1, false)
      else
        var m := s1.mem[n.value := s1.mem[e.page]];
        (s1.(mem := SetEntry(m, pt, i, e.(page := n.value, writable := true))), true)
  }

  /** cow_remap_in: resolve a write fault of space `r` at virtual page `v`. */
  function Remap(s: State, r: nat, v: Path, g: nat -> Grant): (State, bool)
    requires v.Sub?
  {
    match WalkTo(s, r, v.up, g)
    case Stop(s1) => (s1, false)
    case At(s1, pt) => RemapLeaf(s1, pt, v.idx, g(3))
  }

  // ------------------------------------------------------------ user store

  predicate CanStore(s: State, r: nat, v: Path, off: nat) {
    && Valid(v) && Depth(v) == LEAF
    && Node(s.mem, r, v).Some?
    && Node(s.mem, r, v.up).Some?
    && EntryAt(s.mem, Node(s.mem, r, v.up).value, v.idx).writable
    && var p := Node(s.mem, r, v).value;
       p < |s.mem| && s.mem[p].Bytes? && off < |s.mem[p].bytes|
  }

  function Poke(bs: seq<Byte>, off: nat, b: Byte): seq<Byte>
    requires off < |bs|
  {
    bs[off := b]
  }

  /** A store of one byte through a writable leaf. */
  function Store(s: State, r: nat, v: Path, off: nat, b: Byte): State
    requires CanStore(s, r, v, off)
  {
    var p := Node(s.mem, r, v).value;
    s.(mem := s.mem[p := Bytes(Poke(s.mem[p].bytes, off, b))])
  }
}
