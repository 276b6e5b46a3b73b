/**
 The four-level page-table walker: mapping, unmapping and resolving one 4 KiB
 page of an address space, with 2 MiB leaves split on the way (Intel SDM
 Vol. 3A section 4.5).  Leaves are 4 KiB or 2 MiB.
 */
module PageWalk {
  import opened Options
  import opened CowState
  import opened Bits

  // ------------------------------------------------------------ the tables

  predicate VPath(v: Path) {
    v.Sub? ==> Depth(v) <= LEAF && v.idx < ENTRIES && VPath(v.up)
  }

  /** Does entry `e` of a table at depth `d` point to a further table? */
  predicate ToTable(e: Entry, d: nat) {
    e.present && (d == 0 || !e.huge)
  }

  /** The table at path `v` (depth at most 3) below root `r`. */
  function TableAt(mem: seq<Frame>, r: nat, v: Path): Option<nat> {
    match v
    case Top => Some(r)
    case Sub(up, i) =>
      match TableAt(mem, r, up)
      case None => None
      case Some(p) => if ToTable(EntryAt(mem, p, i), Depth(up)) then Some(EntryAt(mem, p, i).page) else None
  }

  /** `frame | i` for a 9-bit index: how a 2 MiB leaf and an index inside it are
      combined. */
  function OrLow(frame: nat, i: nat): nat {
    frame / 512 * 512 + Or(frame % 512, i)
  }

  /** The leaf entry that maps virtual page `v`, and whether it is a 2 MiB one. */
  datatype Leaf = NoLeaf | Small(e: Entry) | Large(e: Entry)

  function LeafOf(mem: seq<Frame>, r: nat, v: Path): Leaf
    requires Depth(v) == LEAF
  {
    assert Depth(v.up) == 3;
    match TableAt(mem, r, v.up.up)
    case None => NoLeaf
    case Some(pd) =>
      var pde := EntryAt(mem, pd, v.up.idx);
      if !pde.present then NoLeaf
      else if pde.huge then Large(pde)
      else
        var pte := EntryAt(mem, pde.page, v.idx);
        if pte.present then Small(pte) else NoLeaf
  }

  /** resolve_phys, as a page number. */
  function Resolve(mem: seq<Frame>, r: nat, v: Path): Option<nat>
    requires Depth(v) == LEAF
  {
    match LeafOf(mem, r, v)
    case NoLeaf => None
    case Small(e) => Some(e.page)
    case Large(e) => Some(OrLow(e.page, v.idx))
  }

  /** The flat map an address space stands for: virtual page to physical page. */
  ghost function Flat(mem: seq<Frame>, r: nat): imap<Path, nat> {
    imap v | VPath(v) && Depth(v) == LEAF && Resolve(mem, r, v).Some? :: Resolve(mem, r, v).value
  }

  // --------------------------------------------------------------- splits

  /** Entry `i` of the table that replaces the 2 MiB leaf `e`. */
  function SubLeaf(e: Entry, i: nat): Entry {
    Entry(e.page / 512 * 512 + i, e.present, e.writable, false, false, false)
  }

  function SplitTable(e: Entry): seq<Entry> {
    seq(ENTRIES, i requires 0 <= i < ENTRIES => SubLeaf(e, i))
  }

  /** Splitting a 2 MiB leaf keeps what every one of its pages resolves to
      exactly when its frame is 2 MiB aligned. */
  lemma SplitExact(e: Entry)
    requires e.present
    ensures (forall i :: 0 <= i < ENTRIES ==> SplitTable(e)[i].page == OrLow(e.page, i)) <==> e.page % 512 == 0
  {
    if e.page % 512 == 0 {
      assert e.page / 512 * 512 == e.page;
    } else {
      assert SplitTable(e)[0].page != OrLow(e.page, 0);
    }
  }

  // ------------------------------------------------------------ tree shape

  /** What a table of the space looks like at its depth: no 1 GiB leaves, and
      2 MiB leaves aligned. */
  predicate TableShape(f: Frame, d: nat) {
    && f.Table? && |f.es| == ENTRIES
    && (d == 1 ==> forall i :: 0 <= i < ENTRIES ==> !f.es[i].huge)
    && (d == 2 ==> forall i :: 0 <= i < ENTRIES && f.es[i].huge ==> f.es[i].page % 512 == 0)
  }

  /** The tables below `r` are allocated, well formed, and each at one path. */
  ghost predicate Tree(mem: seq<Frame>, used: set<nat>, r: nat, place: map<nat, Path>) {
    forall v :: VPath(v) && Depth(v) <= 3 && TableAt(mem, r, v).Some? ==>
      TableOk(mem, used, place, v, TableAt(mem, r, v).value)
  }

  ghost predicate TableOk(mem: seq<Frame>, used: set<nat>, place: map<nat, Path>, v: Path, p: nat) {
    p < |mem| && p in used && TableShape(mem[p], Depth(v)) && p in place && place[p] == v
  }

  function Zeroed(): Frame {
    Table(seq(ENTRIES, _ => ABSENT))
  }

  /** The entry that map_into installs for a table page. */
  function TableEntry(n: nat): Entry {
    Entry(n, true, true, true, false, false)
  }

  /** What fills a new table that takes the place of entry `e` at depth `d`. */
  function NewTable(e: Entry, d: nat): Frame {
    if d == 2 && e.huge then Table(SplitTable(e)) else Zeroed()
  }

  /** `mem` with a new table `n` behind entry `i` of table `q` at depth `d`. */
  function Install(mem: seq<Frame>, q: nat, i: nat, d: nat, n: nat): seq<Frame>
    requires n < |mem|
  {
    SetEntry(mem[n := NewTable(EntryAt(mem, q, i), d)], q, i, TableEntry(n))
  }

  ghost predicate Installable(mem: seq<Frame>, used: set<nat>, r: nat, place: map<nat, Path>, v: Path, q: nat, n: nat) {
    && Tree(mem, used, r, place) && VPath(v) && v.Sub? && Depth(v) <= 3
    && TableAt(mem, r, v.up) == Some(q) && TableAt(mem, r, v).None?
    && n < |mem| && n !in used
  }

  lemma {:induction false} InstallTables(mem: seq<Frame>, used: set<nat>, r: nat, place: map<nat, Path>, v: Path,
                                         q: nat, n: nat, w: Path)
    requires Installable(mem, used, r, place, v, q, n) && VPath(w) && Depth(w) <= 3
    ensures TableAt(Install(mem, q, v.idx, Depth(v.up), n), r, w) == if w == v then Some(n) else TableAt(mem, r, w)
    decreases w
  {
    if w.Sub? {
      InstallTables(mem, used, r, place, v, q, n, w.up);
    }
  }

  lemma InstallLeaf(mem: seq<Frame>, used: set<nat>, r: nat, place: map<nat, Path>, v: Path, q: nat, n: nat, w: Path)
    requires Installable(mem, used, r, place, v, q, n) && VPath(w) && Depth(w) == LEAF
    ensures Resolve(Install(mem, q, v.idx, Depth(v.up), n), r, w) == Resolve(mem, r, w)
    ensures LeafOf(mem, r, w).Large? && w.up == v ==>
      LeafOf(Install(mem, q, v.idx, Depth(v.up), n), r, w) == Small(SubLeaf(LeafOf(mem, r, w).e, w.idx))
    ensures w.up != v ==> LeafOf(Install(mem, q, v.idx, Depth(v.up), n), r, w) == LeafOf(mem, r, w)
  {
    var mem2 := Install(mem, q, v.idx, Depth(v.up), n);
    assert Depth(w.up) == 3 && Depth(w.up.up) == 2;
    InstallTables(mem, used, r, place, v, q, n, w.up.up);
    InstallTables(mem, used, r, place, v, q, n, w.up);
    var e := EntryAt(mem, q, v.idx);
    if w.up == v {
      assert EntryAt(mem2, q, v.idx) == TableEntry(n);
      assert EntryAt(mem2, n, w.idx) == if e.huge then SubLeaf(e, w.idx) else ABSENT;
      if e.huge { SplitExact(e.(present := true)); }
    } else if w.up.up == v {
      assert EntryAt(mem2, n, w.up.idx) == ABSENT;
    } else if TableAt(mem, r, w.up.up).Some? {
      var pd := TableAt(mem, r, w.up.up).value;
      assert EntryAt(mem2, pd, w.up.idx) == EntryAt(mem, pd, w.up.idx);
      if TableAt(mem, r, w.up).Some? {
        assert EntryAt(mem2, TableAt(mem, r, w.up).value, w.idx) == EntryAt(mem, TableAt(mem, r, w.up).value, w.idx);
      }
    }
  }

  lemma InstallTree(mem: seq<Frame>, used: set<nat>, r: nat, place: map<nat, Path>, v: Path, q: nat, n: nat)
    requires Installable(mem, used, r, place, v, q, n)
    ensures Tree(Install(mem, q, v.idx, Depth(v.up), n), used + {n}, r, place[n := v])
  {
    var mem2 := Install(mem, q, v.idx, Depth(v.up), n);
    forall w | VPath(w) && Depth(w) <= 3 && TableAt(mem2, r, w).Some?
      ensures TableOk(mem2, used + {n}, place[n := v], w, TableAt(mem2, r, w).value)
    {
      InstallTables(mem, used, r, place, v, q, n, w);
    }
  }

  // -------------------------------------------------- single-entry writes

  /** Setting the user bit of an entry that points to a table. */
  function WithUser(mem: seq<Frame>, q: nat, i: nat): seq<Frame> {
    SetEntry(mem, q, i, EntryAt(mem, q, i).(user := true))
  }

  lemma UserBitTables(mem: seq<Frame>, r: nat, q: nat, i: nat, w: Path)
    ensures TableAt(WithUser(mem, q, i), r, w) == TableAt(mem, r, w)
  {}

  lemma UserBitLeaf(mem: seq<Frame>, used: set<nat>, r: nat, place: map<nat, Path>, v: Path, q: nat, w: Path)
    requires Tree(mem, used, r, place) && VPath(v) && Depth(v) == 3
    requires TableAt(mem, r, v.up) == Some(q) && TableAt(mem, r, v).Some?
    requires VPath(w) && Depth(w) == LEAF
    ensures LeafOf(WithUser(mem, q, v.idx), r, w) == LeafOf(mem, r, w)
  {
    assert Depth(w.up) == 3 && VPath(w.up);
    assert Depth(w.up.up) == 2 && VPath(w.up.up);
    UserBitTables(mem, r, q, v.idx, w.up.up);
    if TableAt(mem, r, w.up).Some? {
      assert TableAt(mem, r, w.up).value != q;
    }
  }

  lemma UserBitKeeps(mem: seq<Frame>, used: set<nat>, r: nat, place: map<nat, Path>, v: Path, q: nat)
    requires Tree(mem, used, r, place) && VPath(v) && Depth(v) == 3
    requires TableAt(mem, r, v.up) == Some(q) && TableAt(mem, r, v).Some?
    ensures Tree(WithUser(mem, q, v.idx), used, r, place)
    ensures forall w :: VPath(w) && Depth(w) == LEAF ==> LeafOf(WithUser(mem, q, v.idx), r, w) == LeafOf(mem, r, w)
  {
    var mem2 := WithUser(mem, q, v.idx);
    forall w | VPath(w) && Depth(w) <= 3 && TableAt(mem2, r, w).Some?
      ensures TableOk(mem2, used, place, w, TableAt(mem2, r, w).value)
    {
      UserBitTables(mem, r, q, v.idx, w);
    }
    forall w | VPath(w) && Depth(w) == LEAF ensures LeafOf(mem2, r, w) == LeafOf(mem, r, w) {
      UserBitLeaf(mem, used, r, place, v, q, w);
    }
  }

  lemma LeafWriteTables(mem: seq<Frame>, used: set<nat>, r: nat, place: map<nat, Path>, v: Path, pt: nat, e: Entry,
                        w: Path)
    requires Tree(mem, used, r, place) && VPath(v) && Depth(v) == LEAF && TableAt(mem, r, v.up) == Some(pt)
    requires VPath(w) && Depth(w) <= 3
    ensures TableAt(SetEntry(mem, pt, v.idx, e), r, w) == TableAt(mem, r, w)
    decreases w
  {}

  lemma LeafWriteLeaf(mem: seq<Frame>, used: set<nat>, r: nat, place: map<nat, Path>, v: Path, pt: nat, e: Entry,
                      w: Path)
    requires Tree(mem, used, r, place) && VPath(v) && Depth(v) == LEAF && TableAt(mem, r, v.up) == Some(pt)
    requires VPath(w) && Depth(w) == LEAF
    ensures LeafOf(SetEntry(mem, pt, v.idx, e), r, w) == if w == v then (if e.present then Small(e) else NoLeaf)
      else LeafOf(mem, r, w)
  {
    var mem2 := SetEntry(mem, pt, v.idx, e);
    assert Depth(w.up) == 3 && VPath(w.up);
    assert Depth(w.up.up) == 2 && VPath(w.up.up);
    assert Depth(v.up) == 3 && VPath(v.up);
    LeafWriteTables(mem, used, r, place, v, pt, e, w.up.up);
    LeafWriteTables(mem, used, r, place, v, pt, e, w.up);
    if TableAt(mem, r, w.up.up).Some? {
      var pd := TableAt(mem, r, w.up.up).value;
      assert pd != pt;
      assert EntryAt(mem2, pd, w.up.idx) == EntryAt(mem, pd, w.up.idx);
    }
  }

  /** Writing a 4 KiB leaf entry changes that page's leaf and no other. */
  lemma LeafWriteKeeps(mem: seq<Frame>, used: set<nat>, r: nat, place: map<nat, Path>, v: Path, pt: nat, e: Entry)
    requires Tree(mem, used, r, place) && VPath(v) && Depth(v) == LEAF && TableAt(mem, r, v.up) == Some(pt)
    ensures Tree(SetEntry(mem, pt, v.idx, e), used, r, place)
    ensures forall w :: VPath(w) && Depth(w) == LEAF ==>
      LeafOf(SetEntry(mem, pt, v.idx, e), r, w) == if w == v then (if e.present then Small(e) else NoLeaf)
        else LeafOf(mem, r, w)
  {
    var mem2 := SetEntry(mem, pt, v.idx, e);
    assert Depth(v.up) == 3 && VPath(v.up);
    forall w | VPath(w) && Depth(w) <= 3 && TableAt(mem2, r, w).Some?
      ensures TableOk(mem2, used, place, w, TableAt(mem2, r, w).value)
    {
      LeafWriteTables(mem, used, r, place, v, pt, e, w);
    }
    forall w | VPath(w) && Depth(w) == LEAF
      ensures LeafOf(mem2, r, w) == if w == v then (if e.present then Small(e) else NoLeaf) else LeafOf(mem, r, w)
    {
      LeafWriteLeaf(mem, used, r, place, v, pt, e, w);
    }
  }

  // ------------------------------------------------------------ operations

  datatype PteFlags = PteFlags(writable: bool, user: bool, nx: bool)

  /** The same virtual pages resolve to the same physical pages. */
  ghost predicate SameResolve(mem: seq<Frame>, mem2: seq<Frame>, r: nat) {
    forall w :: VPath(w) && Depth(w) == LEAF ==> Resolve(mem2, r, w) == Resolve(mem, r, w)
  }

  /** Leaves are as before, except that a 2 MiB leaf at `v` may have been split;
      its pages then keep their writable bit and are kernel-only. */
  ghost predicate SplitOnly(mem: seq<Frame>, mem2: seq<Frame>, r: nat, v: Path) {
    forall w :: VPath(w) && Depth(w) == LEAF ==>
      || LeafOf(mem2, r, w) == LeafOf(mem, r, w)
      || (LeafOf(mem, r, w).Large? && w.up == v && LeafOf(mem2, r, w) == Small(SubLeaf(LeafOf(mem, r, w).e, w.idx)))
  }

  ghost predicate LeavesKept(mem: seq<Frame>, mem2: seq<Frame>, r: nat, v: Path)
    requires v.Sub?
  {
    forall w :: VPath(w) && Depth(w) == LEAF && w != v ==>
      || LeafOf(mem2, r, w) == LeafOf(mem, r, w)
      || (LeafOf(mem, r, w).Large? && w.up == v.up && LeafOf(mem2, r, w) == Small(SubLeaf(LeafOf(mem, r, w).e, w.idx)))
  }

  // ------------------------------------------------- when a page is mapped

  predicate Grants(mem: seq<Frame>, used: set<nat>, g: Grant) {
    !g.Refused? && g.page < |mem| && g.page !in used
  }

  /** The pages granted for the tables missing on path `v`, a table being missing
      also where a 2 MiB leaf has to be split. */
  function Made(mem: seq<Frame>, r: nat, v: Path, g: nat -> Grant): set<nat> {
    match v
    case Top => {}
    case Sub(up, _) =>
      Made(mem, r, up, g) + if TableAt(mem, r, v).None? && !g(Depth(up)).Refused? then {g(Depth(up)).page} else {}
  }

  /** Each table missing on path `v` is granted a page that nothing uses, and no
      page is granted twice. */
  predicate TablesGranted(mem: seq<Frame>, used: set<nat>, r: nat, v: Path, g: nat -> Grant) {
    match v
    case Top => true
    case Sub(up, _) =>
      && TablesGranted(mem, used, r, up, g)
      && (TableAt(mem, r, v).None? ==>
            Grants(mem, used, g(Depth(up))) && g(Depth(up)).page !in Made(mem, r, up, g))
  }

  /** With all its tables there, a page needs no grant. */
  lemma {:induction false} NothingMissing(mem: seq<Frame>, used: set<nat>, r: nat, v: Path, g: nat -> Grant)
    requires TableAt(mem, r, v).Some?
    ensures TablesGranted(mem, used, r, v, g) && Made(mem, r, v, g) == {}
  {
    if v.Sub? { NothingMissing(mem, used, r, v.up, g); }
  }

  /** The entry that leads to table `w`. */
  function SlotTo(mem: seq<Frame>, r: nat, w: Path): Entry
    requires w.Sub?
  {
    match TableAt(mem, r, w.up)
    case None => ABSENT
    case Some(p) => EntryAt(mem, p, w.idx)
  }

  /** The entry to table `w` once the table is on the path of a mapped page: one
      that was made is present, writable and open to user mode; one that was
      there is as it was, but that above the leaf's table is opened. */
  predicate SlotMade(mem: seq<Frame>, mem2: seq<Frame>, r: nat, w: Path)
    requires w.Sub?
  {
    var e := SlotTo(mem2, r, w);
    && TableAt(mem2, r, w).Some?
    && if TableAt(mem, r, w).None? then e.present && e.writable && e.user && !e.huge && !e.nx
       else e == SlotTo(mem, r, w).(user := e.user) && e.user == (SlotTo(mem, r, w).user || Depth(w) == 3)
  }

  /** Every entry to a table but that to `v` is as it was. */
  ghost predicate SlotsKept(mem: seq<Frame>, mem2: seq<Frame>, r: nat, v: Path) {
    forall w :: VPath(w) && w.Sub? && Depth(w) <= 3 && w != v ==>
      && TableAt(mem2, r, w) == TableAt(mem, r, w)
      && (TableAt(mem, r, w.up).Some? ==> SlotTo(mem2, r, w) == SlotTo(mem, r, w))
  }

  predicate OnPath(w: Path, v: Path) {
    w == v || (v.Sub? && OnPath(w, v.up))
  }

  predicate SlotSame(mem: seq<Frame>, mem2: seq<Frame>, r: nat, w: Path)
    requires w.Sub?
  {
    && TableAt(mem2, r, w) == TableAt(mem, r, w)
    && (TableAt(mem, r, w.up).Some? ==> SlotTo(mem2, r, w) == SlotTo(mem, r, w))
  }

  /** The tables on path `v` are all there, and no other entry to a table has changed. */
  ghost predicate PathMade(mem: seq<Frame>, mem2: seq<Frame>, r: nat, v: Path) {
    forall w :: VPath(w) && w.Sub? && Depth(w) <= 3 ==>
      if OnPath(w, v) then SlotMade(mem, mem2, r, w) else SlotSame(mem, mem2, r, w)
  }

  lemma {:induction false} OnPathDepth(w: Path, v: Path)
    requires OnPath(w, v)
    ensures Depth(w) <= Depth(v)
  {
    if w != v { OnPathDepth(w, v.up); }
  }

  lemma PathGrows(m0: seq<Frame>, m1: seq<Frame>, m2: seq<Frame>, r: nat, v: Path)
    requires VPath(v) && v.Sub? && Depth(v) <= 3 && PathMade(m0, m1, r, v.up)
    requires SlotsKept(m1, m2, r, v) && SlotMade(m1, m2, r, v)
    ensures PathMade(m0, m2, r, v)
  {
    if OnPath(v, v.up) { OnPathDepth(v, v.up); }
    assert SlotSame(m0, m1, r, v);
    forall w | VPath(w) && w.Sub? && Depth(w) <= 3
      ensures if OnPath(w, v) then SlotMade(m0, m2, r, w) else SlotSame(m0, m2, r, w)
    {
      if w != v {
        assert if OnPath(w, v.up) then SlotMade(m0, m1, r, w) else SlotSame(m0, m1, r, w);
        if w.up.Sub? {
          assert VPath(w.up);
          assert if OnPath(w.up, v.up) then SlotMade(m0, m1, r, w.up) else SlotSame(m0, m1, r, w.up);
        }
      }
    }
  }

  /** The tables down to `v` have been made with the pages granted for them. */
  ghost predicate Reached(m0: seq<Frame>, u0: set<nat>, m1: seq<Frame>, u1: set<nat>, r: nat, v: Path, g: nat -> Grant)
  {
    && TablesGranted(m0, u0, r, v, g) && PathMade(m0, m1, r, v)
    && u1 == u0 + Made(m0, r, v, g) && |m1| == |m0|
  }

  lemma PathEnd(m0: seq<Frame>, m1: seq<Frame>, r: nat, v: Path)
    requires VPath(v) && v.Sub? && Depth(v) <= 3 && PathMade(m0, m1, r, v.up)
    ensures TableAt(m1, r, v) == TableAt(m0, r, v)
  {
    if OnPath(v, v.up) { OnPathDepth(v, v.up); }
    assert SlotSame(m0, m1, r, v);
  }

  lemma LevelReached(m0: seq<Frame>, u0: set<nat>, m1: seq<Frame>, u1: set<nat>, m2: seq<Frame>, u2: set<nat>, r: nat,
                     v: Path, g: nat -> Grant)
    requires VPath(v) && v.Sub? && Depth(v) <= 3 && Reached(m0, u0, m1, u1, r, v.up, g)
    requires TableAt(m1, r, v).Some? || Grants(m1, u1, g(Depth(v.up)))
    requires SlotsKept(m1, m2, r, v) && SlotMade(m1, m2, r, v) && |m2| == |m1|
    requires u2 == u1 + (if TableAt(m1, r, v).None? then {g(Depth(v.up)).page} else {})
    ensures Reached(m0, u0, m2, u2, r, v, g)
  {
    PathEnd(m0, m1, r, v);
    PathGrows(m0, m1, m2, r, v);
  }

  lemma LevelRefused(m0: seq<Frame>, u0: set<nat>, m1: seq<Frame>, u1: set<nat>, r: nat, v: Path, g: nat -> Grant)
    requires VPath(v) && v.Sub? && Depth(v) <= 3 && Reached(m0, u0, m1, u1, r, v.up, g)
    requires TableAt(m1, r, v).None? && !Grants(m1, u1, g(Depth(v.up)))
    ensures !TablesGranted(m0, u0, r, v, g)
  {
    PathEnd(m0, m1, r, v);
  }

  lemma {:induction false} GrantedAbove(mem: seq<Frame>, used: set<nat>, r: nat, w: Path, v: Path, g: nat -> Grant)
    requires OnPath(w, v)
    ensures TablesGranted(mem, used, r, v, g) ==> TablesGranted(mem, used, r, w, g)
    ensures Made(mem, r, w, g) <= Made(mem, r, v, g)
  {
    if w != v { GrantedAbove(mem, used, r, w, v.up, g); }
  }

  lemma LeafWriteSlots(mem: seq<Frame>, used: set<nat>, r: nat, place: map<nat, Path>, v: Path, pt: nat, e: Entry,
                       w: Path)
    requires Tree(mem, used, r, place) && VPath(v) && Depth(v) == LEAF && TableAt(mem, r, v.up) == Some(pt)
    requires VPath(w) && w.Sub? && Depth(w) <= 3
    ensures TableAt(SetEntry(mem, pt, v.idx, e), r, w) == TableAt(mem, r, w)
    ensures SlotTo(SetEntry(mem, pt, v.idx, e), r, w) == SlotTo(mem, r, w)
  {
    assert Depth(v.up) == 3 && VPath(v.up);
    LeafWriteTables(mem, used, r, place, v, pt, e, w);
    LeafWriteTables(mem, used, r, place, v, pt, e, w.up);
    if TableAt(mem, r, w.up).Some? {
      assert TableOk(mem, used, place, w.up, TableAt(mem, r, w.up).value);
      assert TableOk(mem, used, place, v.up, pt);
    }
  }

  lemma LeafWritePath(m0: seq<Frame>, mem: seq<Frame>, used: set<nat>, r: nat, place: map<nat, Path>, v: Path, pt: nat,
                      e: Entry)
    requires Tree(mem, used, r, place) && VPath(v) && Depth(v) == LEAF && TableAt(mem, r, v.up) == Some(pt)
    requires PathMade(m0, mem, r, v.up)
    ensures PathMade(m0, SetEntry(mem, pt, v.idx, e), r, v.up)
  {
    var mem2 := SetEntry(mem, pt, v.idx, e);
    forall w | VPath(w) && w.Sub? && Depth(w) <= 3
      ensures if OnPath(w, v.up) then SlotMade(m0, mem2, r, w) else SlotSame(m0, mem2, r, w)
    {
      assert if OnPath(w, v.up) then SlotMade(m0, mem, r, w) else SlotSame(m0, mem, r, w);
      LeafWriteSlots(mem, used, r, place, v, pt, e, w);
    }
  }

  lemma InstallSlots(mem: seq<Frame>, used: set<nat>, r: nat, place: map<nat, Path>, v: Path, q: nat, n: nat)
    requires Installable(mem, used, r, place, v, q, n)
    ensures var mem2 := Install(mem, q, v.idx, Depth(v.up), n);
      SlotsKept(mem, mem2, r, v) && SlotMade(mem, mem2, r, v)
  {
    var mem2 := Install(mem, q, v.idx, Depth(v.up), n);
    forall w | VPath(w) && w.Sub? && Depth(w) <= 3
      ensures w != v ==> TableAt(mem2, r, w) == TableAt(mem, r, w)
      ensures w != v && TableAt(mem, r, w.up).Some? ==> SlotTo(mem2, r, w) == SlotTo(mem, r, w)
    {
      InstallTables(mem, used, r, place, v, q, n, w);
      InstallTables(mem, used, r, place, v, q, n, w.up);
      if TableAt(mem, r, w.up).Some? {
        assert TableOk(mem, used, place, w.up, TableAt(mem, r, w.up).value);
        assert TableOk(mem, used, place, v.up, q);
      }
    }
    InstallTables(mem, used, r, place, v, q, n, v);
    InstallTables(mem, used, r, place, v, q, n, v.up);
    assert TableOk(mem, used, place, v.up, q);
  }

  lemma UserBitSlots(mem: seq<Frame>, used: set<nat>, r: nat, place: map<nat, Path>, v: Path, q: nat)
    requires Tree(mem, used, r, place) && VPath(v) && Depth(v) == 3
    requires TableAt(mem, r, v.up) == Some(q) && TableAt(mem, r, v).Some?
    ensures var mem2 := WithUser(mem, q, v.idx); SlotsKept(mem, mem2, r, v) && SlotMade(mem, mem2, r, v)
  {
    var mem2 := WithUser(mem, q, v.idx);
    forall w | VPath(w) && w.Sub? && Depth(w) <= 3
      ensures TableAt(mem2, r, w) == TableAt(mem, r, w)
      ensures w != v && TableAt(mem, r, w.up).Some? ==> SlotTo(mem2, r, w) == SlotTo(mem, r, w)
    {
      UserBitTables(mem, r, q, v.idx, w);
      UserBitTables(mem, r, q, v.idx, w.up);
      if TableAt(mem, r, w.up).Some? {
        assert TableOk(mem, used, place, w.up, TableAt(mem, r, w.up).value);
        assert TableOk(mem, used, place, v.up, q);
      }
    }
    UserBitTables(mem, r, q, v.idx, v.up);
    assert TableOk(mem, used, place, v.up, q);
  }

  class PageTables {
    var mem: seq<Frame>
    var used: set<nat>

    /** resolve_phys. */
    method ResolvePhys(r: nat, v: Path, ghost place: map<nat, Path>) returns (p: Option<nat>)
      requires Tree(mem, used, r, place) && VPath(v) && Depth(v) == LEAF
      ensures p == Resolve(mem, r, v)
    {
      var v3 := v.up;
      assert Depth(v3) == 3 && VPath(v3);
      var v2 := v3.up;
      assert Depth(v2) == 2 && VPath(v2);
      var v1 := v2.up;
      assert Depth(v1) == 1 && VPath(v1);
      assert Depth(v1.up) == 0;
      var pml4e := EntryAt(mem, r, v1.idx);
      assert TableAt(mem, r, v1) == if pml4e.present then Some(pml4e.page) else None;
      if !pml4e.present { return None; }
      var pdpte := EntryAt(mem, pml4e.page, v2.idx);
      if !pdpte.present { return None; }
      var pde := EntryAt(mem, pdpte.page, v3.idx);
      if !pde.present { return None; }
      if pde.huge { return Some(OrLow(pde.page, v.idx)); }
      var pte := EntryAt(mem, pde.page, v.idx);
      if !pte.present { return None; }
      p := Some(pte.page);
    }

    method AllocPage(g: Grant) returns (n: Option<nat>)
      modifies this
      ensures n.Some? <==> !g.Refused? && g.page < |old(mem)| && g.page !in old(used)
      ensures n.None? ==> mem == old(mem) && used == old(used)
      ensures n.Some? ==>
        n.value == g.page && used == old(used) + {n.value} && mem == old(mem)[n.value := Zeroed()]
    {
      if g.Refused? || g.page >= |mem| || g.page in used {
        return None;
      }
      mem := mem[g.page := Zeroed()];
      used := used + {g.page};
      n := Some(g.page);
    }

    /** Fill table `n` with the 4 KiB entries of the 2 MiB leaf `e`. */
    method FillSplit(n: nat, e: Entry)
      requires n < |mem| && mem[n] == Zeroed()
      modifies this`mem
      ensures mem == old(mem)[n := Table(SplitTable(e))]
    {
      var i := 0;
      while i < ENTRIES
        invariant 0 <= i <= ENTRIES
        invariant |mem| == |old(mem)| && mem[n].Table? && |mem[n].es| == ENTRIES && mem == old(mem)[n := mem[n]]
        invariant forall j :: 0 <= j < i ==> mem[n].es[j] == SubLeaf(e, j)
      {
        mem := mem[n := Table(mem[n].es[i := SubLeaf(e, i)])];
        i := i + 1;
      }
      assert mem[n].es == SplitTable(e);
    }

    /** One level of map_into: the table behind entry `v.idx` of table `q`,
        made if it is missing. */
    method EnsureTable(r: nat, q: nat, v: Path, g: Grant, ghost place: map<nat, Path>)
      returns (p: Option<nat>, ghost place2: map<nat, Path>)
      requires Tree(mem, used, r, place) && VPath(v) && v.Sub? && Depth(v) <= 3 && TableAt(mem, r, v.up) == Some(q)
      modifies this
      ensures Tree(mem, used, r, place2) && SameResolve(old(mem), mem, r)
      ensures p.Some? ==> TableAt(mem, r, v) == p
      ensures p.None? ==> mem == old(mem) && used == old(used)
      ensures p.Some? <==> TableAt(old(mem), r, v).Some? || Grants(old(mem), old(used), g)
      ensures p.Some? ==>
        && |mem| == |old(mem)| && used == old(used) + (if TableAt(old(mem), r, v).None? then {g.page} else {})
        && SlotsKept(old(mem), mem, r, v) && SlotMade(old(mem), mem, r, v)
      ensures SplitOnly(old(mem), mem, r, v)
    {
      place2 := place;
      var d := Depth(v) - 1;
      var e := EntryAt(mem, q, v.idx);
      if e.present && (d == 0 || !e.huge) {
        assert TableAt(mem, r, v) == Some(e.page);
        if d == 2 {
          UserBitKeeps(mem, used, r, place, v, q);
          UserBitTables(mem, r, q, v.idx, v);
          UserBitSlots(mem, used, r, place, v, q);
          mem := SetEntry(mem, q, v.idx, e.(user := true));
        }
        return Some(e.page), place;
      }
      var n := AllocPage(g);
      if n.None? {
        return None, place;
      }
      ghost var m0, u0 := old(mem), old(used);
      assert Installable(m0, u0, r, place, v, q, n.value);
      if d == 2 && e.huge {
        FillSplit(n.value, e);
      }
      mem := SetEntry(mem, q, v.idx, TableEntry(n.value));
      assert mem == Install(m0, q, v.idx, d, n.value);
      InstallTree(m0, u0, r, place, v, q, n.value);
      InstallTables(m0, u0, r, place, v, q, n.value, v);
      InstallSlots(m0, u0, r, place, v, q, n.value);
      forall w | VPath(w) && Depth(w) == LEAF
        ensures Resolve(mem, r, w) == Resolve(m0, r, w)
        ensures LeafOf(mem, r, w) == LeafOf(m0, r, w)
          || (LeafOf(m0, r, w).Large? && w.up == v && LeafOf(mem, r, w) == Small(SubLeaf(LeafOf(m0, r, w).e, w.idx)))
      {
        InstallLeaf(m0, u0, r, place, v, q, n.value, w);
      }
      p, place2 := n, place[n.value := v];
    }

    /** The three table levels of map_into above the leaf at `v`. */
    method EnsurePath(r: nat, v: Path, g: nat -> Grant, ghost place: map<nat, Path>)
      returns (pt: Option<nat>, ghost place2: map<nat, Path>)
      requires Tree(mem, used, r, place) && VPath(v) && Depth(v) == LEAF
      modifies this
      ensures Tree(mem, used, r, place2) && SameResolve(old(mem), mem, r)
      ensures pt.Some? ==> TableAt(mem, r, v.up) == pt
      ensures pt.Some? <==> TablesGranted(old(mem), old(used), r, v.up, g)
      ensures pt.Some? ==>
        PathMade(old(mem), mem, r, v.up) && used == old(used) + Made(old(mem), r, v.up, g)
      ensures old(used) <= used <= old(used) + Made(old(mem), r, v.up, g)
      ensures SplitOnly(old(mem), mem, r, v.up)
    {
      var v3 := v.up;
      assert Depth(v3) == 3 && VPath(v3);
      var v2 := v3.up;
      assert Depth(v2) == 2 && VPath(v2);
      var v1 := v2.up;
      assert Depth(v1) == 1 && VPath(v1);
      assert Depth(v1.up) == 0;
      GrantedAbove(mem, used, r, v1, v3, g);
      GrantedAbove(mem, used, r, v2, v3, g);
      ghost var m0, u0 := mem, used;
      assert Reached(m0, u0, m0, u0, r, Top, g);
      var pdpt, pd;
      pt := None;
      pdpt, place2 := EnsureTable(r, r, v1, g(0), place);
      NoSplitAbove(old(mem), mem, r, v1);
      if pdpt.None? {
        LevelRefused(m0, u0, m0, u0, r, v1, g);
        return;
      }
      ghost var m1, u1 := mem, used;
      LevelReached(m0, u0, m0, u0, m1, u1, r, v1, g);
      pd, place2 := EnsureTable(r, pdpt.value, v2, g(1), place2);
      NoSplitAbove(m1, mem, r, v2);
      if pd.None? {
        LevelRefused(m0, u0, m1, u1, r, v2, g);
        return;
      }
      ghost var m2, u2 := mem, used;
      LevelReached(m0, u0, m1, u1, m2, u2, r, v2, g);
      pt, place2 := EnsureTable(r, pd.value, v3, g(2), place2);
      if pt.None? {
        LevelRefused(m0, u0, m2, u2, r, v3, g);
      } else {
        LevelReached(m0, u0, m2, u2, mem, used, r, v3, g);
      }
    }

    /** map_into: afterwards `v` resolves to `phys` with the given flags, or, if
        a table page could not be had, everything resolves as before. */
    method MapInto(r: nat, v: Path, phys: nat, flags: PteFlags, g: nat -> Grant, ghost place: map<nat, Path>)
      returns (ok: bool, ghost place2: map<nat, Path>)
      requires Tree(mem, used, r, place) && VPath(v) && Depth(v) == LEAF
      modifies this
      ensures Tree(mem, used, r, place2)
      ensures ok <==> TablesGranted(old(mem), old(used), r, v.up, g)
      ensures TableAt(old(mem), r, v.up).Some? ==> ok && used == old(used)
      ensures ok ==> PathMade(old(mem), mem, r, v.up) && used == old(used) + Made(old(mem), r, v.up, g)
      ensures old(used) <= used <= old(used) + Made(old(mem), r, v.up, g)
      ensures Flat(mem, r) == if ok then Flat(old(mem), r)[v := phys] else Flat(old(mem), r)
      ensures ok ==> LeafOf(mem, r, v) == Small(Entry(phys, true, flags.writable, flags.user, false, flags.nx))
      ensures LeavesKept(old(mem), mem, r, v)
    {
      var pt;
      pt, place2 := EnsurePath(r, v, g, place);
      if TableAt(old(mem), r, v.up).Some? { NothingMissing(old(mem), old(used), r, v.up, g); }
      if pt.None? {
        FlatSame(old(mem), mem, r);
        return false, place2;
      }
      var e := Entry(phys, true, flags.writable, flags.user, false, flags.nx);
      LeafWriteKeeps(mem, used, r, place2, v, pt.value, e);
      LeafWritePath(old(mem), mem, used, r, place2, v, pt.value, e);
      FlatUpdate(old(mem), mem, SetEntry(mem, pt.value, v.idx, e), r, v, e);
      mem := SetEntry(mem, pt.value, v.idx, e);
      ok := true;
    }

    /** unmap_into: the page `v` resolved to, now unmapped; a page that is not
        mapped by a 4 KiB leaf is refused. */
    method UnmapInto(r: nat, v: Path, ghost place: map<nat, Path>) returns (p: Option<nat>)
      requires Tree(mem, used, r, place) && VPath(v) && Depth(v) == LEAF
      modifies this`mem
      ensures Tree(mem, used, r, place)
      ensures p.None? ==> mem == old(mem)
      ensures p.Some? <==> LeafOf(old(mem), r, v).Small?
      ensures p.Some? ==>
        v in Flat(old(mem), r) && p.value == Flat(old(mem), r)[v]
        && Flat(mem, r) == Flat(old(mem), r) - {v}
      ensures forall w :: VPath(w) && Depth(w) == LEAF && w != v ==> LeafOf(mem, r, w) == LeafOf(old(mem), r, w)
      ensures forall w :: VPath(w) && w.Sub? && Depth(w) <= 3 ==> SlotTo(mem, r, w) == SlotTo(old(mem), r, w)
    {
      var v3 := v.up;
      assert Depth(v3) == 3 && VPath(v3);
      var v2 := v3.up;
      assert Depth(v2) == 2 && VPath(v2);
      var v1 := v2.up;
      assert Depth(v1) == 1 && VPath(v1);
      assert Depth(v1.up) == 0;
      var pml4e := EntryAt(mem, r, v1.idx);
      assert TableAt(mem, r, v1) == if pml4e.present then Some(pml4e.page) else None;
      if !pml4e.present { return None; }
      var pdpte := EntryAt(mem, pml4e.page, v2.idx);
      if !pdpte.present || pdpte.huge { return None; }
      var pde := EntryAt(mem, pdpte.page, v3.idx);
      if !pde.present || pde.huge { return None; }
      var pte := EntryAt(mem, pde.page, v.idx);
      if !pte.present { return None; }
      LeafWriteKeeps(mem, used, r, place, v, pde.page, ABSENT);
      FlatDelete(mem, SetEntry(mem, pde.page, v.idx, ABSENT), r, v);
      forall w | VPath(w) && w.Sub? && Depth(w) <= 3
        ensures SlotTo(SetEntry(mem, pde.page, v.idx, ABSENT), r, w) == SlotTo(mem, r, w)
      {
        LeafWriteSlots(mem, used, r, place, v, pde.page, ABSENT, w);
      }
      mem := SetEntry(mem, pde.page, v.idx, ABSENT);
      p := Some(pte.page);
    }
  }

  /** Making a table above the leaf level splits nothing. */
  lemma NoSplitAbove(m: seq<Frame>, m2: seq<Frame>, r: nat, v: Path)
    requires Depth(v) < 3
    requires SplitOnly(m, m2, r, v)
    ensures forall w :: VPath(w) && Depth(w) == LEAF ==> LeafOf(m2, r, w) == LeafOf(m, r, w)
  {}

  lemma FlatSame(m: seq<Frame>, m2: seq<Frame>, r: nat)
    requires SameResolve(m, m2, r)
    ensures Flat(m2, r) == Flat(m, r)
  {}

  lemma FlatUpdate(m: seq<Frame>, m1: seq<Frame>, m2: seq<Frame>, r: nat, v: Path, e: Entry)
    requires SameResolve(m, m1, r) && VPath(v) && Depth(v) == LEAF && e.present
    requires forall w :: VPath(w) && Depth(w) == LEAF ==>
      LeafOf(m2, r, w) == if w == v then Small(e) else LeafOf(m1, r, w)
    ensures Flat(m2, r) == Flat(m, r)[v := e.page]
  {
    forall w | VPath(w) && Depth(w) == LEAF
      ensures Resolve(m2, r, w) == if w == v then Some(e.page) else Resolve(m, r, w) {}
  }

  lemma FlatDelete(m: seq<Frame>, m2: seq<Frame>, r: nat, v: Path)
    requires VPath(v) && Depth(v) == LEAF
    requires forall w :: VPath(w) && Depth(w) == LEAF ==> LeafOf(m2, r, w) == if w == v then NoLeaf else LeafOf(m, r, w)
    ensures Flat(m2, r) == Flat(m, r) - {v}
  {
    forall w | VPath(w) && Depth(w) == LEAF ensures Resolve(m2, r, w) == if w == v then None else Resolve(m, r, w) {}
  }
}
