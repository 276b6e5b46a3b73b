/** Free lists threaded through headers stored in the free blocks themselves. */
module BuddyLists {
  import opened BuddyBlocks

  const MAGIC: nat := 0xDEADBEEF

  /** The first bytes of a page, read as a block header.  Address 0 is null. */
  datatype Header = Header(magic: nat, order: nat, next: nat)

  /** Header at address `a`; memory never written as a header reads as zeros. */
  function HeaderAt(hdr: map<nat, Header>, a: nat): Header {
    if a in hdr then hdr[a] else Header(0, 0, 0)
  }

  function First(l: seq<nat>): nat {
    if l == [] then 0 else l[0]
  }

  /** List `l` of order `o` as found by following headers from `head`. */
  ghost predicate Linked(hdr: map<nat, Header>, head: nat, l: seq<nat>, o: nat) {
    && head == First(l)
    && forall k :: 0 <= k < |l| ==>
         l[k] != 0 && HeaderAt(hdr, l[k]) == Header(MAGIC, o, First(l[k + 1..]))
  }

  /** All eleven lists, no address on two of them or twice on one. */
  ghost predicate ListsOk(heads: seq<nat>, hdr: map<nat, Header>, lists: seq<seq<nat>>) {
    && |heads| == MAX_ORDER + 1 && |lists| == MAX_ORDER + 1
    && (forall o :: 0 <= o <= MAX_ORDER ==> Linked(hdr, heads[o], lists[o], o))
    && Once(lists)
  }

  ghost predicate Once(lists: seq<seq<nat>>) {
    forall o, i, p, j | 0 <= o < |lists| && 0 <= i < |lists[o]| && 0 <= p < |lists| && 0 <= j < |lists[p]| ::
      lists[o][i] == lists[p][j] ==> o == p && i == j
  }

  ghost predicate OnNoList(lists: seq<seq<nat>>, a: nat) {
    forall o :: 0 <= o < |lists| ==> a !in lists[o]
  }

  /** The blocks on the lists. */
  ghost predicate ListsHold(lists: seq<seq<nat>>, f: set<Block>) {
    |lists| == MAX_ORDER + 1 && forall b: Block :: b in f <==> b.order <= MAX_ORDER && b.addr in lists[b.order]
  }

  lemma PushOk(heads: seq<nat>, hdr: map<nat, Header>, lists: seq<seq<nat>>, o: nat, a: nat)
    requires ListsOk(heads, hdr, lists) && o <= MAX_ORDER && a != 0 && OnNoList(lists, a)
    ensures ListsOk(heads[o := a], hdr[a := Header(MAGIC, o, heads[o])], lists[o := [a] + lists[o]])
  {
    var hdr2 := hdr[a := Header(MAGIC, o, heads[o])];
    var l := lists[o];
    var l2 := [a] + l;
    forall k | 0 <= k < |l2| ensures l2[k] != 0 && HeaderAt(hdr2, l2[k]) == Header(MAGIC, o, First(l2[k + 1..])) {
      if k == 0 {
        assert l2[1..] == l;
      } else {
        assert l2[k] == l[k - 1] && l2[k] in l;
        assert l2[k + 1..] == l[k..];
      }
    }
    forall p | 0 <= p <= MAX_ORDER && p != o ensures Linked(hdr2, heads[p], lists[p], p) {
      forall k | 0 <= k < |lists[p]| ensures HeaderAt(hdr2, lists[p][k]) == HeaderAt(hdr, lists[p][k]) {
        assert lists[p][k] in lists[p];
      }
    }
  }

  lemma PushHolds(lists: seq<seq<nat>>, f: set<Block>, o: nat, a: nat)
    requires ListsHold(lists, f) && o <= MAX_ORDER
    ensures ListsHold(lists[o := [a] + lists[o]], f + {Block(a, o)})
  {}

  function Without(l: seq<nat>, k: nat): seq<nat>
    requires k < |l|
  {
    l[..k] + l[k + 1..]
  }

  /** Unlinking position `k` of list `o`: the predecessor, or the list head,
      takes over the next pointer and the block's magic is cleared. */
  ghost predicate Unlinks(heads: seq<nat>, hdr: map<nat, Header>, l: seq<nat>, o: nat, k: nat, heads2: seq<nat>,
                          hdr2: map<nat, Header>, m: Header)
    requires o < |heads| && k < |l|
  {
    var next := First(l[k + 1..]);
    if k == 0 then heads2 == heads[o := next] && hdr2 == hdr[l[0] := m]
    else heads2 == heads && hdr2 == hdr[l[k - 1] := Header(MAGIC, o, next)][l[k] := m]
  }

  lemma UnlinkSame(heads: seq<nat>, hdr: map<nat, Header>, l: seq<nat>, o: nat, k: nat, heads2: seq<nat>,
                   hdr2: map<nat, Header>, m: Header)
    requires o < |heads| && k < |l| && Linked(hdr, heads[o], l, o) && Unlinks(heads, hdr, l, o, k, heads2, hdr2, m)
    requires forall i, j :: 0 <= i < |l| && 0 <= j < |l| && l[i] == l[j] ==> i == j
    ensures Linked(hdr2, heads2[o], Without(l, k), o)
  {
    var l2 := Without(l, k);
    forall i | 0 <= i < |l2| ensures l2[i] != 0 && HeaderAt(hdr2, l2[i]) == Header(MAGIC, o, First(l2[i + 1..])) {
      var j := if i < k then i else i + 1;
      assert l2[i] == l[j] && l[j] != l[k];
      if i + 1 < k {
        assert l2[i + 1..][0] == l[j + 1..][0];
        assert l[j] != l[k - 1];
      } else if i + 1 == k {
        assert l2[i + 1..] == l[k + 1..];
      } else {
        assert l2[i + 1..] == l[j + 1..];
      }
    }
  }

  /** Unlinking position `k` of list `o`: the predecessor, or the list head,
      takes over the next pointer and the block's own header is overwritten. */
  lemma UnlinkOk(heads: seq<nat>, hdr: map<nat, Header>, lists: seq<seq<nat>>, o: nat, k: nat, heads2: seq<nat>,
                 hdr2: map<nat, Header>, m: Header)
    requires ListsOk(heads, hdr, lists) && o <= MAX_ORDER && k < |lists[o]|
    requires Unlinks(heads, hdr, lists[o], o, k, heads2, hdr2, m)
    ensures ListsOk(heads2, hdr2, lists[o := Without(lists[o], k)])
  {
    var l := lists[o];
    UnlinkSame(heads, hdr, l, o, k, heads2, hdr2, m);
    forall p | 0 <= p <= MAX_ORDER && p != o ensures Linked(hdr2, heads2[p], lists[p], p) {
      forall i | 0 <= i < |lists[p]| ensures HeaderAt(hdr2, lists[p][i]) == HeaderAt(hdr, lists[p][i]) {
        assert lists[p][i] != l[k];
        if k > 0 { assert lists[p][i] != l[k - 1]; }
      }
    }
    UnlinkOnce(lists, o, k);
  }

  lemma UnlinkOnce(lists: seq<seq<nat>>, o: nat, k: nat)
    requires Once(lists) && o < |lists| && k < |lists[o]|
    ensures Once(lists[o := Without(lists[o], k)])
  {}

  lemma UnlinkHolds(lists: seq<seq<nat>>, f: set<Block>, o: nat, k: nat)
    requires Once(lists) && ListsHold(lists, f) && o <= MAX_ORDER && k < |lists[o]|
    ensures ListsHold(lists[o := Without(lists[o], k)], f - {Block(lists[o][k], o)})
  {}
}
