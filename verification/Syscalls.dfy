/** sys_brk, sys_munmap and the page-fault handler (src/mem/vmm.c), page by page. */
module Syscalls {
  import opened CowMemory
  import opened PageTables
  import opened PageRights
  import opened AddressSpaces
  import opened TearDown
  import opened Stocks
  import CellTree
  import PhysicalMemory

  const USER_BRK_DEFAULT: nat := 0x40_0000
  const USER_TOP: nat := USER_PAGES * PAGE_SIZE

  datatype Vma = Vma(start: nat, end: nat, write: bool, exec: bool)

  class Task {
    /** Root table of the task's space; 0 for a kernel thread. */
    var pml4: nat
    var brkStart: nat
    var brkCurrent: nat
    var vmas: seq<Vma>

    constructor (pml4: nat)
      ensures this.pml4 == pml4 && brkStart == 0 && brkCurrent == 0 && vmas == []
    {
      this.pml4, brkStart, brkCurrent, vmas := pml4, 0, 0, [];
    }
  }

  function PageUp(x: nat): nat { (x + PAGE_SIZE - 1) / PAGE_SIZE }

  /** The pages before it are those that start below the address. */
  lemma PageUpIs(x: nat, page: nat)
    ensures page < PageUp(x) <==> page * 4096 < x
  {
  }

  /** The pages that came are zeroed ones of space `r` that start between two addresses; if all came, all of these are
      there. */
  ghost predicate CameBetween(before: map<Key, Pte>, after: map<Key, Pte>, r: nat, from: nat, to: nat, all: bool) {
    && (forall k :: k in before ==> k in after && after[k] == before[k])
    && (forall k :: k in after && k !in before ==>
          && k.space == r && from <= k.vpn * 4096 < to
          && after[k] == Pte(after[k].frame, true, false, false, 0x8000_0000_0000_0004))
    && (all ==> forall page {:trigger Key(r, page)} :: from <= page * 4096 < to ==> Key(r, page) in after)
  }

  /** The pages that went are those of space `r` that start between two addresses. */
  ghost predicate WentBetween(before: map<Key, Pte>, after: map<Key, Pte>, r: nat, from: nat, to: nat) {
    && (forall k :: k in after ==> k in before && after[k] == before[k])
    && (forall k :: k in before ==> (k !in after <==> k.space == r && from <= k.vpn * 4096 < to))
  }

  /** The page at an address and the next ones went, up to the length in bytes. */
  ghost predicate WentFrom(before: map<Key, Pte>, after: map<Key, Pte>, r: nat, addr: nat, length: nat) {
    && (forall k :: k in after ==> k in before && after[k] == before[k])
    && (forall k :: k in before ==>
          (k !in after <==> k.space == r && k.vpn >= addr / 4096 && (k.vpn - addr / 4096) * 4096 < length))
  }

  lemma CameInBytes(a: Eager, b: Eager, before: map<Key, Pte>, after: map<Key, Pte>, r: nat, from: nat, to: nat,
                    all: bool)
    requires Extended(a, b, r, PageUp(from), PageUp(to)) && Granted(before, after, true, USER + NX)
    requires a.slots.Keys == before.Keys && b.slots.Keys == after.Keys
    requires all ==> AllMapped(b, r, PageUp(from), PageUp(to))
    ensures CameBetween(before, after, r, from, to, all)
  {
    forall k | k in after && k !in before ensures from <= k.vpn * 4096 < to {
      assert k in b.slots && k !in a.slots;
      PageUpIs(from, k.vpn);
      PageUpIs(to, k.vpn);
    }
    if all {
      forall page {:trigger Key(r, page)} | from <= page * 4096 < to ensures Key(r, page) in after {
        PageUpIs(from, page);
        PageUpIs(to, page);
        assert Key(r, page) in b.slots;
      }
    }
  }

  lemma WentInBytes(ptes: map<Key, Pte>, r: nat, from: nat, to: nat)
    ensures WentBetween(ptes, GonePtes(ptes, r, PageUp(from), PageUp(to)), r, from, to)
  {
    forall k: Key ensures PageUp(from) <= k.vpn < PageUp(to) <==> from <= k.vpn * 4096 < to {
      PageUpIs(from, k.vpn);
      PageUpIs(to, k.vpn);
    }
  }

  lemma WentLength(ptes: map<Key, Pte>, r: nat, addr: nat, length: nat)
    ensures WentFrom(ptes, GonePtes(ptes, r, addr / 4096, addr / 4096 + PageUp(length)), r, addr, length)
  {
    forall k: Key | k.vpn >= addr / 4096
      ensures k.vpn < addr / 4096 + PageUp(length) <==> (k.vpn - addr / 4096) * 4096 < length
    {
      PageUpIs(length, k.vpn - addr / 4096);
    }
  }

  /** What was mapped stays as it was; what is new is a zeroed page of space `r` between `lo` and `hi`. */
  ghost predicate Extended(before: Eager, after: Eager, r: nat, lo: nat, hi: nat) {
    && after.shared == before.shared
    && (forall k :: k in before.slots ==> k in after.slots && after.slots[k] == before.slots[k])
    && (forall k :: k in after.slots && k !in before.slots ==>
          k.space == r && lo <= k.vpn < hi && after.slots[k] == Private(ZeroPage()))
  }

  /** Old entries stay; new ones are private pages with these rights. */
  ghost predicate Granted(before: map<Key, Pte>, after: map<Key, Pte>, write: bool, rest: nat) {
    forall k :: k in before.Keys + after.Keys ==>
      k in after && after[k] == if k in before then before[k] else Pte(after[k].frame, write, false, false, rest)
  }

  lemma GrantedMore(a: map<Key, Pte>, b: map<Key, Pte>, c: map<Key, Pte>, write: bool, rest: nat)
    requires Granted(a, b, write, rest) && Granted(b, c, write, rest)
    ensures Granted(a, c, write, rest)
  {
  }

  lemma ExtendedMore(a: Eager, b: Eager, c: Eager, r: nat, lo: nat, mid: nat)
    requires lo <= mid && Extended(a, b, r, lo, mid) && Extended(b, c, r, mid, mid + 1)
    ensures Extended(a, c, r, lo, mid + 1)
    ensures AllMapped(b, r, lo, mid) && Key(r, mid) in c.slots ==> AllMapped(c, r, lo, mid + 1)
  {
    if AllMapped(b, r, lo, mid) {
      forall x {:trigger Key(r, x)} | lo <= x < mid ensures Key(r, x) in c.slots { assert Key(r, x) in b.slots; }
    }
  }

  /** What demand paging makes of a VMA's protection. */
  function Rights(w: Vma): (r: nat)
    ensures r % 0x8000_0000_0000_0000 == 4 && (r / 0x8000_0000_0000_0000 == 1 <==> !w.exec) && r / 4 % 2 == 1
  {
    if w.exec then USER else USER + NX
  }

  ghost predicate AllMapped(e: Eager, r: nat, lo: nat, hi: nat) {
    forall x {:trigger Key(r, x)} :: lo <= x < hi ==> Key(r, x) in e.slots
  }

  ghost predicate OneMore(a: set<nat>, b: set<nat>) { exists f :: f !in a && b == a + {f} }

  /** What asking for an absent page does: it is mapped, or there was no frame, or its frame is lost for want of a
      table.  Stocks.DrawnMeans and AddressSpaces.PagedMeans say when. */
  ghost predicate Brought(a: Stock, at: set<Pos>, b: Stock, at': set<Pos>, k: Key, mapped: bool, lost: set<nat>,
                          lost': set<nat>) {
    && Paged(a, at, b, at', k, mapped)
    && if mapped || a.free == 0 then lost' == lost else OneMore(lost, lost')
  }

  /** One page of a growing brk: a page that is there stays, an absent one comes as DemandZero would bring it. */
  method GrowPage(v: Vmm, r: nat, vpn: nat) returns (got: bool)
    requires v.Valid() && r in v.spaces && vpn < USER_PAGES
    modifies v`tables, v`sh, v`ptes, v`pages, v`leaked, v.pmm
    ensures v.Valid() && v.pmm.totalMem == old(v.pmm.totalMem)
    ensures Extended(old(v.View()), v.View(), r, vpn, vpn + 1) && Granted(old(v.ptes), v.ptes, true, USER + NX)
    ensures got <==> old(Key(r, vpn) in v.ptes || !v.pmm.Exhausted())
    ensures old(Key(r, vpn) in v.ptes) ==> unchanged(v.pmm) && v.leaked == old(v.leaked) && v.sh == old(v.sh)
    ensures Key(r, vpn) in v.View().slots <==> Key(r, vpn) in v.ptes
    ensures old(Key(r, vpn) !in v.ptes) ==>
      Brought(old(v.pmm.Left()), old(v.sh.at.Keys), v.pmm.Left(), v.sh.at.Keys, Key(r, vpn), Key(r, vpn) in v.ptes,
              old(v.leaked), v.leaked)
  {
    hide Vmm.Books;
    hide Vmm.Structure;
    hide Inv;
    hide Abs;
    hide PhysicalMemory.Pmm.RefOf;
    hide Paged;
    hide Missing;
    assert v.ShapeValid();
    var e, _ := v.GetPte(r, vpn);
    SlotSeen(v.M(), Key(r, vpn));
    got := true;
    if e.None? {
      var mapped;
      got, mapped := v.MapFresh(r, vpn, true, USER + NX);
    }
    SlotSeen(v.M(), Key(r, vpn));
  }

  /** How many page allocations mapping the absent pages from `lo` to `hi` takes, with tables at the places `at`: each
      page, and each table that is missing when its turn comes. */
  ghost function GrowNeed(at: set<Pos>, ptes: map<Key, Pte>, r: nat, lo: nat, hi: nat): nat {
    if hi <= lo then 0
    else
      var before, k := GrowNeed(at, ptes, r, lo, hi - 1), Key(r, hi - 1);
      if k in ptes then before else before + 1 + Missing(GrowAt(at, ptes, r, lo, hi - 1), k)
  }

  /** The places of tables then. */
  ghost function GrowAt(at: set<Pos>, ptes: map<Key, Pte>, r: nat, lo: nat, hi: nat): set<Pos> {
    if hi <= lo then at
    else
      var before, k := GrowAt(at, ptes, r, lo, hi - 1), Key(r, hi - 1);
      if k in ptes then before else before + Path(k)
  }

  lemma {:induction false} GrowMono(at: set<Pos>, ptes: map<Key, Pte>, r: nat, lo: nat, mid: nat, hi: nat)
    requires mid <= hi
    ensures GrowNeed(at, ptes, r, lo, mid) <= GrowNeed(at, ptes, r, lo, hi)
    ensures GrowAt(at, ptes, r, lo, mid) <= GrowAt(at, ptes, r, lo, hi)
    decreases hi - mid
  {
    if mid < hi { GrowMono(at, ptes, r, lo, mid, hi - 1); }
  }

  /** What the growing loop has done by page `mid`: all so far is there, or memory has run out, and perhaps a frame
      was lost. */
  ghost predicate Grown(a: Stock, at: set<Pos>, b: Stock, at': set<Pos>, ptes: map<Key, Pte>, r: nat, lo: nat, mid: nat,
                        whole: bool) {
    && Drawn(a, b, GrowNeed(at, ptes, r, lo, mid), whole)
    && at <= at' <= GrowAt(at, ptes, r, lo, mid) && (whole ==> at' == GrowAt(at, ptes, r, lo, mid))
  }

  lemma GrownPresent(a: Stock, at: set<Pos>, b: Stock, at': set<Pos>, ptes: map<Key, Pte>, r: nat, lo: nat, mid: nat,
                     whole: bool)
    requires Grown(a, at, b, at', ptes, r, lo, mid, whole) && lo <= mid && Key(r, mid) in ptes
    ensures Grown(a, at, b, at', ptes, r, lo, mid + 1, whole)
  {
  }

  lemma GrownAbsent(a: Stock, at: set<Pos>, b: Stock, at1: set<Pos>, c: Stock, at2: set<Pos>, ptes: map<Key, Pte>,
                    r: nat, lo: nat, mid: nat, whole: bool, mapped: bool)
    requires Grown(a, at, b, at1, ptes, r, lo, mid, whole) && lo <= mid && Key(r, mid) !in ptes
    requires Paged(b, at1, c, at2, Key(r, mid), mapped)
    ensures Grown(a, at, c, at2, ptes, r, lo, mid + 1, whole && mapped)
    ensures mapped ==> whole
  {
    var k := Key(r, mid);
    if whole {
      DrawnMore(a, b, c, GrowNeed(at, ptes, r, lo, mid), 1 + Missing(at1, k), true, mapped);
    } else {
      DrawnMeans(a, b, GrowNeed(at, ptes, r, lo, mid), false);
      RanOutMore(a, b, GrowNeed(at, ptes, r, lo, mid), GrowNeed(at, ptes, r, lo, mid + 1));
    }
  }

  lemma RanOutMore(a: Stock, b: Stock, need: nat, more: nat)
    requires RanOut(a, b, need) && need <= more
    ensures RanOut(a, b, more)
  {
    var n: nat :| n < need && Took(a, b, n);
    assert n < more;
  }

  lemma GrownShort(a: Stock, at: set<Pos>, b: Stock, at': set<Pos>, ptes: map<Key, Pte>, r: nat, lo: nat, mid: nat,
                   hi: nat)
    requires Grown(a, at, b, at', ptes, r, lo, mid, false) && mid <= hi
    ensures Grown(a, at, b, at', ptes, r, lo, hi, false)
  {
    GrowMono(at, ptes, r, lo, mid, hi);
    RanOutMore(a, b, GrowNeed(at, ptes, r, lo, mid), GrowNeed(at, ptes, r, lo, hi));
  }

  lemma GrownNothing(a: Stock, at: set<Pos>, ptes: map<Key, Pte>, r: nat, lo: nat)
    ensures Grown(a, at, a, at, ptes, r, lo, lo, true)
  {
  }

  /** The growing loop of brk.  It stops when no frame is left; a page whose table cannot be had is skipped.  While the
      pool has nodes, all pages come exactly when there is memory for them and their tables. */
  method GrowPages(v: Vmm, r: nat, lo: nat, hi: nat) returns (ok: bool)
    requires v.Valid() && r in v.spaces && lo <= hi <= USER_PAGES
    modifies v`tables, v`sh, v`ptes, v`pages, v`leaked, v.pmm
    ensures v.Valid() && v.pmm.totalMem == old(v.pmm.totalMem)
    ensures Extended(old(v.View()), v.View(), r, lo, hi) && Granted(old(v.ptes), v.ptes, true, USER + NX)
    ensures ok && v.leaked == old(v.leaked) ==> AllMapped(v.View(), r, lo, hi)
    ensures Grown(old(v.pmm.Left()), old(v.sh.at.Keys), v.pmm.Left(), v.sh.at.Keys, old(v.ptes), r, lo, hi,
                  ok && v.leaked == old(v.leaked))
    ensures v.leaked == old(v.leaked) || OneMore(old(v.leaked), v.leaked)
    ensures var need := old(GrowNeed(v.sh.at.Keys, v.ptes, r, lo, hi));
      old(v.pmm.NodesFor(need)) ==> (ok && v.leaked == old(v.leaked) <==> old(v.pmm.freeMem) >= need * PAGE_SIZE)
  {
    hide Vmm.Valid;
    hide Vmm.View;
    hide Missing;
    hide PhysicalMemory.Pmm.Exhausted;
    hide GrowNeed;
    hide Grown;
    hide OneMore;
    hide AllMapped;
    hide Extended;
    hide Granted;
    ghost var s0 := Seen(v);
    NothingGrown(v, r, lo);
    var vpn := lo;
    ok := true;
    while vpn < hi
      invariant lo <= vpn <= hi && v.Valid() && v.pmm.totalMem == old(v.pmm.totalMem) && r in v.spaces
      invariant Progress(s0, Seen(v), r, lo, vpn, v.leaked == s0.lost)
    {
      ok := GrowNext(v, r, lo, vpn, s0);
      if !ok {
        ProgressEnds(s0, Seen(v), r, lo, vpn + 1, hi, false);
        return;
      }
      vpn := vpn + 1;
    }
    ProgressEnds(s0, Seen(v), r, lo, hi, hi, v.leaked == s0.lost);
  }

  /** What the growing loop changes. */
  datatype Sight = Sight(view: Eager, ptes: map<Key, Pte>, left: Stock, at: set<Pos>, lost: set<nat>)

  ghost function Seen(v: Vmm): Sight
    requires v.Valid()
    reads v, v.pmm
  {
    Sight(v.View(), v.ptes, v.pmm.Left(), v.sh.at.Keys, v.leaked)
  }

  /** The loop has come to page `mid`: all is there, or memory has run out and perhaps a frame was lost. */
  ghost predicate Progress(a: Sight, b: Sight, r: nat, lo: nat, mid: nat, whole: bool) {
    && Extended(a.view, b.view, r, lo, mid) && Granted(a.ptes, b.ptes, true, USER + NX)
    && Grown(a.left, a.at, b.left, b.at, a.ptes, r, lo, mid, whole)
    && (whole ==> b.lost == a.lost && AllMapped(b.view, r, lo, mid))
    && (!whole ==> b.left.free == 0 && (b.lost == a.lost || OneMore(a.lost, b.lost)))
    && a.ptes.Keys == a.view.slots.Keys && b.ptes.Keys == b.view.slots.Keys
  }

  lemma NothingGrown(v: Vmm, r: nat, lo: nat)
    requires v.Valid()
    ensures Progress(Seen(v), Seen(v), r, lo, lo, true)
  {
    hide Vmm.Valid;
    hide Vmm.View;
    PtesSeen(v);
    GrownNothing(v.pmm.Left(), v.sh.at.Keys, v.ptes, r, lo);
  }

  lemma ProgressEnds(a: Sight, b: Sight, r: nat, lo: nat, mid: nat, hi: nat, whole: bool)
    requires Progress(a, b, r, lo, mid, whole) && mid <= hi && (whole ==> mid == hi)
    ensures Progress(a, b, r, lo, hi, whole)
    ensures var need := GrowNeed(a.at, a.ptes, r, lo, hi);
            a.left.nodes + 40 * need < CellTree.CELL_POOL_SIZE ==> (whole <==> a.left.free >= need * PAGE_SIZE)
  {
    if !whole { GrownShort(a.left, a.at, b.left, b.at, a.ptes, r, lo, mid, hi); }
    GrownMeans(a.left, a.at, b.left, b.at, a.ptes, r, lo, hi, whole);
  }

  /** One page further. */
  lemma ProgressMore(a: Sight, b: Sight, c: Sight, r: nat, lo: nat, mid: nat, whole: bool)
    requires Progress(a, b, r, lo, mid, whole) && lo <= mid && (whole <==> b.lost == a.lost)
    requires Extended(b.view, c.view, r, mid, mid + 1) && Granted(b.ptes, c.ptes, true, USER + NX)
    requires c.ptes.Keys == c.view.slots.Keys
    requires Key(r, mid) in b.ptes ==> c.left == b.left && c.at == b.at && c.lost == b.lost
    requires Key(r, mid) !in b.ptes ==>
      Brought(b.left, b.at, c.left, c.at, Key(r, mid), Key(r, mid) in c.ptes, b.lost, c.lost)
    ensures Progress(a, c, r, lo, mid + 1, whole && Key(r, mid) in c.ptes)
    ensures whole && Key(r, mid) in c.ptes <==> c.lost == a.lost && (Key(r, mid) in b.ptes || b.left.free > 0)
  {
    hide Missing;
    hide Grown;
    hide Paged;
    assert Key(r, mid) in a.ptes <==> Key(r, mid) in b.ptes;
    ExtendedMore(a.view, b.view, c.view, r, lo, mid);
    GrantedMore(a.ptes, b.ptes, c.ptes, true, USER + NX);
    hide Extended, Granted;
    if Key(r, mid) in a.ptes {
      GrownPresent(a.left, a.at, b.left, b.at, a.ptes, r, lo, mid, whole);
    } else {
      var mapped := Key(r, mid) in c.ptes;
      PagedMeans(b.left, b.at, c.left, c.at, Key(r, mid), mapped);
      GrownAbsent(a.left, a.at, b.left, b.at, c.left, c.at, a.ptes, r, lo, mid, whole, mapped);
    }
  }

  /** The body of the loop. */
  method GrowNext(v: Vmm, r: nat, lo: nat, vpn: nat, ghost s0: Sight) returns (got: bool)
    requires v.Valid() && r in v.spaces && lo <= vpn < USER_PAGES
    requires Progress(s0, Seen(v), r, lo, vpn, v.leaked == s0.lost)
    modifies v`tables, v`sh, v`ptes, v`pages, v`leaked, v.pmm
    ensures v.Valid() && v.pmm.totalMem == old(v.pmm.totalMem)
    ensures Progress(s0, Seen(v), r, lo, vpn + 1, got && v.leaked == s0.lost)
  {
    hide Vmm.Valid;
    hide Vmm.View;
    hide Progress;
    hide Extended;
    hide Granted;
    hide Brought;
    ghost var b := Seen(v);
    got := GrowPage(v, r, vpn);
    PtesSeen(v);
    ProgressMore(s0, b, Seen(v), r, lo, vpn, b.lost == s0.lost);
  }

  lemma GrownMeans(a: Stock, at: set<Pos>, b: Stock, at': set<Pos>, ptes: map<Key, Pte>, r: nat, lo: nat, hi: nat,
                   whole: bool)
    requires Grown(a, at, b, at', ptes, r, lo, hi, whole)
    ensures var need := GrowNeed(at, ptes, r, lo, hi);
            a.nodes + 40 * need < CellTree.CELL_POOL_SIZE ==> (whole <==> a.free >= need * PAGE_SIZE)
    ensures !whole ==> b.free == 0
  {
    DrawnMeans(a, b, GrowNeed(at, ptes, r, lo, hi), whole);
  }

  /** Between `lo` and `hi`, no page is a window on the first frame of an allocation of the rest of the kernel. */
  ghost predicate InnerWindows(ptes: map<Key, Pte>, outside: map<nat, nat>, r: nat, lo: nat, hi: nat) {
    forall x {:trigger Key(r, x)} :: lo <= x < hi && Key(r, x) in ptes ==> ptes[Key(r, x)].frame !in outside
  }

  ghost function GonePtes(ptes: map<Key, Pte>, r: nat, lo: nat, hi: nat): map<Key, Pte> {
    map k | k in ptes && !(k.space == r && lo <= k.vpn < hi) :: ptes[k]
  }

  lemma GonePtesMore(ptes: map<Key, Pte>, outside: map<nat, nat>, r: nat, lo: nat, hi: nat)
    requires lo <= hi
    ensures GonePtes(ptes, r, lo, hi) - {Key(r, hi)} == GonePtes(ptes, r, lo, hi + 1)
    ensures Key(r, hi) in ptes <==> Key(r, hi) in GonePtes(ptes, r, lo, hi)
    ensures InnerWindows(ptes, outside, r, lo, hi + 1) <==>
      InnerWindows(ptes, outside, r, lo, hi) && !(Key(r, hi) in ptes && ptes[Key(r, hi)].frame in outside)
  {
  }

  lemma GonePtesNone(ptes: map<Key, Pte>, outside: map<nat, nat>, r: nat, lo: nat)
    ensures GonePtes(ptes, r, lo, lo) == ptes && InnerWindows(ptes, outside, r, lo, lo)
  {
  }

  /** The loop of munmap (`viaFree`) and of a shrinking brk.  The pages of the range are unmapped in any case; the
      books are right afterwards exactly when none of them was a window on the first frame of an allocation of the
      rest of the kernel, and otherwise the kernel has lost a reference. */
  method ShrinkPages(v: Vmm, r: nat, lo: nat, hi: nat, viaFree: bool)
    requires v.Valid() && r in v.spaces && lo <= hi <= USER_PAGES
    modifies v`tables, v`ptes, v`pages, v.pmm
    ensures v.Sturdy() && (v.Valid() || v.Harmed()) && v.pmm.totalMem == old(v.pmm.totalMem)
    ensures v.Valid() <==> InnerWindows(old(v.ptes), v.outside, r, lo, hi)
    ensures v.Valid() ==> v.View() == old(v.View()).(slots := Gone(old(v.View()).slots, r, lo, hi))
    ensures v.ptes == GonePtes(old(v.ptes), r, lo, hi) && Returned(old(v.pmm.Left()), v.pmm.Left())
  {
    hide Vmm.Structure;
    hide Vmm.Valid;
    hide Vmm.View;
    hide Vmm.Sturdy;
    hide Vmm.Harmed;
    hide PhysicalMemory.Pmm.Valid;
    hide Gone;
    hide GonePtes;
    hide InnerWindows;
    ghost var V, P := v.View(), v.ptes;
    GoneEmpty(V.slots, r, lo);
    GonePtesNone(P, v.outside, r, lo);
    v.ValidIsSturdy();
    SturdyIs(v);
    var vpn := lo;
    while vpn < hi
      invariant lo <= vpn <= hi && v.Sturdy() && v.pmm.Valid() && (v.Valid() || v.Harmed())
      invariant v.pmm.totalMem == old(v.pmm.totalMem)
      invariant v.Valid() <==> InnerWindows(P, v.outside, r, lo, vpn)
      invariant v.Valid() ==> v.View() == V.(slots := Gone(V.slots, r, lo, vpn))
      invariant v.ptes == GonePtes(P, r, lo, vpn) && Returned(old(v.pmm.Left()), v.pmm.Left())
    {
      GonePtesMore(P, v.outside, r, lo, vpn);
      GonePtesSame(P, r, lo, vpn);
      GoneMore(V.slots, r, lo, vpn, vpn + 1);
      GoneOne(Gone(V.slots, r, lo, vpn), r, vpn);
      v.DropPage(r, vpn, viaFree);
      SturdyIs(v);
      vpn := vpn + 1;
    }
  }

  lemma SturdyIs(v: Vmm)
    requires v.Sturdy()
    ensures v.pmm.Valid()
  {
  }

  lemma GonePtesSame(ptes: map<Key, Pte>, r: nat, lo: nat, hi: nat)
    ensures Key(r, hi) in ptes && Key(r, hi) in GonePtes(ptes, r, lo, hi) ==>
      GonePtes(ptes, r, lo, hi)[Key(r, hi)] == ptes[Key(r, hi)]
  {
  }

  /** sys_brk, for breaks inside the user half. */
  method Brk(v: Vmm, t: Task, newBrk: nat) returns (r: nat)
    requires v.Valid() && (t.pml4 != 0 ==> t.pml4 in v.spaces)
    requires newBrk <= USER_TOP && t.brkCurrent <= USER_TOP
    modifies v`tables, v`sh, v`ptes, v`pages, v`leaked, v.pmm, t`brkStart, t`brkCurrent
    ensures v.pmm.Valid() && v.pmm.totalMem == old(v.pmm.totalMem) && r == t.brkCurrent
    ensures v.leaked == old(v.leaked) || OneMore(old(v.leaked), v.leaked)
    ensures t.brkStart == BrkStart(old(t.brkStart)) == if old(t.brkStart) == 0 then 0x40_0000 else old(t.brkStart)
    ensures newBrk < t.brkStart ==>
      && r == BrkCurrent(old(t.brkStart), old(t.brkCurrent)) && v.Valid() && v.View() == old(v.View())
      && v.ptes == old(v.ptes) && v.sh == old(v.sh) && v.leaked == old(v.leaked) && unchanged(v.pmm)
    ensures newBrk >= t.brkStart && t.pml4 == 0 ==> r == newBrk && v.Valid() && v.View() == old(v.View())
    ensures newBrk >= t.brkStart && t.pml4 != 0 ==>
      var cur := BrkCurrent(old(t.brkStart), old(t.brkCurrent));
      if newBrk >= cur then
        && v.Valid() && Granted(old(v.ptes), v.ptes, true, USER + NX) && (r == newBrk || r == cur)
        && Extended(old(v.View()), v.View(), t.pml4, PageUp(cur), PageUp(newBrk))
        && (r == newBrk && v.leaked == old(v.leaked) ==> AllMapped(v.View(), t.pml4, PageUp(cur), PageUp(newBrk)))
        && Grown(old(v.pmm.Left()), old(v.sh.at.Keys), v.pmm.Left(), v.sh.at.Keys, old(v.ptes), t.pml4, PageUp(cur),
                 PageUp(newBrk), r == newBrk && v.leaked == old(v.leaked))
      else
        && r == newBrk && v.ptes == GonePtes(old(v.ptes), t.pml4, PageUp(newBrk), PageUp(cur))
        && v.leaked == old(v.leaked) && v.sh == old(v.sh) && Returned(old(v.pmm.Left()), v.pmm.Left())
        && (v.Valid() <==> InnerWindows(old(v.ptes), v.outside, t.pml4, PageUp(newBrk), PageUp(cur)))
        && (v.Valid() ==>
              v.View() == old(v.View()).(slots := Gone(old(v.View()).slots, t.pml4, PageUp(newBrk), PageUp(cur))))
        && (v.Valid() || v.Harmed())
    ensures newBrk >= BrkCurrent(old(t.brkStart), old(t.brkCurrent)) && newBrk >= t.brkStart && t.pml4 != 0 ==>
      var cur := BrkCurrent(old(t.brkStart), old(t.brkCurrent));
      var need := old(GrowNeed(v.sh.at.Keys, v.ptes, t.pml4, PageUp(cur), PageUp(newBrk)));
      old(v.pmm.NodesFor(need)) ==>
        (r == newBrk && v.leaked == old(v.leaked) <==> old(v.pmm.freeMem) >= need * PAGE_SIZE)
    ensures newBrk >= t.brkStart && t.pml4 != 0 ==>
      var cur := if old(t.brkStart) == 0 then 0x40_0000 else old(t.brkCurrent);
      if newBrk >= cur then
        CameBetween(old(v.ptes), v.ptes, t.pml4, cur, newBrk, r == newBrk && v.leaked == old(v.leaked))
      else WentBetween(old(v.ptes), v.ptes, t.pml4, newBrk, cur)
  {
    hide CameBetween;
    hide WentBetween;
    hide Vmm.Valid;
    hide Vmm.View;
    hide Vmm.Sturdy;
    hide Vmm.Harmed;
    hide PhysicalMemory.Pmm.Valid;
    hide PhysicalMemory.Pmm.Exhausted;
    hide Gone;
    hide GonePtes;
    hide Granted;
    hide Extended;
    hide AllMapped;
    hide InnerWindows;
    hide Grown;
    hide GrowNeed;
    hide OneMore;
    ValidPmm(v);
    if t.brkStart == 0 { t.brkStart, t.brkCurrent := USER_BRK_DEFAULT, USER_BRK_DEFAULT; }
    if newBrk == 0 || newBrk < t.brkStart { return t.brkCurrent; }
    var oldBrk := t.brkCurrent;
    NothingCame(v.ptes, t.pml4, oldBrk);
    SameBreak(v, t.pml4, PageUp(oldBrk));
    GrownMeans(v.pmm.Left(), v.sh.at.Keys, v.pmm.Left(), v.sh.at.Keys, v.ptes, t.pml4, PageUp(oldBrk), PageUp(oldBrk),
               true);
    if newBrk > oldBrk {
      if t.pml4 != 0 {
        ghost var V, ptes := v.View(), v.ptes;
        PtesSeen(v);
        var ok := GrowPages(v, t.pml4, PageUp(oldBrk), PageUp(newBrk));
        ValidPmm(v);
        PtesSeen(v);
        CameInBytes(V, v.View(), ptes, v.ptes, t.pml4, oldBrk, newBrk, ok && v.leaked == old(v.leaked));
        if !ok { return t.brkCurrent; }
      }
    } else if newBrk < oldBrk && t.pml4 != 0 {
      WentInBytes(v.ptes, t.pml4, newBrk, oldBrk);
      ShrinkPages(v, t.pml4, PageUp(newBrk), PageUp(oldBrk), false);
      SturdyIs(v);
    }
    t.brkCurrent := newBrk;
    return t.brkCurrent;
  }

  lemma ValidPmm(v: Vmm)
    requires v.Valid()
    ensures v.pmm.Valid()
  {
  }

  lemma NothingCame(ptes: map<Key, Pte>, r: nat, at: nat)
    ensures CameBetween(ptes, ptes, r, at, at, true)
  {
  }

  /** A break that stays where it is changes nothing. */
  lemma SameBreak(v: Vmm, r: nat, at: nat)
    requires v.Valid()
    ensures Extended(v.View(), v.View(), r, at, at) && Granted(v.ptes, v.ptes, true, USER + NX)
    ensures AllMapped(v.View(), r, at, at)
    ensures Grown(v.pmm.Left(), v.sh.at.Keys, v.pmm.Left(), v.sh.at.Keys, v.ptes, r, at, at, true)
  {
  }

  function BrkStart(start: nat): nat { if start == 0 then USER_BRK_DEFAULT else start }
  function BrkCurrent(start: nat, current: nat): nat { if start == 0 then USER_BRK_DEFAULT else current }

  /** sys_munmap, for ranges inside the user half. */
  method Munmap(v: Vmm, t: Task, addr: nat, length: nat) returns (r: int)
    requires v.Valid() && (t.pml4 != 0 ==> t.pml4 in v.spaces) && addr / PAGE_SIZE + PageUp(length) <= USER_PAGES
    modifies v`tables, v`ptes, v`pages, v.pmm, t`vmas
    ensures v.pmm.Valid() && v.pmm.totalMem == old(v.pmm.totalMem) && (r == 0 <==> t.pml4 != 0)
    ensures r != 0 ==> v.Valid() && v.View() == old(v.View()) && t.vmas == old(t.vmas) && unchanged(v.pmm)
    ensures r == 0 ==>
      var lo, hi := addr / PAGE_SIZE, addr / PAGE_SIZE + PageUp(length);
      && v.ptes == GonePtes(old(v.ptes), t.pml4, lo, hi) && Returned(old(v.pmm.Left()), v.pmm.Left())
      && (v.Valid() <==> InnerWindows(old(v.ptes), v.outside, t.pml4, lo, hi))
      && (v.Valid() ==> v.View() == old(v.View()).(slots := Gone(old(v.View()).slots, t.pml4, lo, hi)))
      && (v.Valid() || v.Harmed())
    ensures r == 0 ==> FirstRemoved(old(t.vmas), t.vmas, addr)
    ensures r == 0 ==> WentFrom(old(v.ptes), v.ptes, t.pml4, addr, length)
  {
    hide WentFrom;
    hide Vmm.Valid;
    hide Vmm.View;
    hide Vmm.Sturdy;
    hide Vmm.Harmed;
    hide PhysicalMemory.Pmm.Valid;
    hide Gone;
    hide GonePtes;
    hide InnerWindows;
    ValidPmm(v);
    if t.pml4 == 0 { return -1; }
    WentLength(v.ptes, t.pml4, addr, length);
    ShrinkPages(v, t.pml4, addr / PAGE_SIZE, addr / PAGE_SIZE + PageUp(length), true);
    SturdyIs(v);
    var i := 0;
    while i < |t.vmas|
      invariant 0 <= i <= |t.vmas| && t.vmas == old(t.vmas)
      invariant forall j :: 0 <= j < i ==> t.vmas[j].start != addr
    {
      if t.vmas[i].start == addr {
        t.vmas := t.vmas[..i] + t.vmas[i + 1..];
        assert RemovedAt(old(t.vmas), t.vmas, addr, i);
        return 0;
      }
      i := i + 1;
    }
    return 0;
  }

  ghost predicate RemovedAt(before: seq<Vma>, after: seq<Vma>, start: nat, i: nat) {
    i < |before| && before[i].start == start && after == before[..i] + before[i + 1..] &&
    forall j :: 0 <= j < i ==> before[j].start != start
  }

  /** The first VMA that starts at the address is off the list, if there is one. */
  ghost predicate FirstRemoved(before: seq<Vma>, after: seq<Vma>, start: nat) {
    || (exists i: nat :: RemovedAt(before, after, start, i))
    || (after == before && forall w :: w in before ==> w.start != start)
  }

  ghost predicate FirstHolding(vmas: seq<Vma>, addr: nat, i: int) {
    && 0 <= i < |vmas| && vmas[i].start <= addr < vmas[i].end
    && forall j :: 0 <= j < i ==> !(vmas[j].start <= addr < vmas[j].end)
  }

  /** The first VMA that holds the address. */
  method FindVma(vmas: seq<Vma>, addr: nat) returns (i: nat)
    ensures i <= |vmas|
    ensures if i < |vmas| then FirstHolding(vmas, addr, i) else forall w :: w in vmas ==> !(w.start <= addr < w.end)
  {
    i := 0;
    while i < |vmas|
      invariant 0 <= i <= |vmas|
      invariant forall j :: 0 <= j < i ==> !(vmas[j].start <= addr < vmas[j].end)
    {
      if vmas[i].start <= addr < vmas[i].end { return; }
      i := i + 1;
    }
  }

  /** vmm_handle_page_fault, for a page that is absent or copy-on-write.  A copy-on-write fault never
      changes what anybody sees, even when it runs out of memory and goes on to look for a VMA;
      a fault on an absent page brings a zeroed page, or nothing. */
  method PageFault(v: Vmm, t: Task, addr: nat, present: bool, write: bool) returns (ok: bool)
    requires v.Valid() && t.pml4 in v.spaces && addr < USER_TOP
    requires Key(t.pml4, addr / PAGE_SIZE) in v.ptes ==> present && write && v.ptes[Key(t.pml4, addr / PAGE_SIZE)].cow
    modifies v`tables, v`sh, v`ptes, v`pages, v`leaked, v.pmm
    ensures v.Valid() && v.pmm.totalMem == old(v.pmm.totalMem)
    ensures old(Key(t.pml4, addr / PAGE_SIZE) in v.ptes) ==> v.View() == old(v.View()) && v.leaked == old(v.leaked)
    ensures !ok ==> v.View() == old(v.View()) && v.ptes == old(v.ptes) && v.leaked == old(v.leaked)
    ensures !ok ==> unchanged(v.pmm) && v.sh.at.Keys == old(v.sh.at.Keys)
    ensures old(Key(t.pml4, addr / PAGE_SIZE) in v.ptes) ==>
      (ok <==> !old(Contended(v.ptes, Key(t.pml4, addr / PAGE_SIZE)) && v.pmm.Exhausted()))
    ensures old(Key(t.pml4, addr / PAGE_SIZE) in v.ptes) && ok ==>
      var k := Key(t.pml4, addr / PAGE_SIZE);
      && Owned(old(v.ptes), v.ptes, k) && v.sh.at.Keys == old(v.sh.at.Keys)
      && Drawn(old(v.pmm.Left()), v.pmm.Left(), if Contended(old(v.ptes), k) then 1 else 0, true)
    ensures old(Key(t.pml4, addr / PAGE_SIZE) !in v.ptes) ==>
      Extended(old(v.View()), v.View(), t.pml4, addr / PAGE_SIZE, addr / PAGE_SIZE + 1)
    ensures old(Key(t.pml4, addr / PAGE_SIZE) !in v.ptes) && (exists w :: w in t.vmas && w.start <= addr < w.end) ==>
      var k := Key(t.pml4, addr / PAGE_SIZE);
      && (ok <==> !old(v.pmm.Exhausted()))
      && Brought(old(v.pmm.Left()), old(v.sh.at.Keys), v.pmm.Left(), v.sh.at.Keys, k, k in v.ptes, old(v.leaked),
                 v.leaked)
      && exists i :: FirstHolding(t.vmas, addr, i) && Granted(old(v.ptes), v.ptes, t.vmas[i].write, Rights(t.vmas[i]))
    ensures old(Key(t.pml4, addr / PAGE_SIZE) !in v.ptes) && !(exists w :: w in t.vmas && w.start <= addr < w.end) ==>
      !ok
  {
    hide Missing;
    hide Paged;
    hide OneMore;
    hide Vmm.Books;
    hide Vmm.Structure;
    hide Inv;
    hide Abs;
    hide PhysicalMemory.Pmm.RefOf;
    var vpn := addr / PAGE_SIZE;
    ghost var m, k := v.M(), Key(t.pml4, vpn);
    SlotSeen(m, k);
    if present && write {
      ok := v.HandleCowFault(t.pml4, vpn);
      if ok { return; }
    }
    var i := FindVma(t.vmas, addr);
    if i == |t.vmas| { return false; }
    assert t.vmas[i] in t.vmas;
    if k in v.ptes {
      // Out of memory in the copy: there is no frame for a zeroed page either.
      assert v.pmm.Exhausted();
    }
    ok := DemandZero(v, t.pml4, vpn, t.vmas[i]);
  }

  /** The VMA half of the handler: a frame, its mapping, and zeroes. */
  method DemandZero(v: Vmm, r: nat, vpn: nat, w: Vma) returns (ok: bool)
    requires v.Valid() && r in v.spaces && vpn < USER_PAGES && (Key(r, vpn) in v.ptes ==> v.pmm.Exhausted())
    modifies v`tables, v`sh, v`ptes, v`pages, v`leaked, v.pmm
    ensures v.Valid() && v.pmm.totalMem == old(v.pmm.totalMem)
    ensures ok <==> !old(v.pmm.Exhausted())
    ensures !ok ==> v.View() == old(v.View()) && v.ptes == old(v.ptes) && v.leaked == old(v.leaked)
    ensures !ok ==> unchanged(v.pmm) && v.sh.at.Keys == old(v.sh.at.Keys)
    ensures ok ==> old(Key(r, vpn) !in v.ptes) && Extended(old(v.View()), v.View(), r, vpn, vpn + 1)
    ensures Granted(old(v.ptes), v.ptes, w.write, Rights(w))
    ensures old(Key(r, vpn) !in v.ptes) ==>
      Brought(old(v.pmm.Left()), old(v.sh.at.Keys), v.pmm.Left(), v.sh.at.Keys, Key(r, vpn), Key(r, vpn) in v.ptes,
              old(v.leaked), v.leaked)
  {
    hide Missing;
    hide Vmm.Books;
    hide Vmm.Structure;
    hide Inv;
    hide Abs;
    hide PhysicalMemory.Pmm.RefOf;
    ghost var a, at := v.pmm.Left(), v.sh.at.Keys;
    SlotSeen(v.M(), Key(r, vpn));
    var got, mapped := v.MapFresh(r, vpn, w.write, Rights(w));
    PagedMeans(a, at, v.pmm.Left(), v.sh.at.Keys, Key(r, vpn), mapped);
    return got;
  }
}
