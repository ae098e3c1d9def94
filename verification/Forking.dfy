/** vmm_fork_address_space (src/mem/vmm.c): a second set of tables that shares every page. */
module Forking {
  import opened CowMemory
  import opened PageTables
  import opened PageRights
  import B = Bits
  import opened AddressSpaces
  import opened Stocks
  import PhysicalMemory

  /** The view after a fork that reached the pages `done`: each of them is in both spaces. */
  ghost function ForkSlots(slots: map<Key, Slot>, src: nat, dst: nat, done: set<nat>): map<Key, Slot>
    requires forall v :: v in done ==> Key(src, v) in slots
  {
    map k | k in slots.Keys + (set v | v in done :: Key(dst, v)) ::
      if k.space == dst && k.vpn in done then slots[Key(src, k.vpn)] else slots[k]
  }

  lemma ForkSlotsMore(slots: map<Key, Slot>, src: nat, dst: nat, a: set<nat>, b: set<nat>)
    requires src != dst && forall v :: v in a + b ==> Key(src, v) in slots
    ensures ForkSlots(ForkSlots(slots, src, dst, a), src, dst, b) == ForkSlots(slots, src, dst, a + b)
  {
  }

  lemma ForkSlotsOne(slots: map<Key, Slot>, src: nat, dst: nat, v: nat)
    requires Key(src, v) in slots
    ensures ForkSlots(slots, src, dst, {v}) == slots[Key(dst, v) := slots[Key(src, v)]]
  {
  }

  ghost predicate Forked(before: Eager, after: Eager, src: nat, dst: nat, done: set<nat>) {
    (forall v :: v in done ==> Key(src, v) in before.slots) &&
    after == before.(slots := ForkSlots(before.slots, src, dst, done))
  }

  /** An entry after a fork: a window as it was, a page of one's own read-only and marked, its other flags kept. */
  ghost function ForkedEntry(e: Pte): Pte {
    if e.dontFree then e else Pte(e.frame, false, true, false, e.rest)
  }

  /** The entries after a fork that reached the pages `done`: parent and child have the same entry for each,
      read-only and marked unless it is a window. */
  ghost predicate Marked(before: map<Key, Pte>, after: map<Key, Pte>, src: nat, dst: nat, done: set<nat>) {
    && (forall v :: v in done ==> Key(src, v) in before)
    && after == map k | k in before.Keys + (set v | v in done :: Key(dst, v)) ::
         if (k.space == dst || k.space == src) && k.vpn in done then ForkedEntry(before[Key(src, k.vpn)]) else before[k]
  }

  lemma MarkedMore(a: map<Key, Pte>, b: map<Key, Pte>, c: map<Key, Pte>, src: nat, dst: nat, done: set<nat>,
                   more: set<nat>)
    requires src != dst && Marked(a, b, src, dst, done) && Marked(b, c, src, dst, more)
    ensures Marked(a, c, src, dst, done + more)
  {
    forall v | v in more ensures Key(src, v) in a { assert Key(src, v) in b; }
    forall k ensures k in c <==> k in a.Keys + (set v | v in done + more :: Key(dst, v)) {
      assert k in c <==> k in b || (k.space == dst && k.vpn in more && k == Key(dst, k.vpn));
      assert k in b <==> k in a || (k.space == dst && k.vpn in done && k == Key(dst, k.vpn));
    }
  }

  lemma MarkedOne(a: map<Key, Pte>, src: nat, dst: nat, v: nat)
    requires src != dst && Key(src, v) in a
    ensures Marked(a, a[Key(src, v) := CowFlags(a[Key(src, v)])][Key(dst, v) := CowFlags(a[Key(src, v)])], src, dst,
                   {v})
  {
  }

  lemma MarkedNothing(a: map<Key, Pte>, src: nat, dst: nat)
    ensures Marked(a, a, src, dst, {})
  {
  }

  lemma ForkedMore(a: Eager, b: Eager, c: Eager, src: nat, dst: nat, done: set<nat>, more: set<nat>)
    requires src != dst && Forked(a, b, src, dst, done) && Forked(b, c, src, dst, more)
    ensures Forked(a, c, src, dst, done + more)
  {
    forall v | v in more ensures Key(src, v) in a.slots { assert Key(src, v) in b.slots; }
    ForkSlotsMore(a.slots, src, dst, done, more);
  }

  /** Only entry `i` of the tables `ts` may differ. */
  ghost predicate OnlySlots(before: Tables, after: Tables, ts: set<nat>, i: nat) {
    before.Keys == after.Keys &&
    (forall t :: t in after ==> |after[t]| == |before[t]|) &&
    (forall t, j :: t in after && 0 <= j < |after[t]| && (t !in ts || j != i) ==> after[t][j] == before[t][j])
  }

  lemma OnlyTwoSlots(T: Tables, s: nat, d: nat, i: nat, e: Entry, f: Entry)
    requires s in T && d in T && s != d && i < |T[s]| && i < |T[d]|
    ensures OnlySlots(T, SetEntry(SetEntry(T, s, i, e), d, i, f), {s, d}, i)
    ensures OnlySlots(T, SetEntry(T, d, i, f), {s, d}, i)
  {
  }

  lemma OtherSlots(before: Tables, after: Tables, s: nat, d: nat, i: nat)
    requires OnlySlots(before, after, {s, d}, i) && s in before && d in before
    ensures s in after && |after[s]| == |before[s]| && d in after && |after[d]| == |before[d]|
    ensures forall j :: 0 <= j < |after[d]| && j != i ==> after[d][j] == before[d][j]
  {
  }

  lemma UserEntry(v: Vmm, k: Key)
    requires v.Valid() && k in v.ptes
    ensures v.userOnly ==> UserMode(v.ptes[k])
  {
    assert Lookup(v.tables, v.sh, k).Some?;
    At(v.tables, v.sh, v.spaces, PathPos(k, 1));
    v.EntryUserMode(k);
  }

  lemma RefRoom(v: Vmm, f: nat)
    requires v.Valid() && f in v.pages
    ensures f in v.pmm.Live() && v.pmm.RefOf(f) + 1 < PhysicalMemory.U32
  {
    AccountsLive(v.pmm.Live(), v.outside, v.tables.Keys, v.pages.Keys, v.leaked, v.shared.Keys);
    forall t | t in v.sh.pos ensures t % PAGE_SIZE == 0 && t / PAGE_SIZE < PhysicalMemory.MAX_PHYS_PAGES {
      assert t in v.tables.Keys;
      v.pmm.LiveFrame(t);
    }
    FewUsers(v.tables, v.sh, v.spaces, v.ptes, f);
    assert FrameOk(v.M(), f);
  }

  /** A page shared by a fork, seen from the memory before and after it. */
  lemma PageShared(m: Mem, n: Mem, src: Key, dst: Key)
    requires Inv(m) && src.space != dst.space && src.vpn == dst.vpn && src in m.ptes && dst !in m.ptes
    requires m.ptes[src].dontFree || m.ptes[src].frame in m.refs
    requires var e := CowFlags(m.ptes[src]);
      n == Mem(m.ptes[src := e][dst := e],
               if e.dontFree then m.refs else m.refs[e.frame := m.refs[e.frame] + 1], m.pages, m.shared)
    ensures Inv(n) && Forked(Abs(m), Abs(n), src.space, dst.space, {src.vpn})
    ensures Marked(m.ptes, n.ptes, src.space, dst.space, {src.vpn})
  {
    hide Inv;
    hide Abs;
    hide ForkSlots;
    hide Marked;
    SlotSeen(m, src);
    ShareStep(m, src, dst);
    ForkSlotsOne(Abs(m).slots, src.space, dst.space, src.vpn);
    MarkedOne(m.ptes, src.space, dst.space, src.vpn);
  }

  /** The innermost step of the fork: one page, now in both spaces. */
  method ShareEntry(v: Vmm, s: nat, d: nat, i: nat, ghost src: Key, ghost dst: Key)
    requires v.Valid() && src.space != dst.space && src.vpn == dst.vpn && i == src.vpn % 512
    requires PathPos(src, 1) in v.sh.at && v.sh.at[PathPos(src, 1)] == s && s in v.tables && |v.tables[s]| == ENTRIES
    requires PathPos(dst, 1) in v.sh.at && v.sh.at[PathPos(dst, 1)] == d && d in v.tables && |v.tables[d]| == ENTRIES
    requires v.tables[s][i].Some? && s != d && src in v.ptes && v.tables[s][i].value == v.ptes[src] && dst !in v.ptes
    modifies v`tables, v`ptes, v.pmm`refs
    ensures v.Valid() && v.pmm.totalMem == old(v.pmm.totalMem)
    ensures Forked(old(v.View()), v.View(), src.space, dst.space, {src.vpn})
    ensures Marked(old(v.ptes), v.ptes, src.space, dst.space, {src.vpn})
    ensures OnlySlots(old(v.tables), v.tables, {s, d}, i)
  {
    hide Vmm.Books;
    hide Vmm.Structure;
    hide PhysicalMemory.Pmm.Valid;
    hide PhysicalMemory.Pmm.Live;
    hide PhysicalMemory.Pmm.RefOf;
    hide Inv;
    hide Abs;
    hide Span;
    hide OnlySlots;
    hide ForkSlots;
    hide Marked;
    hide Forked;
    ghost var m := v.M();
    var e := v.tables[s][i].value;
    OnlyTwoSlots(v.tables, s, d, i, Some(CowFlags(e)), Some(CowFlags(e)));
    EntryFacts(m, src);
    UserEntry(v, src);
    if !e.dontFree {
      RefRoom(v, e.frame);
      v.SetPte(s, i, Some(CowFlags(e)), src);
      AddRef(v, e.frame);
    } else {
      assert v.ptes[src := CowFlags(e)] == v.ptes;
    }
    v.SetPte(d, i, Some(CowFlags(e)), dst);
    PageShared(m, v.M(), src, dst);
  }

  /** pmm_page_ref on a user page. */
  method AddRef(v: Vmm, f: nat)
    requires v.ShapeValid() && f in v.pages && v.pmm.RefOf(f) + 1 < PhysicalMemory.U32
    modifies v.pmm`refs
    ensures v.ShapeValid() && v.M() == old(v.M()).(refs := old(v.M()).refs[f := old(v.pmm.RefOf(f)) + 1])
    ensures v.pmm.totalMem == old(v.pmm.totalMem)
  {
    hide TablesOk;
    hide PtesOk;
    hide RootsOk;
    hide Accounts;
    hide PhysicalMemory.Pmm.Valid;
    hide PhysicalMemory.Pmm.Live;
    hide PhysicalMemory.Pmm.AllDescribed;
    hide PhysicalMemory.Pmm.RefOf;
    AccountsLive(v.pmm.Live(), v.outside, v.tables.Keys, v.pages.Keys, v.leaked, v.shared.Keys);
    v.pmm.RefFrame(f);
    assert v.M().refs == old(v.M()).refs[f := old(v.pmm.RefOf(f)) + 1];
  }

  /** The pages from `lo` up to `hi` that are mapped in a space. */
  ghost function Mapped(slots: map<Key, Slot>, space: nat, lo: nat, hi: nat): set<nat> {
    set x | lo <= x < hi && Key(space, x) in slots
  }

  lemma MappedJoin(slots: map<Key, Slot>, space: nat, lo: nat, mid: nat, hi: nat)
    requires lo <= mid <= hi
    ensures Mapped(slots, space, lo, mid) + Mapped(slots, space, mid, hi) == Mapped(slots, space, lo, hi)
  {
  }

  /** Forking leaves the parent's own map of pages alone. */
  lemma ForkedKeepsSource(before: Eager, after: Eager, src: nat, dst: nat, done: set<nat>, lo: nat, hi: nat)
    requires src != dst && Forked(before, after, src, dst, done)
    ensures Mapped(after.slots, src, lo, hi) == Mapped(before.slots, src, lo, hi)
  {
  }

  lemma ForkedNothing(e: Eager, src: nat, dst: nat)
    ensures Forked(e, e, src, dst, {})
  {
    assert ForkSlots(e.slots, src, dst, {}) == e.slots;
  }

  /** An entry of a page table is the entry of its page. */
  lemma EntryOfPage(v: Vmm, p: Pos, i: nat)
    requires v.ShapeValid() && p in v.sh.at && p.level == 1 && i < 512
    ensures v.sh.at[p] in v.tables && |v.tables[v.sh.at[p]]| == ENTRIES && p.base % 512 == 0
    ensures var k, e := Key(p.space, p.base + i), v.tables[v.sh.at[p]][i];
            PathPos(k, 1) == p && k.vpn % 512 == i && (e.Some? <==> k in v.ptes) && (e.Some? ==> e.value == v.ptes[k])
  {
    At(v.tables, v.sh, v.spaces, p);
    hide TablesOk, RootsOk, Vmm.Books;
    LeafEntry(v.tables, v.sh, v.spaces, p, i);
    hide Lookup;
    LeafPath(p, i);
  }

  /** The fork of one page table. */
  method ForkPt(v: Vmm, s: nat, d: nat, ghost sp: Pos, ghost dp: Pos) returns (ghost done: set<nat>)
    requires v.Valid() && sp in v.sh.at && dp in v.sh.at && v.sh.at[sp] == s && v.sh.at[dp] == d
    requires sp.level == 1 && dp == Pos(dp.space, 1, sp.base) && sp.space != dp.space
    requires d in v.tables && forall i :: 0 <= i < |v.tables[d]| ==> v.tables[d][i].None?
    modifies v`tables, v`ptes, v.pmm`refs
    ensures v.Valid() && v.pmm.totalMem == old(v.pmm.totalMem)
    ensures done == Mapped(old(v.View()).slots, sp.space, sp.base, sp.base + 512)
    ensures Forked(old(v.View()), v.View(), sp.space, dp.space, done)
    ensures Marked(old(v.ptes), v.ptes, sp.space, dp.space, done)
  {
    hide Vmm.Books;
    hide Vmm.Structure;
    hide PhysicalMemory.Pmm.Valid;
    hide PhysicalMemory.Pmm.Live;
    hide PhysicalMemory.Pmm.RefOf;
    hide Inv;
    hide Abs;
    hide Span;
    hide Forked;
    hide Marked;
    hide OnlySlots;
    ghost var V := v.View();
    done := {};
    ForkedNothing(V, sp.space, dp.space);
    MarkedNothing(v.ptes, sp.space, dp.space);
    TwoTables(v, sp, dp);
    for i := 0 to 512
      invariant v.Valid() && v.pmm.totalMem == old(v.pmm.totalMem)
      invariant s in v.tables && |v.tables[s]| == ENTRIES && d in v.tables && |v.tables[d]| == ENTRIES
      invariant forall j :: i <= j < ENTRIES ==> v.tables[d][j].None?
      invariant done == Mapped(V.slots, sp.space, sp.base, sp.base + i)
      invariant Forked(V, v.View(), sp.space, dp.space, done)
      invariant Marked(old(v.ptes), v.ptes, sp.space, dp.space, done)
    {
      ghost var src, dst := Key(sp.space, sp.base + i), Key(dp.space, dp.base + i);
      EntryOfPage(v, sp, i);
      EntryOfPage(v, dp, i);
      SlotSeen(v.M(), src);
      ForkedKeepsSource(V, v.View(), sp.space, dp.space, done, sp.base + i, sp.base + i + 1);
      MappedJoin(V.slots, sp.space, sp.base, sp.base + i, sp.base + i + 1);
      if v.tables[s][i].Some? {
        ghost var W, T, Q := v.View(), v.tables, v.ptes;
        ShareEntry(v, s, d, i, src, dst);
        MarkedMore(old(v.ptes), Q, v.ptes, sp.space, dp.space, done, {src.vpn});
        ForkedMore(V, W, v.View(), sp.space, dp.space, done, {src.vpn});
        assert Mapped(W.slots, sp.space, sp.base + i, sp.base + i + 1) == {src.vpn};
        OtherSlots(T, v.tables, s, d, i);
        done := done + {src.vpn};
      } else {
        assert Mapped(v.View().slots, sp.space, sp.base + i, sp.base + i + 1) == {};
      }
    }
  }

  lemma TwoTables(v: Vmm, p: Pos, q: Pos)
    requires v.ShapeValid() && p in v.sh.at && q in v.sh.at && p != q
    ensures v.sh.at[p] in v.tables && |v.tables[v.sh.at[p]]| == ENTRIES
    ensures v.sh.at[q] in v.tables && |v.tables[v.sh.at[q]]| == ENTRIES
    ensures v.sh.at[p] != v.sh.at[q]
  {
    At(v.tables, v.sh, v.spaces, p);
    At(v.tables, v.sh, v.spaces, q);
  }

  // ---- the upper levels

  /** No table sits below the one at `p` from page `lo` on. */
  ghost predicate NothingBelow(sh: Shape, p: Pos, lo: nat) {
    forall q :: q in sh.at && q.space == p.space && q.level < p.level && p.Covers(q.base) ==> q.base < lo
  }

  /** Tables were added below the one at `p`, before page `hi`, and nowhere else. */
  ghost predicate GrownBelow(before: Shape, after: Shape, p: Pos, hi: nat) {
    && (forall q :: q in before.at ==> q in after.at && after.at[q] == before.at[q])
    && (forall q ::
          q in after.at && q !in before.at ==> q.space == p.space && q.level < p.level && p.base <= q.base < hi)
  }

  /** A new, empty table in slot `i`: nothing is below it, and nothing new is anywhere else. */
  lemma GrowOne(sh: Shape, now: Shape, dp: Pos, i: nat, c: nat)
    requires 2 <= dp.level <= 4 && NothingBelow(sh, dp, dp.base) && GrownBelow(sh, now, dp, Edge(dp, i))
    requires i < Fanout(dp.level)
    requires Child(dp, i) !in now.at
    ensures NothingBelow(LinkShape(now, dp, i, c), Child(dp, i), Child(dp, i).base)
    ensures GrownBelow(sh, LinkShape(now, dp, i, c), dp, Edge(dp, i + 1))
  {
    EdgeStep(dp, i);
    SpanPositive(dp.level - 1);
    EdgeMono(dp, 0, i);
    CoverChild(dp, i);
    hide Span;
    forall q | q in now.at && q.space == dp.space && q.level < dp.level - 1 ensures !Child(dp, i).Covers(q.base) {
      assert Child(dp, i).Covers(q.base) ==> dp.Covers(q.base);
    }
  }

  /** A slot's pages are among the table's. */
  lemma CoverChild(p: Pos, i: nat)
    requires 2 <= p.level <= 4 && i < Fanout(p.level)
    ensures forall x :: Child(p, i).Covers(x) ==> p.Covers(x)
  {
    SpanStep(p.level);
    EdgeStep(p, i);
    assert (i + 1) * Span(p.level - 1) <= 512 * Span(p.level - 1) by {
      if i + 1 < 512 { B.MulLess(i + 1, 512, Span(p.level - 1)); }
    }
  }

  lemma GrowMore(sh: Shape, mid: Shape, now: Shape, dp: Pos, i: nat)
    requires 2 <= dp.level <= 4 && i < Fanout(dp.level)
    requires GrownBelow(sh, mid, dp, Edge(dp, i + 1)) && GrownBelow(mid, now, Child(dp, i), End(Child(dp, i)))
    ensures GrownBelow(sh, now, dp, Edge(dp, i + 1))
  {
    EdgeStep(dp, i);
    EdgeMono(dp, 0, i);
  }

  lemma EmptyStretch(v: Vmm, p: Pos, i: nat)
    requires v.Valid() && p in v.sh.at && 2 <= p.level <= 4 && i < Fanout(p.level)
    requires v.sh.at[p] in v.tables && i < |v.tables[v.sh.at[p]]| && v.tables[v.sh.at[p]][i].None?
    ensures Mapped(v.View().slots, p.space, Edge(p, i), Edge(p, i + 1)) == {}
  {
    At(v.tables, v.sh, v.spaces, p);
    EdgeStep(p, i);
    forall x: nat | Edge(p, i) <= x < Edge(p, i + 1) ensures Key(p.space, x) !in v.View().slots {
      EmptySlot(v.tables, v.sh, v.spaces, p, i, x);
      assert Lookup(v.tables, v.sh, Key(p.space, x)).None?;
      SlotSeen(v.M(), Key(p.space, x));
    }
  }

  /** Both sides of slot `i` of a pair of tables under fork. */
  lemma PairSlot(v: Vmm, sp: Pos, dp: Pos, i: nat)
    requires v.ShapeValid() && sp in v.sh.at && dp in v.sh.at && sp != dp && 2 <= sp.level <= 4 && dp.level == sp.level
    requires i < Fanout(sp.level)
    requires NothingBelow(v.sh, dp, Edge(dp, i))
    ensures v.sh.at[sp] in v.tables && |v.tables[v.sh.at[sp]]| == ENTRIES
    ensures v.sh.at[dp] in v.tables && |v.tables[v.sh.at[dp]]| == ENTRIES && v.tables[v.sh.at[dp]][i].None?
    ensures var e := v.tables[v.sh.at[sp]][i];
      e.Some? ==>
        && Child(sp, i) in v.sh.at && v.sh.at[Child(sp, i)] == e.value.frame
        && e.value.write && (v.userOnly ==> UserMode(e.value.(rest := e.value.rest % 4096)))
  {
    TwoTables(v, sp, dp);
    assert SlotOpen(v.tables, v.sh, sp, i, v.userOnly);
    if v.tables[v.sh.at[sp]][i].Some? { LowFlags(v.tables[v.sh.at[sp]][i].value); }
    assert LinkOk(v.tables, v.sh, sp, i) && LinkOk(v.tables, v.sh, dp, i);
    EdgeStep(dp, i);
    CoverChild(dp, i);
    SpanPositive(dp.level - 1);
    if Child(dp, i) in v.sh.at {
      assert Child(dp, i).Covers(Child(dp, i).base);
    }
  }

  lemma StillNothing(sh: Shape, now: Shape, dp: Pos, i: nat)
    requires 1 <= dp.level <= 4 && NothingBelow(sh, dp, dp.base) && GrownBelow(sh, now, dp, Edge(dp, i))
    ensures NothingBelow(now, dp, Edge(dp, i))
  {
    EdgeMono(dp, 0, i);
  }

  // ---- how many tables a fork takes

  /** The places of tables below the one at `p`, for pages from `lo` to `hi`. */
  ghost function Below(at: set<Pos>, p: Pos, lo: nat, hi: nat): set<Pos> {
    set q | q in at && q.space == p.space && q.level < p.level && lo <= q.base < hi
  }

  lemma BelowJoin(at: set<Pos>, p: Pos, lo: nat, mid: nat, hi: nat)
    requires lo <= mid <= hi
    ensures |Below(at, p, lo, hi)| == |Below(at, p, lo, mid)| + |Below(at, p, mid, hi)|
  {
    assert Below(at, p, lo, hi) == Below(at, p, lo, mid) + Below(at, p, mid, hi);
  }

  lemma BelowNone(at: set<Pos>, p: Pos, lo: nat)
    ensures Below(at, p, lo, lo) == {}
  {
  }

  lemma NoneBelowLeaf(T: Tables, sh: Shape, spaces: set<nat>, p: Pos, lo: nat, hi: nat)
    requires TablesOk(T, sh, spaces) && p.level == 1
    ensures Below(sh.at.Keys, p, lo, hi) == {}
  {
    forall q | q in Below(sh.at.Keys, p, lo, hi) ensures false { At(T, sh, spaces, q); }
  }

  /** A table below `p` and above the pages of slot `i` is the one in the slot, or below it. */
  lemma InSlot(T: Tables, sh: Shape, spaces: set<nat>, p: Pos, i: nat, q: Pos)
    requires TablesOk(T, sh, spaces) && 2 <= p.level <= 4 && i < Fanout(p.level) && p in sh.at
    requires q in Below(sh.at.Keys, p, Edge(p, i), Edge(p, i + 1))
    ensures Child(p, i) in sh.at && (q == Child(p, i) || q.level < p.level - 1)
  {
    At(T, sh, spaces, p);
    At(T, sh, spaces, q);
    EdgeStep(p, i);
    ChildRange(p, i);
    CoverPath(Child(p, i), q.base);
    SpanPositive(q.level);
    OwnPath(q);
    PathUp(T, sh, spaces, Key(q.space, q.base), q.level, p.level - 1);
  }

  lemma OwnPath(q: Pos)
    requires Span(q.level) > 0 && q.base % Span(q.level) == 0
    ensures PathPos(Key(q.space, q.base), q.level) == q
  {
  }

  /** The tables of one slot: none, or the one in it and those below that. */
  lemma SlotTables(T: Tables, sh: Shape, spaces: set<nat>, p: Pos, i: nat)
    requires TablesOk(T, sh, spaces) && 2 <= p.level <= 4 && i < Fanout(p.level) && p in sh.at
    ensures var c := Child(p, i);
            |Below(sh.at.Keys, p, Edge(p, i), Edge(p, i + 1))| ==
              if c in sh.at then 1 + |Below(sh.at.Keys, c, c.base, End(c))| else 0
  {
    var at, c := sh.at.Keys, Child(p, i);
    EdgeStep(p, i);
    SpanPositive(p.level - 1);
    forall q | q in Below(at, p, Edge(p, i), Edge(p, i + 1)) ensures c in at && (q == c || q.level < c.level) {
      InSlot(T, sh, spaces, p, i, q);
    }
    if c in at {
      assert Below(at, p, Edge(p, i), Edge(p, i + 1)) == {c} + Below(at, c, c.base, End(c));
    } else {
      assert Below(at, p, Edge(p, i), Edge(p, i + 1)) == {};
    }
  }

  /** The child's tables are where its parent has some. */
  ghost predicate Mirrors(before: set<Pos>, after: set<Pos>, src: nat, dst: nat) {
    before <= after &&
    forall q :: q in after && q !in before ==> q.space == dst && Pos(src, q.level, q.base) in before
  }

  lemma MirrorsMore(a: set<Pos>, b: set<Pos>, c: set<Pos>, src: nat, dst: nat)
    requires Mirrors(a, b, src, dst) && Mirrors(b, c, src, dst) && src != dst
    ensures Mirrors(a, c, src, dst)
  {
  }

  lemma NoMirror(at: set<Pos>, src: nat, dst: nat)
    ensures Mirrors(at, at, src, dst)
  {
  }

  lemma MirrorsOne(at: set<Pos>, src: nat, q: Pos)
    requires Pos(src, q.level, q.base) in at
    ensures Mirrors(at, at + {q}, src, q.space)
  {
  }

  lemma SameBelow(a: set<Pos>, b: set<Pos>, p: Pos, dst: nat, lo: nat, hi: nat)
    requires Mirrors(a, b, p.space, dst) && p.space != dst
    ensures Below(b, p, lo, hi) == Below(a, p, lo, hi)
  {
  }

  /** The places of the tables of a space, its root included. */
  ghost function TablesOf(at: set<Pos>, r: nat): set<Pos> { set q | q in at && q.space == r }

  lemma RootAndBelow(T: Tables, sh: Shape, spaces: set<nat>, r: nat)
    requires TablesOk(T, sh, spaces) && Pos(r, 4, 0) in sh.at
    ensures |TablesOf(sh.at.Keys, r)| == 1 + |Below(sh.at.Keys, Pos(r, 4, 0), 0, USER_PAGES)|
  {
    var at, p := sh.at.Keys, Pos(r, 4, 0);
    forall q | q in TablesOf(at, r) && q != p ensures q in Below(at, p, 0, USER_PAGES) {
      At(T, sh, spaces, q);
      SpanPositive(q.level);
    }
    assert TablesOf(at, r) == {p} + Below(at, p, 0, USER_PAGES);
  }

  /** The nested loops of the fork below one pair of tables.  `full` says that no table allocation failed; as many
      are made as the parent has tables there. */
  method ForkLevel(v: Vmm, s: nat, d: nat, level: nat, ghost sp: Pos,
                   ghost dp: Pos) returns (ghost done: set<nat>, ghost full: bool)
    requires v.Valid() && sp in v.sh.at && dp in v.sh.at && v.sh.at[sp] == s && v.sh.at[dp] == d
    requires 1 <= level <= 4 && sp.level == level && dp == Pos(dp.space, level, sp.base) && sp.space != dp.space
    requires NothingBelow(v.sh, dp, dp.base)
    requires level == 1 ==> d in v.tables && forall i :: 0 <= i < |v.tables[d]| ==> v.tables[d][i].None?
    modifies v`tables, v`ptes, v`sh, v.pmm
    ensures v.Valid() && v.pmm.totalMem == old(v.pmm.totalMem)
    ensures GrownBelow(old(v.sh), v.sh, dp, End(dp))
    ensures done <= Mapped(old(v.View()).slots, sp.space, sp.base, End(sp))
    ensures full ==> done == Mapped(old(v.View()).slots, sp.space, sp.base, End(sp))
    ensures Drawn(old(v.pmm.Left()), v.pmm.Left(), |Below(old(v.sh.at.Keys), sp, sp.base, End(sp))|, full)
    ensures Mirrors(old(v.sh.at.Keys), v.sh.at.Keys, sp.space, dp.space)
    ensures Forked(old(v.View()), v.View(), sp.space, dp.space, done)
    ensures Marked(old(v.ptes), v.ptes, sp.space, dp.space, done)
    decreases level
  {
    hide Vmm.Books;
    hide Vmm.Structure;
    hide PhysicalMemory.Pmm.Valid;
    hide PhysicalMemory.Pmm.Live;
    hide PhysicalMemory.Pmm.RefOf;
    hide Inv;
    hide Abs;
    hide Span;
    hide Forked;
    hide Marked;
    hide NothingBelow;
    hide GrownBelow;
    hide Mapped;
    hide Drawn;
    hide Below;
    ghost var V, S, a, at := v.View(), v.sh, v.pmm.Left(), v.sh.at.Keys;
    NotGrown(S, dp, Edge(dp, 0));
    if level == 1 {
      NoTablesBelow(v, sp);
      EdgeStep(sp, 0);
      EdgeStep(dp, 0);
      NotGrown(S, dp, End(dp));
      SpanOne();
      done := ForkPt(v, s, d, sp, dp);
      full := true;
      return;
    }
    done, full := {}, true;
    ForkedNothing(V, sp.space, dp.space);
    MarkedNothing(v.ptes, sp.space, dp.space);
    MappedNone(V.slots, sp.space, sp.base);
    EdgeStep(sp, 0);
    BelowNone(at, sp, sp.base);
    NothingDrawn(a);
    for i := 0 to Fanout(level)
      invariant v.Valid() && v.pmm.totalMem == old(v.pmm.totalMem)
      invariant GrownBelow(S, v.sh, dp, Edge(dp, i))
      invariant done <= Mapped(V.slots, sp.space, sp.base, Edge(sp, i))
      invariant full ==> done == Mapped(V.slots, sp.space, sp.base, Edge(sp, i))
      invariant Drawn(a, v.pmm.Left(), |Below(at, sp, sp.base, Edge(sp, i))|, full)
      invariant Mirrors(at, v.sh.at.Keys, sp.space, dp.space)
      invariant Forked(V, v.View(), sp.space, dp.space, done)
      invariant Marked(old(v.ptes), v.ptes, sp.space, dp.space, done)
    {
      ghost var Q, b, at1 := v.ptes, v.pmm.Left(), v.sh.at.Keys;
      ghost var more, ok := ForkSlot(v, s, d, level, i, sp, dp, S, V, done);
      SameBelow(at, at1, sp, dp.space, Edge(sp, i), Edge(sp, i + 1));
      MirrorsMore(at, at1, v.sh.at.Keys, sp.space, dp.space);
      MarkedMore(old(v.ptes), Q, v.ptes, sp.space, dp.space, done, more);
      EdgeStep(sp, i);
      EdgeMono(sp, 0, i);
      MappedJoin(V.slots, sp.space, sp.base, Edge(sp, i), Edge(sp, i + 1));
      BelowJoin(at, sp, sp.base, Edge(sp, i), Edge(sp, i + 1));
      DrawnMore(a, b, v.pmm.Left(), |Below(at, sp, sp.base, Edge(sp, i))|,
                |Below(at, sp, Edge(sp, i), Edge(sp, i + 1))|, full, ok);
      done, full := done + more, full && ok;
    }
  }

  lemma NothingDrawn(a: Stock)
    ensures Drawn(a, a, 0, true)
  {
  }

  lemma NoTablesBelow(v: Vmm, p: Pos)
    requires v.Valid() && p.level == 1
    ensures Below(v.sh.at.Keys, p, p.base, End(p)) == {} && Drawn(v.pmm.Left(), v.pmm.Left(), 0, true)
  {
    NoneBelowLeaf(v.tables, v.sh, v.spaces, p, p.base, End(p));
  }

  lemma NotGrown(sh: Shape, p: Pos, hi: nat)
    ensures GrownBelow(sh, sh, p, hi)
  {
  }

  lemma MappedNone(slots: map<Key, Slot>, space: nat, lo: nat)
    ensures Mapped(slots, space, lo, lo) == {}
  {
  }

  /** A new table for a slot and then all that is below it: what they take, and where they are. */
  lemma SlotTakes(a: Stock, b: Stock, c: Stock, at: set<Pos>, at': set<Pos>, sq: Pos, dq: Pos, ok: bool)
    requires Took(a, b, 1) && sq in at && sq.level >= 1 && dq == Pos(dq.space, sq.level, sq.base)
    requires dq.space != sq.space && Mirrors(at + {dq}, at', sq.space, dq.space)
    requires Drawn(b, c, |Below(at + {dq}, sq, sq.base, End(sq))|, ok)
    ensures Drawn(a, c, 1 + |Below(at, sq, sq.base, End(sq))|, ok) && Mirrors(at, at', sq.space, dq.space)
  {
    hide Drawn, Below, Mirrors;
    OneDrawn(a, b);
    MirrorsOne(at, sq.space, dq);
    SameBelow(at, at + {dq}, sq, dq.space, sq.base, End(sq));
    MirrorsMore(at, at + {dq}, at', sq.space, dq.space);
    DrawnMore(a, b, c, 1, |Below(at, sq, sq.base, End(sq))|, true, ok);
  }

  /** One slot of the loop. */
  method ForkSlot(v: Vmm, s: nat, d: nat, level: nat, i: nat, ghost sp: Pos, ghost dp: Pos, ghost S: Shape,
                  ghost V: Eager, ghost done: set<nat>)
    returns (ghost more: set<nat>, ghost ok: bool)
    requires v.Valid() && 2 <= level <= 4 && i < Fanout(level)
    requires sp.level == level && dp == Pos(dp.space, level, sp.base) && sp.space != dp.space
    requires sp in S.at && dp in S.at && S.at[sp] == s && S.at[dp] == d
    requires NothingBelow(S, dp, dp.base) && GrownBelow(S, v.sh, dp, Edge(dp, i))
    requires Forked(V, v.View(), sp.space, dp.space, done)
    modifies v`tables, v`ptes, v`sh, v.pmm
    ensures v.Valid() && v.pmm.totalMem == old(v.pmm.totalMem)
    ensures GrownBelow(S, v.sh, dp, Edge(dp, i + 1))
    ensures more <= Mapped(V.slots, sp.space, Edge(sp, i), Edge(sp, i + 1))
    ensures ok ==> more == Mapped(V.slots, sp.space, Edge(sp, i), Edge(sp, i + 1))
    ensures Drawn(old(v.pmm.Left()), v.pmm.Left(), |Below(old(v.sh.at.Keys), sp, Edge(sp, i), Edge(sp, i + 1))|, ok)
    ensures Mirrors(old(v.sh.at.Keys), v.sh.at.Keys, sp.space, dp.space)
    ensures Forked(V, v.View(), sp.space, dp.space, done + more)
    ensures Marked(old(v.ptes), v.ptes, sp.space, dp.space, more)
    decreases level, 0
  {
    hide Vmm.Books;
    hide Vmm.Structure;
    hide PhysicalMemory.Pmm.Valid;
    hide PhysicalMemory.Pmm.Live;
    hide PhysicalMemory.Pmm.RefOf;
    hide Inv;
    hide Abs;
    hide Span;
    hide Forked;
    hide Marked;
    hide NothingBelow;
    hide Mapped;
    hide Below;
    hide Drawn;
    hide Took;
    hide Mirrors;
    hide Edge;
    hide UserMode;
    StillNothing(S, v.sh, dp, i);
    PairSlot(v, sp, dp, i);
    EdgeStep(sp, i);
    EdgeStep(dp, i);
    GrownFurther(S, v.sh, dp, Edge(dp, i), Edge(dp, i + 1));
    ForkedKeepsSource(V, v.View(), sp.space, dp.space, done, Edge(sp, i), Edge(sp, i + 1));
    more, ok := {}, true;
    MarkedNothing(v.ptes, sp.space, dp.space);
    ghost var a, at := v.pmm.Left(), v.sh.at.Keys;
    SlotCount(v, sp, i);
    NothingDrawn(a);
    NoMirror(at, sp.space, dp.space);
    if v.tables[s][i].None? {
      EmptyStretch(v, sp, i);
      assert done + {} == done;
      return;
    }
    var e := v.tables[s][i].value;
    ghost var W, now := v.View(), v.sh;
    var c := v.NewTable(d, i, e.(rest := e.rest % 4096), dp);
    if c == 0 {
      assert done + {} == done;
      NothingLeft(a, |Below(at, sp, Edge(sp, i), Edge(sp, i + 1))|);
      ok := false;
      return;
    }
    GrowOne(S, now, dp, i, c);
    hide GrownBelow;
    ghost var b := v.pmm.Left();
    assert v.sh.at.Keys == at + {Child(dp, i)};
    more, ok := ForkLevel(v, e.frame, c, level - 1, Child(sp, i), Child(dp, i));
    SlotTakes(a, b, v.pmm.Left(), at, v.sh.at.Keys, Child(sp, i), Child(dp, i), ok);
    GrowMore(S, LinkShape(now, dp, i, c), v.sh, dp, i);
    ForkedMore(V, W, v.View(), sp.space, dp.space, done, more);
  }

  lemma OneDrawn(a: Stock, b: Stock)
    requires Took(a, b, 1)
    ensures Drawn(a, b, 1, true)
  {
  }

  lemma NothingLeft(a: Stock, need: nat)
    requires a.free == 0 && need > 0
    ensures Drawn(a, a, need, false)
  {
    assert Took(a, a, 0);
  }

  lemma SlotCount(v: Vmm, p: Pos, i: nat)
    requires v.ShapeValid() && p in v.sh.at && 2 <= p.level <= 4 && i < Fanout(p.level)
    ensures v.sh.at[p] in v.tables && |v.tables[v.sh.at[p]]| == ENTRIES
    ensures var c := Child(p, i);
            |Below(v.sh.at.Keys, p, Edge(p, i), Edge(p, i + 1))| ==
              if v.tables[v.sh.at[p]][i].Some? then 1 + |Below(v.sh.at.Keys, c, c.base, End(c))| else 0
  {
    At(v.tables, v.sh, v.spaces, p);
    assert LinkOk(v.tables, v.sh, p, i);
    SlotTables(v.tables, v.sh, v.spaces, p, i);
  }

  lemma GrownFurther(sh: Shape, now: Shape, p: Pos, a: nat, b: nat)
    requires GrownBelow(sh, now, p, a) && a <= b
    ensures GrownBelow(sh, now, p, b)
  {
  }

  /** vmm_fork_address_space.  The child sees the parent's pages `done`, byte for byte, and nobody else's
      view changes.  That is all the parent's pages, unless memory ran out on the way: while the pool has nodes, exactly
      when there are fewer free pages than the parent has tables.  Without any memory there is no child. */
  method ForkSpace(v: Vmm, src: nat) returns (dst: nat, ghost done: set<nat>, ghost full: bool)
    requires v.Valid() && src in v.spaces
    modifies v`tables, v`ptes, v`sh, v`spaces, v.pmm
    ensures v.Valid() && v.pmm.totalMem == old(v.pmm.totalMem)
    ensures dst == 0 <==> old(v.pmm.Exhausted())
    ensures dst == 0 ==> v.View() == old(v.View()) && v.ptes == old(v.ptes) && v.spaces == old(v.spaces)
    ensures dst == 0 ==> unchanged(v.pmm)
    ensures dst != 0 ==> dst !in old(v.spaces) && v.spaces == old(v.spaces) + {dst}
    ensures dst != 0 ==> Forked(old(v.View()), v.View(), src, dst, done) && Marked(old(v.ptes), v.ptes, src, dst, done)
    ensures dst != 0 && full ==> forall x :: Key(src, x) in old(v.View()).slots <==> x in done
    ensures Drawn(old(v.pmm.Left()), v.pmm.Left(), |TablesOf(old(v.sh.at.Keys), src)|, dst != 0 && full)
    ensures old(v.pmm.NodesFor(|TablesOf(v.sh.at.Keys, src)|)) ==>
      (dst != 0 && full <==> old(v.pmm.freeMem >= |TablesOf(v.sh.at.Keys, src)| * PAGE_SIZE))
    ensures dst == 0 ==> v.sh == old(v.sh)
    ensures dst != 0 ==> Mirrors(old(v.sh.at.Keys) + {Pos(dst, 4, 0)}, v.sh.at.Keys, src, dst)
  {
    hide Vmm.Books;
    hide TablesOk;
    hide PtesOk;
    hide RootsOk;
    hide PhysicalMemory.Pmm.Valid;
    hide PhysicalMemory.Pmm.Live;
    hide PhysicalMemory.Pmm.RefOf;
    hide Inv;
    hide Abs;
    hide Forked;
    hide Marked;
    hide GrownBelow;
    hide Below;
    hide Drawn;
    hide TablesOf;
    hide Mirrors;
    ghost var V := v.View();
    done, full := {}, false;
    UserOnly(v);
    v.RootFacts(src, 0);
    ghost var T, sh, spaces, a := v.tables, v.sh, v.spaces, v.pmm.Left();
    RootAndBelow(T, sh, spaces, src);
    ghost var need := |TablesOf(sh.at.Keys, src)|;
    dst := v.CreateSpace();
    if dst == 0 {
      NothingLeft(a, need);
      DrawnMeans(a, a, need, false);
      return;
    }
    ghost var b := v.pmm.Left();
    OneDrawn(a, b);
    RootBelow(sh, src, dst);
    FreshRoot(T, sh, spaces, dst);
    assert End(Pos(src, 4, 0)) == USER_PAGES;
    done, full := ForkLevel(v, src, dst, 4, Pos(src, 4, 0), Pos(dst, 4, 0));
    DrawnMore(a, b, v.pmm.Left(), 1, need - 1, true, full);
    DrawnMeans(a, v.pmm.Left(), need, full);
  }

  lemma RootBelow(sh: Shape, src: nat, dst: nat)
    requires src != dst
    ensures AddRoot(sh, dst).at.Keys == sh.at.Keys + {Pos(dst, 4, 0)}
    ensures Below(AddRoot(sh, dst).at.Keys, Pos(src, 4, 0), 0, USER_PAGES) ==
      Below(sh.at.Keys, Pos(src, 4, 0), 0, USER_PAGES)
  {
  }

  lemma FreshRoot(T: Tables, sh: Shape, spaces: set<nat>, r: nat)
    requires TablesOk(T, sh, spaces) && r !in spaces
    ensures NothingBelow(AddRoot(sh, r), Pos(r, 4, 0), 0)
  {
    forall q | q in sh.at ensures q.space != r { At(T, sh, spaces, q); }
  }
}
