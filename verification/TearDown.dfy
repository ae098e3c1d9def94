/** vmm_destroy_user_pml4 (src/mem/vmm.c): drops one reference per owned page of a space and
    frees each of its table pages once.  The tables are only read while they go. */
module TearDown {
  import opened CowMemory
  import opened PageTables
  import opened PageRights
  import B = Bits
  import opened AddressSpaces
  import opened Stocks
  import PhysicalMemory

  /** What is left of a view when pages `lo` to `hi` of space `r` are gone. */
  ghost function Gone(slots: map<Key, Slot>, r: nat, lo: nat, hi: nat): map<Key, Slot> {
    map k | k in slots && !(k.space == r && lo <= k.vpn < hi) :: slots[k]
  }

  lemma GoneMore(slots: map<Key, Slot>, r: nat, lo: nat, mid: nat, hi: nat)
    requires lo <= mid <= hi
    ensures Gone(Gone(slots, r, lo, mid), r, mid, hi) == Gone(slots, r, lo, hi)
  {
  }

  lemma GoneOne(slots: map<Key, Slot>, r: nat, v: nat)
    ensures Gone(slots, r, v, v + 1) == slots - {Key(r, v)}
  {
  }

  lemma GoneNone(slots: map<Key, Slot>, r: nat, lo: nat, hi: nat)
    requires forall v :: lo <= v < hi ==> Key(r, v) !in slots
    ensures Gone(slots, r, lo, hi) == slots
  {
  }

  ghost function Frames(o: Shape, R: set<Pos>): set<nat>
    requires R <= o.at.Keys
  {
    set q | q in R :: o.at[q]
  }

  /** The tables of the other spaces stand; of the doomed space `r`, described by `T0` and `o` as they
      were, the tables at the places `R` are still there. */
  ghost predicate DoomShape(T: Tables, sh: Shape, spaces: set<nat>, kernelHalf: seq<Entry>, T0: Tables, o: Shape,
                            r: nat, R: set<Pos>) {
    && TablesOk(T, sh, spaces) && RootsOk(T, spaces, kernelHalf) && r !in spaces
    && TablesOk(T0, o, {r}) && R <= o.at.Keys && sh.pos.Keys !! o.pos.Keys
    && T.Keys == sh.pos.Keys + Frames(o, R)
    && (forall q :: q in R ==> o.at[q] in T && o.at[q] in T0 && T[o.at[q]] == T0[o.at[q]])
  }

  /** Entries of other spaces are as their tables say; those of `r` are gone below page `cur`. */
  ghost predicate DoomPtes(ptes: map<Key, Pte>, T: Tables, sh: Shape, T0: Tables, o: Shape, r: nat, cur: nat) {
    && (forall k: Key {:trigger Lookup(T, sh, k)} :: k.space != r ==>
          (k in ptes <==> Lookup(T, sh, k).Some?) && (k in ptes ==> Lookup(T, sh, k) == Some(ptes[k])))
    && (forall k: Key {:trigger Lookup(T0, o, k)} :: k.space == r ==>
          (k in ptes <==> Lookup(T0, o, k).Some? && k.vpn >= cur) && (k in ptes ==> Lookup(T0, o, k) == Some(ptes[k])))
  }

  ghost predicate Doomed(v: Vmm, T0: Tables, o: Shape, r: nat, R: set<Pos>, cur: nat)
    reads v, v.pmm
  {
    && v.Books() && Inv(v.M()) && Ways(v.tables, v.sh, v.userOnly)
    && DoomShape(v.tables, v.sh, v.spaces, v.kernelHalf, T0, o, r, R)
    && DoomPtes(v.ptes, v.tables, v.sh, T0, o, r, cur)
  }

  /** release_user_mapping, for the entry of page `k`. */
  method ReleaseEntry(v: Vmm, e: Pte, ghost k: Key)
    requires v.Books() && Inv(v.M()) && k in v.ptes && v.ptes[k] == e
    modifies v`pages, v`ptes, v.pmm
    ensures v.Books() && Inv(v.M()) && Abs(v.M()) == old(Abs(v.M())).(slots := old(Abs(v.M())).slots - {k})
    ensures v.ptes == old(v.ptes) - {k} && v.pmm.totalMem == old(v.pmm.totalMem)
    ensures Returned(old(v.pmm.Left()), v.pmm.Left())
  {
    hide Accounts;
    hide PhysicalMemory.Pmm.Valid;
    hide PhysicalMemory.Pmm.Live;
    hide PhysicalMemory.Pmm.AllDescribed;
    hide PhysicalMemory.Pmm.RefOf;
    hide Inv;
    hide Abs;
    hide UnrefMem;
    hide DropKey;
    ghost var m := v.M();
    EntryFacts(m, k);
    OwnedOrShared(m, k);
    DropStep(m, k);
    if !e.dontFree { UnrefLater(m, m.ptes - {k}, e.frame); }
    if !e.dontFree {
      v.PageAligned(e.frame);
      v.Release(e.frame, false);
    }
    v.ptes := v.ptes - {k};
    assert v.M() == DropKey(m, k);
  }

  lemma UnrefLater(m: Mem, ptes: map<Key, Pte>, f: nat)
    requires f in m.refs && m.refs[f] >= 1
    ensures UnrefMem(m.(ptes := ptes), f) == UnrefMem(m, f).(ptes := ptes)
  {
  }

  // ---- one page table

  lemma DoomStep(ptes: map<Key, Pte>, T: Tables, sh: Shape, T0: Tables, o: Shape, r: nat, cur: nat)
    requires DoomPtes(ptes, T, sh, T0, o, r, cur)
    ensures DoomPtes(ptes - {Key(r, cur)}, T, sh, T0, o, r, cur + 1)
  {
    forall k: Key {:trigger Lookup(T0, o, k)} | k.space == r
      ensures k in ptes - {Key(r, cur)} <==> Lookup(T0, o, k).Some? && k.vpn >= cur + 1
    {
      if k.vpn == cur { assert k == Key(r, cur); }
    }
  }

  lemma DoomSkip(ptes: map<Key, Pte>, T: Tables, sh: Shape, T0: Tables, o: Shape, r: nat, cur: nat, next: nat)
    requires DoomPtes(ptes, T, sh, T0, o, r, cur) && cur <= next
    requires forall x {:trigger Lookup(T0, o, Key(r, x))} :: cur <= x < next ==> Lookup(T0, o, Key(r, x)).None?
    ensures DoomPtes(ptes, T, sh, T0, o, r, next)
    ensures forall x :: cur <= x < next ==> Key(r, x) !in ptes
  {
    forall k: Key {:trigger Lookup(T0, o, k)} | k.space == r
      ensures (k in ptes <==> Lookup(T0, o, k).Some? && k.vpn >= next)
      ensures (k in ptes ==> Lookup(T0, o, k) == Some(ptes[k]))
    {
      assert k == Key(r, k.vpn);
      assert k in ptes <==> Lookup(T0, o, k).Some? && k.vpn >= cur;
      if cur <= k.vpn < next { assert Lookup(T0, o, Key(r, k.vpn)).None?; }
    }
    forall x {:trigger Key(r, x)} | cur <= x < next ensures Key(r, x) !in ptes {
      assert Lookup(T0, o, Key(r, x)).None?;
    }
  }

  /** The table at a place of the doomed space, as it still is, and the entries of its pages. */
  lemma DoomEntry(v: Vmm, T0: Tables, o: Shape, r: nat, R: set<Pos>, cur: nat, p: Pos, i: nat)
    requires Doomed(v, T0, o, r, R, cur) && p in R && p.level == 1 && i < 512 && cur <= p.base + i
    ensures o.at[p] in v.tables && |v.tables[o.at[p]]| == ENTRIES
    ensures var k, e := Key(r, p.base + i), v.tables[o.at[p]][i];
      (k in v.ptes <==> e.Some?) && (e.Some? ==> v.ptes[k] == e.value)
  {
    hide Vmm.Books;
    hide Inv;
    hide TablesOk;
    hide RootsOk;
    hide Lookup;
    LeafEntry(T0, o, {r}, p, i);
  }

  /** One entry of free_pt. */
  method FreePte(v: Vmm, t: nat, i: nat, ghost p: Pos, ghost T0: Tables, ghost o: Shape, ghost r: nat,
                 ghost R: set<Pos>)
    requires i < 512 && Doomed(v, T0, o, r, R, p.base + i) && p in R && p.level == 1 && o.at[p] == t
    modifies v`pages, v`ptes, v.pmm
    ensures Doomed(v, T0, o, r, R, p.base + i + 1) && v.pmm.totalMem == old(v.pmm.totalMem)
    ensures Returned(old(v.pmm.Left()), v.pmm.Left())
    ensures Abs(v.M()) == old(Abs(v.M())).(slots := old(Abs(v.M())).slots - {Key(r, p.base + i)})
  {
    hide DoomShape;
    hide DoomPtes;
    hide Vmm.Books;
    hide Inv;
    hide Abs;
    hide PhysicalMemory.Pmm.RefOf;
    ghost var k := Key(r, p.base + i);
    DoomEntry(v, T0, o, r, R, p.base + i, p, i);
    DoomStep(v.ptes, v.tables, v.sh, T0, o, r, p.base + i);
    SlotSeen(v.M(), k);
    match v.tables[t][i] {
      case None =>
        assert v.ptes - {k} == v.ptes && Abs(v.M()).slots - {k} == Abs(v.M()).slots;
      case Some(e) =>
        ReleaseEntry(v, e, k);
    }
  }

  /** free_pt. */
  method FreePt(v: Vmm, t: nat, ghost p: Pos, ghost T0: Tables, ghost o: Shape, ghost r: nat, ghost R: set<Pos>)
    requires Doomed(v, T0, o, r, R, p.base) && p in R && p.level == 1 && o.at[p] == t
    modifies v`pages, v`ptes, v.pmm
    ensures Doomed(v, T0, o, r, R, p.base + 512) && v.pmm.totalMem == old(v.pmm.totalMem)
    ensures Returned(old(v.pmm.Left()), v.pmm.Left())
    ensures Abs(v.M()) == old(Abs(v.M())).(slots := Gone(old(Abs(v.M())).slots, r, p.base, p.base + 512))
  {
    hide DoomShape;
    hide DoomPtes;
    hide Vmm.Books;
    hide Inv;
    hide Abs;
    hide PhysicalMemory.Pmm.RefOf;
    ghost var V := Abs(v.M());
    GoneNone(V.slots, r, p.base, p.base);
    for i := 0 to 512
      invariant Doomed(v, T0, o, r, R, p.base + i) && v.pmm.totalMem == old(v.pmm.totalMem)
      invariant Returned(old(v.pmm.Left()), v.pmm.Left())
      invariant Abs(v.M()) == V.(slots := Gone(V.slots, r, p.base, p.base + i))
    {
      GoneMore(V.slots, r, p.base, p.base + i, p.base + i + 1);
      GoneOne(Gone(V.slots, r, p.base, p.base + i), r, p.base + i);
      hide Gone;
      FreePte(v, t, i, p, T0, o, r, R);
    }
  }

  // ---- the upper levels

  /** Tables go, and none changes. */
  ghost predicate Shrunk(before: Tables, after: Tables) {
    forall t :: t in after ==> t in before && after[t] == before[t]
  }

  ghost predicate Under(p: Pos, q: Pos) { q.level < p.level && p.Covers(q.base) }

  ghost function Left(o: Shape, R: set<Pos>, p: Pos, cur: nat): set<Pos> {
    set q | q in R && !(Under(p, q) && q.base < cur)
  }

  /** Freeing the table in slot `i`, after all below it, is the next step of the count. */
  lemma LeftStep(T0: Tables, o: Shape, r: nat, R: set<Pos>, p: Pos, i: nat)
    requires TablesOk(T0, o, {r}) && R <= o.at.Keys && p in R && p.level >= 2 && i < Fanout(p.level)
    requires PosOk(T0, o, {r}, p)
    ensures var q, now := Child(p, i), Left(o, R, p, Edge(p, i));
      Left(o, R, p, Edge(p, i + 1)) == (set x | x in now && !Under(q, x)) - {q}
  {
    var q := Child(p, i);
    EdgeStep(p, i);
    CoverPart(p, i);
    forall x | x in R ensures Under(p, x) && Edge(p, i) <= x.base < Edge(p, i + 1) <==> x == q || Under(q, x) {
      At(T0, o, {r}, x);
      if Under(p, x) && Edge(p, i) <= x.base < Edge(p, i + 1) && x.level == q.level {
        ChildRange(p, i);
        CoverPath(q, x.base);
        CoverPath(x, x.base);
      }
    }
  }

  lemma CoverPart(p: Pos, i: nat)
    requires 2 <= p.level <= 4 && i < Fanout(p.level)
    ensures Child(p, i).Covers(Child(p, i).base) && forall x :: Child(p, i).Covers(x) ==> p.Covers(x)
    ensures forall x: nat :: Child(p, i).Covers(x) <==> Edge(p, i) <= x < Edge(p, i + 1)
  {
    SpanStep(p.level);
    EdgeStep(p, i);
    assert (i + 1) * Span(p.level - 1) <= 512 * Span(p.level - 1) by {
      if i + 1 < 512 { B.MulLess(i + 1, 512, Span(p.level - 1)); }
    }
  }

  /** The table at place `p`, still there: its entry `i` leads to a table that is still there. */
  lemma DoomSlot(v: Vmm, T0: Tables, o: Shape, r: nat, R: set<Pos>, cur: nat, p: Pos, i: nat)
    requires Doomed(v, T0, o, r, R, cur) && p in R && p.level >= 2 && i < Fanout(p.level)
    ensures PosOk(T0, o, {r}, p) && o.at[p] in v.tables && |v.tables[o.at[p]]| == ENTRIES
    ensures var e := v.tables[o.at[p]][i];
      e == T0[o.at[p]][i] && (e.Some? ==> Child(p, i) in o.at && o.at[Child(p, i)] == e.value.frame)
  {
    At(T0, o, {r}, p);
    assert LinkOk(T0, o, p, i);
  }

  /** pmm_free_page on a table page whose contents have been dealt with. */
  method FreeTablePage(v: Vmm, c: nat, ghost q: Pos, ghost T0: Tables, ghost o: Shape, ghost r: nat, ghost R: set<Pos>,
                       ghost cur: nat)
    requires Doomed(v, T0, o, r, R, cur) && q in R && o.at[q] == c
    modifies v`tables, v.pmm
    ensures Doomed(v, T0, o, r, R - {q}, cur) && v.pmm.totalMem == old(v.pmm.totalMem)
    ensures Returned(old(v.pmm.Left()), v.pmm.Left())
    ensures v.M() == old(v.M()) && v.tables == old(v.tables) - {c} && c in old(v.pmm.Live())
    ensures v.pmm.Live() == old(v.pmm.Live()) - {c}
  {
    hide Accounts;
    hide PhysicalMemory.Pmm.Valid;
    hide PhysicalMemory.Pmm.Live;
    hide PhysicalMemory.Pmm.AllDescribed;
    hide PhysicalMemory.Pmm.RefOf;
    hide Inv;
    hide DoomPtes;
    hide DoomShape;
    DoomFree(v.tables, v.sh, v.spaces, v.kernelHalf, T0, o, r, R, q, v.ptes, cur);
    AccountsLive(v.pmm.Live(), v.outside, v.tables.Keys, v.pages.Keys, v.leaked, v.shared.Keys);
    AccountsRemove(v.pmm.Live(), v.outside, v.tables.Keys, v.pages.Keys, v.leaked, v.shared.Keys, c);
    ghost var m := v.M();
    v.pmm.ReleaseFrame(c);
    WaysFewer(v.tables, v.sh, v.tables - {c}, v.sh, v.userOnly);
    v.tables := v.tables - {c};
    assert v.tables.Keys == old(v.tables).Keys - {c};
    assert v.M().refs == m.refs;
  }

  lemma DoomFree(T: Tables, sh: Shape, spaces: set<nat>, kernelHalf: seq<Entry>, T0: Tables, o: Shape, r: nat,
                 R: set<Pos>, q: Pos, ptes: map<Key, Pte>, cur: nat)
    requires DoomShape(T, sh, spaces, kernelHalf, T0, o, r, R) && q in R && DoomPtes(ptes, T, sh, T0, o, r, cur)
    ensures o.at[q] in T && DoomShape(T - {o.at[q]}, sh, spaces, kernelHalf, T0, o, r, R - {q})
    ensures DoomPtes(ptes, T - {o.at[q]}, sh, T0, o, r, cur)
  {
    var U := T - {o.at[q]};
    forall x | x in R ensures o.at[x] in o.pos && o.pos[o.at[x]] == x { At(T0, o, {r}, x); }
    forall t | t in sh.pos ensures t in T && t in U && U[t] == T[t] { FrameIsTable(T, sh, spaces, t); }
    AgreeKeeps(T, U, sh, spaces);
    assert U.Keys == sh.pos.Keys + Frames(o, R - {q});
    forall s | s in spaces ensures s in U && |U[s]| == ENTRIES && U[s][256..] == kernelHalf {
      At(T, sh, spaces, Pos(s, 4, 0));
    }
  }

  lemma LeftNone(v: Vmm, T0: Tables, o: Shape, r: nat, R: set<Pos>, p: Pos)
    requires Doomed(v, T0, o, r, R, p.base) && p.level == 1
    ensures forall cur :: Left(o, R, p, cur) == R
  {
    forall q | q in R ensures !Under(p, q) { At(T0, o, {r}, q); }
  }

  lemma LeftAll(o: Shape, R: set<Pos>, p: Pos)
    ensures Left(o, R, p, p.base) == R
  {
  }

  lemma GoneEmpty(slots: map<Key, Slot>, r: nat, lo: nat)
    ensures Gone(slots, r, lo, lo) == slots
  {
  }

  lemma DoomTables(v: Vmm, T0: Tables, o: Shape, r: nat, R: set<Pos>, cur: nat)
    requires Doomed(v, T0, o, r, R, cur)
    ensures TablesOk(T0, o, {r}) && R <= o.at.Keys
  {
  }

  /** An empty slot: nothing below it to free, and nothing mapped. */
  lemma SkipSlot(v: Vmm, T0: Tables, o: Shape, r: nat, R: set<Pos>, p: Pos, i: nat)
    requires p in R && 2 <= p.level <= 4 && i < Fanout(p.level) && R <= o.at.Keys
    requires Doomed(v, T0, o, r, Left(o, R, p, Edge(p, i)), Edge(p, i))
    requires PosOk(T0, o, {r}, p) && T0[o.at[p]][i].None?
    ensures Doomed(v, T0, o, r, Left(o, R, p, Edge(p, i + 1)), Edge(p, i + 1))
    ensures Gone(Abs(v.M()).slots, r, Edge(p, i), Edge(p, i + 1)) == Abs(v.M()).slots
  {
    hide Vmm.Books;
    hide Inv;
    hide Abs;
    var now := Left(o, R, p, Edge(p, i));
    DoomTables(v, T0, o, r, now, Edge(p, i));
    NothingUnder(T0, o, r, p, i);
    LeftStep(T0, o, r, R, p, i);
    assert Left(o, R, p, Edge(p, i + 1)) == now;
    EdgeStep(p, i);
    CoverPart(p, i);
    hide Span;
    forall x: nat {:trigger Lookup(T0, o, Key(r, x))} | Edge(p, i) <= x < Edge(p, i + 1)
      ensures Lookup(T0, o, Key(r, x)).None?
    {
      EmptySlot(T0, o, {r}, p, i, x);
    }
    DoomSkip(v.ptes, v.tables, v.sh, T0, o, r, Edge(p, i), Edge(p, i + 1));
    forall x: nat | Edge(p, i) <= x < Edge(p, i + 1)
      ensures Key(r, x) !in Abs(v.M()).slots
    {
      SlotSeen(v.M(), Key(r, x));
    }
    GoneNone(Abs(v.M()).slots, r, Edge(p, i), Edge(p, i + 1));
  }

  lemma NothingUnder(T0: Tables, o: Shape, r: nat, p: Pos, i: nat)
    requires TablesOk(T0, o, {r}) && p in o.at && p.level >= 2 && i < Fanout(p.level) && PosOk(T0, o, {r}, p)
    requires T0[o.at[p]][i].None?
    ensures Child(p, i) !in o.at && forall x :: x in o.at ==> !Under(Child(p, i), x)
  {
    var q := Child(p, i);
    assert LinkOk(T0, o, p, i);
    ChildRange(p, i);
    forall x | x in o.at ensures !Under(q, x) {
      At(T0, o, {r}, x);
      if Under(q, x) {
        CoverPath(q, x.base);
        CoverPath(x, x.base);
        PathUp(T0, o, {r}, Key(r, x.base), x.level, q.level);
      }
    }
  }

  /** A slot with a table: what is below it is still there, and freeing it with its table is the next step. */
  lemma LeftFacts(v: Vmm, T0: Tables, o: Shape, r: nat, R: set<Pos>, p: Pos, i: nat)
    requires p in R && 2 <= p.level <= 4 && i < Fanout(p.level) && R <= o.at.Keys
    requires forall q :: q in o.at && Under(p, q) ==> q in R
    requires Doomed(v, T0, o, r, Left(o, R, p, Edge(p, i)), Edge(p, i))
    requires PosOk(T0, o, {r}, p) && Child(p, i) in o.at
    ensures var q, now := Child(p, i), Left(o, R, p, Edge(p, i));
      && q in now && q.base == Edge(p, i) && End(q) == Edge(p, i + 1)
      && (forall x :: x in o.at && Under(q, x) ==> x in now)
      && q in Left(o, now, q, End(q)) && Left(o, R, p, Edge(p, i + 1)) == Left(o, now, q, End(q)) - {q}
  {
    var q, now := Child(p, i), Left(o, R, p, Edge(p, i));
    hide Doomed, TablesOk, PosOk;
    DoomTables(v, T0, o, r, now, Edge(p, i));
    LeftStep(T0, o, r, R, p, i);
    EdgeStep(p, i);
    hide Span, Edge, Child;
    CoverPart(p, i);
    assert Under(p, q);
    LeftUnder(o, now, q);
  }

  lemma LeftUnder(o: Shape, R: set<Pos>, q: Pos)
    requires q.level >= 1 && forall x: nat :: q.Covers(x) ==> x < End(q)
    ensures Left(o, R, q, End(q)) == (set x | x in R && !Under(q, x))
  {
    hide End;
    forall x | Under(q, x) ensures x.base < End(q) { assert q.Covers(x.base); }
  }

  /** The loops of vmm_destroy_user_pml4, free_pdpt and free_pd: everything below the table at `p`. */
  method FreeLevel(v: Vmm, t: nat, level: nat, ghost p: Pos, ghost T0: Tables, ghost o: Shape, ghost r: nat,
                   ghost R: set<Pos>)
    requires Doomed(v, T0, o, r, R, p.base) && p in R && p.level == level && 1 <= level <= 4 && o.at[p] == t
    requires forall q :: q in o.at && Under(p, q) ==> q in R
    modifies v`tables, v`pages, v`ptes, v.pmm
    ensures Doomed(v, T0, o, r, Left(o, R, p, End(p)), End(p)) && v.pmm.totalMem == old(v.pmm.totalMem)
    ensures Returned(old(v.pmm.Left()), v.pmm.Left())
    ensures Abs(v.M()) == old(Abs(v.M())).(slots := Gone(old(Abs(v.M())).slots, r, p.base, End(p)))
    ensures Shrunk(old(v.tables), v.tables)
    decreases level
  {
    hide DoomShape;
    hide DoomPtes;
    hide Vmm.Books;
    hide Inv;
    hide Abs;
    hide Span;
    hide PhysicalMemory.Pmm.RefOf;
    hide Gone;
    EdgeStep(p, 0);
    ghost var V := Abs(v.M());
    if level == 1 {
      SpanOne();
      LeftNone(v, T0, o, r, R, p);
      FreePt(v, t, p, T0, o, r, R);
      return;
    }
    LeftAll(o, R, p);
    DoomTables(v, T0, o, r, R, p.base);
    GoneEmpty(V.slots, r, p.base);
    for i := 0 to Fanout(level)
      invariant Doomed(v, T0, o, r, Left(o, R, p, Edge(p, i)), Edge(p, i)) && v.pmm.totalMem == old(v.pmm.totalMem)
      invariant Returned(old(v.pmm.Left()), v.pmm.Left())
      invariant Abs(v.M()) == V.(slots := Gone(V.slots, r, p.base, Edge(p, i)))
      invariant Shrunk(old(v.tables), v.tables)
    {
      EdgeMono(p, 0, i);
      EdgeStep(p, i);
      GoneMore(V.slots, r, p.base, Edge(p, i), Edge(p, i + 1));
      FreeSlot(v, t, level, i, p, T0, o, r, R);
    }
  }

  /** One slot of the loop. */
  method FreeSlot(v: Vmm, t: nat, level: nat, i: nat, ghost p: Pos, ghost T0: Tables, ghost o: Shape, ghost r: nat,
                  ghost R: set<Pos>)
    requires R <= o.at.Keys && p in R && p.level == level && 2 <= level <= 4 && i < Fanout(level) && o.at[p] == t
    requires forall q :: q in o.at && Under(p, q) ==> q in R
    requires Doomed(v, T0, o, r, Left(o, R, p, Edge(p, i)), Edge(p, i))
    modifies v`tables, v`pages, v`ptes, v.pmm
    ensures Doomed(v, T0, o, r, Left(o, R, p, Edge(p, i + 1)), Edge(p, i + 1)) && v.pmm.totalMem == old(v.pmm.totalMem)
    ensures Returned(old(v.pmm.Left()), v.pmm.Left())
    ensures Abs(v.M()) == old(Abs(v.M())).(slots := Gone(old(Abs(v.M())).slots, r, Edge(p, i), Edge(p, i + 1)))
    ensures Shrunk(old(v.tables), v.tables)
    decreases level, 0
  {
    hide DoomShape;
    hide DoomPtes;
    hide Vmm.Books;
    hide Inv;
    hide Abs;
    hide Span;
    hide PhysicalMemory.Pmm.RefOf;
    hide Gone;
    ghost var now := Left(o, R, p, Edge(p, i));
    assert p in now;
    DoomSlot(v, T0, o, r, now, Edge(p, i), p, i);
    EdgeStep(p, i);
    match v.tables[t][i] {
      case None =>
        SkipSlot(v, T0, o, r, R, p, i);
      case Some(e) =>
        ghost var q := Child(p, i);
        LeftFacts(v, T0, o, r, R, p, i);
        FreeLevel(v, e.frame, level - 1, q, T0, o, r, now);
        FreeTablePage(v, e.frame, q, T0, o, r, Left(o, now, q, End(q)), End(q));
    }
  }

  lemma DoomWays(v: Vmm, r: nat)
    requires v.Valid()
    ensures Ways(v.tables, Without(v.sh, r), v.userOnly)
  {
    hide Vmm.Books, Inv, TablesOk, PtesOk, RootsOk;
    WaysFewer(v.tables, v.sh, v.tables, Without(v.sh, r), v.userOnly);
  }

  lemma Doom(v: Vmm, r: nat)
    requires v.Valid() && r in v.spaces
    ensures var o := Only(v.sh, r);
      && DoomShape(v.tables, Without(v.sh, r), v.spaces - {r}, v.kernelHalf, v.tables, o, r, o.at.Keys)
      && DoomPtes(v.ptes, v.tables, Without(v.sh, r), v.tables, o, r, 0)
      && TablesOk(v.tables, o, {r}) && Pos(r, 4, 0) in o.at && o.at[Pos(r, 4, 0)] == r
  {
    hide Vmm.Books;
    hide Inv;
    hide Span;
    var T, sh, spaces := v.tables, v.sh, v.spaces;
    var o, w := Only(sh, r), Without(sh, r);
    hide Ways;
    SpacesApart(T, sh, spaces, r);
    At(T, sh, spaces, Pos(r, 4, 0));
    forall q | q in o.at ensures o.at[q] in T && o.at[q] in o.pos && o.pos[o.at[q]] == q { At(T, o, {r}, q); }
    assert T.Keys == w.pos.Keys + Frames(o, o.at.Keys);
    forall k: Key {:trigger Lookup(T, w, k)} | k.space != r
      ensures (k in v.ptes <==> Lookup(T, w, k).Some?) && (k in v.ptes ==> Lookup(T, w, k) == Some(v.ptes[k]))
    {
      assert Lookup(T, w, k) == Lookup(T, sh, k);
    }
    forall k: Key {:trigger Lookup(T, o, k)} | k.space == r
      ensures (k in v.ptes <==> Lookup(T, o, k).Some? && k.vpn >= 0)
      ensures (k in v.ptes ==> Lookup(T, o, k) == Some(v.ptes[k]))
    {
      assert Lookup(T, o, k) == Lookup(T, sh, k);
    }
  }

  /** Every table of a space but the root is below the root. */
  lemma RootIsLast(T0: Tables, o: Shape, r: nat)
    requires TablesOk(T0, o, {r}) && Pos(r, 4, 0) in o.at
    ensures End(Pos(r, 4, 0)) == USER_PAGES
    ensures Left(o, o.at.Keys, Pos(r, 4, 0), USER_PAGES) == {Pos(r, 4, 0)}
    ensures forall q :: q in o.at && Under(Pos(r, 4, 0), q) ==> q in o.at.Keys
  {
    forall q | q in o.at && q != Pos(r, 4, 0) ensures Under(Pos(r, 4, 0), q) && q.base < USER_PAGES {
      At(T0, o, {r}, q);
    }
  }

  lemma NoneLeft(T: Tables, sh: Shape, spaces: set<nat>, T0: Tables, o: Shape, r: nat, ptes: map<Key, Pte>)
    requires TablesOk(T, sh, spaces) && r !in spaces && TablesOk(T0, o, {r})
    requires DoomPtes(ptes, T, sh, T0, o, r, USER_PAGES)
    ensures PtesOk(T, sh, ptes) && forall k :: k in ptes ==> k.space != r
  {
    forall k {:trigger Lookup(T, sh, k)} {:trigger k in ptes}
      ensures (k in ptes <==> Lookup(T, sh, k).Some?) && (k in ptes ==> Lookup(T, sh, k) == Some(ptes[k]))
      ensures k in ptes ==> k.space != r
    {
      if k.space == r {
        var p := PathPos(k, 1);
        if p in sh.at { At(T, sh, spaces, p); }
        if p in o.at { At(T0, o, {r}, p); }
        assert Lookup(T0, o, k).Some? ==> k.vpn < USER_PAGES;
      }
    }
  }

  /** vmm_destroy_user_pml4.  The space's pages and tables are gone; every other space sees what it saw,
      through the same tables. */
  method DestroySpace(v: Vmm, r: nat)
    requires v.Valid() && r in v.spaces
    modifies v`tables, v`pages, v`ptes, v`sh, v`spaces, v.pmm
    ensures v.Valid() && v.spaces == old(v.spaces) - {r} && v.pmm.totalMem == old(v.pmm.totalMem)
    ensures Returned(old(v.pmm.Left()), v.pmm.Left())
    ensures v.View() == old(v.View()).(slots := Others(old(v.View()).slots, r))
    ensures v.sh == Without(old(v.sh), r) && Shrunk(old(v.tables), v.tables)
    ensures v.ptes == OtherPtes(old(v.ptes), r)
  {
    hide TablesOk;
    hide PtesOk;
    hide RootsOk;
    hide DoomPtes;
    hide DoomShape;
    hide Vmm.Books;
    hide Vmm.Structure;
    hide Inv;
    hide Abs;
    hide PhysicalMemory.Pmm.RefOf;
    hide Gone;
    hide Others;
    hide OtherPtes;
    hide Shrunk;
    ghost var V, T0, o, p := v.View(), v.tables, Only(v.sh, r), Pos(r, 4, 0);
    ghost var sh0, ptes0 := v.sh, v.ptes;
    PtesSeen(v);
    Doom(v, r);
    DoomWays(v, r);
    UserOnly(v);
    GoneAll(V.slots, r);
    v.sh := Without(v.sh, r);
    v.spaces := v.spaces - {r};
    RootIsLast(T0, o, r);
    FreeLevel(v, r, 4, p, T0, o, r, o.at.Keys);
    ghost var T1 := v.tables;
    FreeTablePage(v, r, p, T0, o, r, {p}, USER_PAGES);
    ShrunkMore(T0, T1, r);
    assert {p} - {p} == {};
    DoomEnds(v, T0, o, r);
    PtesSeen(v);
    PtesLeft(T0, sh0, ptes0, v.tables, v.ptes, V.slots, r);
  }

  /** The entries of the other spaces. */
  ghost function OtherPtes(ptes: map<Key, Pte>, r: nat): map<Key, Pte> {
    map k | k in ptes && k.space != r :: ptes[k]
  }

  lemma PtesSeen(v: Vmm)
    requires v.Valid()
    ensures v.ptes.Keys == v.View().slots.Keys && PtesOk(v.tables, v.sh, v.ptes)
  {
  }

  lemma PtesLeft(T: Tables, sh: Shape, ptes: map<Key, Pte>, T': Tables, ptes': map<Key, Pte>, slots: map<Key, Slot>,
                 r: nat)
    requires PtesOk(T, sh, ptes) && PtesOk(T', Without(sh, r), ptes') && Shrunk(T, T')
    requires slots.Keys == ptes.Keys && ptes'.Keys == Others(slots, r).Keys
    ensures ptes' == OtherPtes(ptes, r)
  {
    forall k | k in ptes' ensures k in ptes && ptes'[k] == ptes[k] {
      assert Lookup(T', Without(sh, r), k) == Lookup(T, sh, k);
    }
  }

  lemma DoomEnds(v: Vmm, T0: Tables, o: Shape, r: nat)
    requires Doomed(v, T0, o, r, {}, USER_PAGES)
    ensures v.Valid()
  {
    hide Vmm.Books;
    hide Inv;
    NoneLeft(v.tables, v.sh, v.spaces, T0, o, r, v.ptes);
    assert v.tables.Keys == v.sh.pos.Keys;
  }

  ghost function Others(slots: map<Key, Slot>, r: nat): map<Key, Slot> {
    map k | k in slots && k.space != r :: slots[k]
  }

  lemma GoneAll(slots: map<Key, Slot>, r: nat)
    requires forall k :: k in slots ==> k.vpn < USER_PAGES
    ensures Gone(slots, r, 0, USER_PAGES) == Others(slots, r)
  {
  }

  lemma ShrunkMore(a: Tables, b: Tables, t: nat)
    requires Shrunk(a, b)
    ensures Shrunk(a, b - {t})
  {
  }

  /** When the last space is gone and no mapping was lost on the way, the rest of the kernel's allocations
      are all there is, and free memory is what it was before the first space. */
  lemma AllGone(v: Vmm)
    requires v.Valid() && v.spaces == {}
    ensures v.tables == map[] && v.pages == map[] && v.View().slots == map[]
    ensures v.pmm.Live().Keys == v.outside.Keys + v.leaked
    ensures
      v.leaked == {} ==> v.pmm.Live() == v.outside && v.pmm.freeMem == v.pmm.totalMem - PhysicalMemory.MapSum(v.outside)
  {
    forall q | q in v.sh.at ensures false { At(v.tables, v.sh, v.spaces, q); }
    assert v.sh.pos == map[] by { forall t | t in v.sh.pos ensures false { assert v.sh.pos[t] in v.sh.at; } }
    assert v.tables == map[] by { assert v.tables.Keys == {}; }
    forall k ensures k !in v.ptes { assert Lookup(v.tables, v.sh, k).None?; }
    assert v.ptes == map[] by { assert v.ptes.Keys == {}; }
    var m := v.M();
    forall f ensures f !in v.pages {
      assert Users(v.ptes, f) == {};
      assert f in m.refs ==> FrameOk(m, f);
    }
    assert v.pages == map[] by { assert v.pages.Keys == {}; }
    if v.leaked == {} { assert v.pmm.Live() == v.outside; }
  }
}
