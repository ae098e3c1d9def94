/** Four-level page tables (src/mem/vmm.c; Intel SDM volume 3A, section 4.5), held in
    physical frames, and the flat map from virtual pages to entries that they implement. */
module PageTables {
  import opened CowMemory
  import B = Bits

  datatype Option<+T> = None | Some(value: T)

  /** A table entry: zero, or present. */
  type Entry = Option<Pte>
  type Table = seq<Entry>
  type Tables = map<nat, Table>

  const ENTRIES: nat := 512
  /** Page numbers of the user half of the address space. */
  const USER_PAGES: nat := 0x8_0000_0000

  /** Pages covered by a whole table of the given level; a level-0 "table" is one page. */
  function Span(level: nat): nat {
    if level == 0 then 1 else if level == 1 then 512 else if level == 2 then 0x4_0000
    else if level == 3 then 0x800_0000 else 0x10_0000_0000
  }

  /** User entries of a table: half of the root, all of any other. */
  function Fanout(level: nat): nat { if level == 4 then 256 else 512 }

  /** pt_index, pd_index, pdpt_index and pml4_index, on page numbers. */
  function Index(vpn: nat, level: nat): (i: nat)
    requires 1 <= level <= 4
    ensures i < 512
  {
    vpn / Span(level - 1) % 512
  }

  /** Where a table sits: its address space, its level, and the first page it covers. */
  datatype Pos = Pos(space: nat, level: nat, base: nat) {
    predicate Covers(v: nat) { base <= v < base + Span(level) }
  }

  function Child(p: Pos, i: nat): Pos
    requires p.level >= 1
  {
    Pos(p.space, p.level - 1, p.base + i * Span(p.level - 1))
  }

  /** The place of the level-`level` table on the way to page `k`. */
  function PathPos(k: Key, level: nat): Pos {
    Pos(k.space, level, k.vpn / Span(level) * Span(level))
  }

  lemma SpanStep(level: nat)
    requires 1 <= level <= 4
    ensures Span(level) == 512 * Span(level - 1) && Span(level - 1) > 0
  {
  }

  lemma SpanZero()
    ensures Span(0) == 1
  {
  }

  lemma SpanOne()
    ensures Span(1) == 512
  {
  }

  lemma SpanPositive(level: nat)
    ensures Span(level) > 0
  {
  }

  /** A page number splits into the part above a level, its index there, and the part below. */
  lemma Split(v: nat, level: nat)
    requires 1 <= level <= 4
    ensures v / Span(level - 1) == v / Span(level) * 512 + Index(v, level)
    ensures v / Span(level) == v / Span(level - 1) / 512
  {
    SpanStep(level);
    hide Span;
    var s, t := Span(level - 1), Span(level);
    var q, r := v / s, v % s;
    var a, b := q / 512, q % 512;
    assert v == a * t + (b * s + r) by {
      assert v == q * s + r && q == a * 512 + b;
      assert q * s == a * (512 * s) + b * s;
    }
    assert b * s + r < t by { assert b * s <= 511 * s; }
    B.DivIs(v, t, a, b * s + r);
  }

  /** Each index picks the next table on the way: the four slices together are the page number. */
  lemma PathChild(k: Key, level: nat)
    requires 1 <= level <= 4
    ensures Child(PathPos(k, level), Index(k.vpn, level)) == PathPos(k, level - 1)
  {
    SpanStep(level);
    Split(k.vpn, level);
    hide Span;
    var s, a, i := Span(level - 1), k.vpn / Span(level), Index(k.vpn, level);
    assert a * (512 * s) + i * s == (a * 512 + i) * s;
  }

  /** The slices of a page number are jointly injective. */
  lemma IndicesInjective(v: nat, w: nat)
    requires v < Span(4) && w < Span(4)
    requires Index(v, 4) == Index(w, 4) && Index(v, 3) == Index(w, 3) && Index(v, 2) == Index(w, 2)
    requires Index(v, 1) == Index(w, 1)
    ensures v == w
  {
    Split(v, 4);
    Split(w, 4);
    Split(v, 3);
    Split(w, 3);
    Split(v, 2);
    Split(w, 2);
    Split(v, 1);
    Split(w, 1);
    assert v / Span(4) == 0 && w / Span(4) == 0;
    hide Index;
  }

  /** The code shifts addresses; on page numbers that is the same slice. */
  lemma AddressSlices(virt: nat)
    ensures virt / 0x1000 % 512 == Index(virt / 0x1000, 1)
    ensures virt / 0x20_0000 % 512 == Index(virt / 0x1000, 2)
    ensures virt / 0x4000_0000 % 512 == Index(virt / 0x1000, 3)
    ensures virt / 0x80_0000_0000 % 512 == Index(virt / 0x1000, 4)
  {
    assert virt / 0x20_0000 == virt / 0x1000 / 512;
    assert virt / 0x4000_0000 == virt / 0x1000 / 0x4_0000;
    assert virt / 0x80_0000_0000 == virt / 0x1000 / 0x800_0000;
  }

  /** First page below slot `i` of the table at `p`. */
  function Edge(p: Pos, i: nat): nat
    requires p.level >= 1
  {
    p.base + i * Span(p.level - 1)
  }

  /** One past the last user page below the table at `p`. */
  function End(p: Pos): nat
    requires p.level >= 1
  {
    Edge(p, Fanout(p.level))
  }

  lemma EdgeStep(p: Pos, i: nat)
    requires 1 <= p.level <= 4
    ensures Edge(p, 0) == p.base && Edge(p, i + 1) == Edge(p, i) + Span(p.level - 1)
    ensures Child(p, i) == Pos(p.space, p.level - 1, Edge(p, i))
    ensures p.level >= 2 ==> End(Child(p, i)) == Edge(p, i + 1)
    ensures p.level < 4 ==> End(p) == p.base + Span(p.level)
  {
    var s := Span(p.level - 1);
    assert (i + 1) * s == i * s + s;
    if p.level >= 2 { SpanStep(p.level - 1); }
    SpanStep(p.level);
  }

  lemma EdgeMono(p: Pos, i: nat, j: nat)
    requires 1 <= p.level <= 4 && i <= j
    ensures Edge(p, i) <= Edge(p, j)
  {
    if i < j { B.MulLess(i, j, Span(p.level - 1)); }
  }

  // ------------------------------------------------------------- the shape

  /** Which frame holds the table at a place, and the place of each table frame. */
  datatype Shape = Shape(at: map<Pos, nat>, pos: map<nat, Pos>)

  ghost predicate PosOk(T: Tables, sh: Shape, spaces: set<nat>, p: Pos) {
    && p in sh.at && sh.at[p] in T && |T[sh.at[p]]| == ENTRIES
    && sh.at[p] in sh.pos && sh.pos[sh.at[p]] == p
    && p.space in spaces && 1 <= p.level <= 4 && p.base % Span(p.level) == 0
    && (if p.level == 4 then p.base == 0 && sh.at[p] == p.space
        else p.base + Span(p.level) <= USER_PAGES && PathPos(Key(p.space, p.base), p.level + 1) in sh.at)
  }

  /** An entry is present exactly when there is a table at the child's place, and points to it. */
  ghost predicate LinkOk(T: Tables, sh: Shape, p: Pos, i: nat) {
    && p in sh.at && sh.at[p] in T && i < |T[sh.at[p]]| && p.level >= 1
    && (T[sh.at[p]][i].Some? <==> Child(p, i) in sh.at)
    && (T[sh.at[p]][i].Some? ==> T[sh.at[p]][i].value.frame == sh.at[Child(p, i)])
  }

  ghost predicate TablesOk(T: Tables, sh: Shape, spaces: set<nat>) {
    && (forall p {:trigger PosOk(T, sh, spaces, p)} :: p in sh.at ==> PosOk(T, sh, spaces, p))
    && (forall t :: t in sh.pos ==> sh.pos[t] in sh.at && sh.at[sh.pos[t]] == t)
    && (forall r :: r in spaces ==> Pos(r, 4, 0) in sh.at)
    && (forall p, i {:trigger LinkOk(T, sh, p, i)} ::
          p in sh.at && p.level >= 2 && 0 <= i < Fanout(p.level) ==> LinkOk(T, sh, p, i))
  }

  /** The flat map: the entry for a virtual page. */
  ghost function Lookup(T: Tables, sh: Shape, k: Key): Entry {
    var p := PathPos(k, 1);
    if p in sh.at && sh.at[p] in T && |T[sh.at[p]]| == ENTRIES then T[sh.at[p]][k.vpn % 512] else None
  }

  // --------------------------------------------------------------- walking

  lemma {:induction false} PathUp(T: Tables, sh: Shape, spaces: set<nat>, k: Key, lo: nat, hi: nat)
    requires TablesOk(T, sh, spaces) && 1 <= lo <= hi <= 4 && PathPos(k, lo) in sh.at
    ensures PathPos(k, hi) in sh.at
    decreases hi - lo
  {
    if lo < hi {
      assert PosOk(T, sh, spaces, PathPos(k, lo));
      PathParent(k, lo);
      PathUp(T, sh, spaces, k, lo + 1, hi);
    }
  }

  lemma PathParent(k: Key, level: nat)
    requires 1 <= level <= 3
    ensures PathPos(Key(k.space, PathPos(k, level).base), level + 1) == PathPos(k, level + 1)
  {
    SpanStep(level + 1);
    var b := PathPos(k, level).base;
    Split(k.vpn, level + 1);
    Split(b, level + 1);
    hide Span;
    B.DivIs(b, Span(level), k.vpn / Span(level), 0);
  }

  lemma UserIndex(vpn: nat, level: nat)
    requires vpn < USER_PAGES && 1 <= level <= 4
    ensures Index(vpn, level) < Fanout(level)
  {
    if level == 4 { assert vpn / 0x800_0000 < 256; }
  }

  /** The table walk of vmm_virt_to_phys, vmm_get_pte_flags, vmm_update_flags and vmm_unmap_page:
      from the table `t` on the way to `vpn` down to the page table, if it is there. */
  function Walk(T: Tables, ghost sh: Shape, ghost spaces: set<nat>, ghost space: nat, t: nat, level: nat,
                vpn: nat): (r: Option<nat>)
    requires TablesOk(T, sh, spaces) && vpn < USER_PAGES && 1 <= level <= 4
    requires PathPos(Key(space, vpn), level) in sh.at && t == sh.at[PathPos(Key(space, vpn), level)]
    ensures var p := PathPos(Key(space, vpn), 1);
            r == if p in sh.at then Some(sh.at[p]) else None
    decreases level
  {
    ghost var k := Key(space, vpn);
    assert PosOk(T, sh, spaces, PathPos(k, level));
    if level == 1 then Some(t)
    else
      assert LinkOk(T, sh, PathPos(k, level), Index(vpn, level)) by { UserIndex(vpn, level); }
      PathChild(k, level);
      match T[t][Index(vpn, level)]
      case None =>
        assert PathPos(k, 1) !in sh.at by {
          if PathPos(k, 1) in sh.at { PathUp(T, sh, spaces, k, 1, level - 1); }
        }
        None
      case Some(e) => Walk(T, sh, spaces, space, e.frame, level - 1, vpn)
  }

  /** A page lies on the way through exactly the table that covers it. */
  lemma CoverPath(p: Pos, v: nat)
    requires p.level <= 4 && p.base % Span(p.level) == 0 && p.Covers(v)
    ensures PathPos(Key(p.space, v), p.level) == p
  {
    var s := Span(p.level);
    B.DivIs(p.base, s, p.base / s, 0);
    B.DivIs(v, s, p.base / s, v - p.base);
  }

  lemma LeafPath(p: Pos, i: nat)
    requires p.level == 1 && p.base % 512 == 0 && i < 512
    ensures PathPos(Key(p.space, p.base + i), 1) == p && (p.base + i) % 512 == i
  {
  }

  /** What the table at a lowest place says of the pages it covers. */
  lemma LeafEntry(T: Tables, sh: Shape, spaces: set<nat>, p: Pos, i: nat)
    requires TablesOk(T, sh, spaces) && p in sh.at && p.level == 1 && i < 512
    ensures p.space in spaces && sh.at[p] in T && |T[sh.at[p]]| == ENTRIES
    ensures Lookup(T, sh, Key(p.space, p.base + i)) == T[sh.at[p]][i]
  {
    assert PosOk(T, sh, spaces, p);
    hide TablesOk;
    LeafPath(p, i);
  }

  /** Below an empty slot nothing is mapped. */
  lemma EmptySlot(T: Tables, sh: Shape, spaces: set<nat>, p: Pos, i: nat, v: nat)
    requires TablesOk(T, sh, spaces) && p in sh.at && p.level >= 2 && i < Fanout(p.level)
    requires PosOk(T, sh, spaces, p) && T[sh.at[p]][i].None? && Child(p, i).Covers(v)
    ensures Lookup(T, sh, Key(p.space, v)).None?
  {
    var k := Key(p.space, v);
    assert LinkOk(T, sh, p, i);
    ChildRange(p, i);
    CoverPath(Child(p, i), v);
    if PathPos(k, 1) in sh.at { PathUp(T, sh, spaces, k, 1, p.level - 1); }
  }

  // ---------------------------------------------------- changing one entry

  function EmptyTable(): Table { seq(ENTRIES, _ => None) }

  function LinkTables(T: Tables, t: nat, i: nat, e: Pte): Tables
    requires t in T && i < |T[t]|
  {
    T[e.frame := EmptyTable()][t := T[t][i := Some(e)]]
  }

  ghost function LinkShape(sh: Shape, p: Pos, i: nat, c: nat): Shape
    requires p.level >= 1
  {
    Shape(sh.at[Child(p, i) := c], sh.pos[c := Child(p, i)])
  }

  lemma ChildRange(p: Pos, i: nat)
    requires 2 <= p.level <= 4 && i < Fanout(p.level) && p.base % Span(p.level) == 0
    requires if p.level == 4 then p.base == 0 else p.base + Span(p.level) <= USER_PAGES
    ensures Child(p, i).base % Span(p.level - 1) == 0 && Child(p, i).base + Span(p.level - 1) <= USER_PAGES
    ensures PathPos(Key(p.space, Child(p, i).base), p.level) == p
    ensures Index(Child(p, i).base, p.level) == i
  {
    SpanStep(p.level);
    var s, t, c := Span(p.level - 1), Span(p.level), Child(p, i).base;
    assert 256 * Span(3) == USER_PAGES;
    var a := p.base / t;
    hide Span;
    assert p.base == a * t;
    assert c == a * t + i * s;
    assert i * s + s <= t by { assert (i + 1) * s <= 512 * s; }
    assert p.level == 4 ==> i * s + s <= 256 * s by { assert (i + 1) * s <= 256 * s || i >= 256; }
    B.DivIs(c, t, a, i * s);
    assert c == (a * 512 + i) * s by { assert a * (512 * s) + i * s == (a * 512 + i) * s; }
    B.DivIs(c, s, a * 512 + i, 0);
    B.DivIs(a * 512 + i, 512, a, i);
  }

  lemma ChildInjective(p: Pos, i: nat, q: Pos, j: nat)
    requires 2 <= p.level <= 4 && i < Fanout(p.level) && p.base % Span(p.level) == 0
    requires 2 <= q.level <= 4 && j < Fanout(q.level) && q.base % Span(q.level) == 0
    requires if p.level == 4 then p.base == 0 else p.base + Span(p.level) <= USER_PAGES
    requires if q.level == 4 then q.base == 0 else q.base + Span(q.level) <= USER_PAGES
    requires Child(p, i) == Child(q, j)
    ensures p == q && i == j
  {
    ChildRange(p, i);
    ChildRange(q, j);
  }

  /** Position facts that hold at every place of a well-formed set of tables. */
  lemma At(T: Tables, sh: Shape, spaces: set<nat>, p: Pos)
    requires TablesOk(T, sh, spaces) && p in sh.at
    ensures PosOk(T, sh, spaces, p)
  {
  }

  lemma FrameIsTable(T: Tables, sh: Shape, spaces: set<nat>, t: nat)
    requires TablesOk(T, sh, spaces) && t in sh.pos
    ensures t in T && |T[t]| == ENTRIES
  {
    At(T, sh, spaces, sh.pos[t]);
  }

  /** Hanging a fresh, empty table into an empty slot keeps the tables well formed and every lookup as it was. */
  lemma LinkKeeps(T: Tables, sh: Shape, spaces: set<nat>, p: Pos, i: nat, e: Pte)
    requires TablesOk(T, sh, spaces) && p in sh.at && p.level >= 2 && i < Fanout(p.level) && e.frame !in T
    requires PosOk(T, sh, spaces, p) && T[sh.at[p]][i].None?
    ensures TablesOk(LinkTables(T, sh.at[p], i, e), LinkShape(sh, p, i, e.frame), spaces)
    ensures forall k
      {:trigger Lookup(T, sh, k)}
      {:trigger Lookup(LinkTables(T, sh.at[p], i, e), LinkShape(sh, p, i, e.frame), k)} ::
      Lookup(LinkTables(T, sh.at[p], i, e), LinkShape(sh, p, i, e.frame), k) == Lookup(T, sh, k)
  {
    var U, sg, c := LinkTables(T, sh.at[p], i, e), LinkShape(sh, p, i, e.frame), Child(p, i);
    assert LinkOk(T, sh, p, i);
    assert e.frame !in sh.pos by { if e.frame in sh.pos { FrameIsTable(T, sh, spaces, e.frame); } }
    forall q {:trigger PosOk(U, sg, spaces, q)} | q in sg.at ensures PosOk(U, sg, spaces, q) {
      LinkKeepsPos(T, sh, spaces, p, i, e, q);
    }
    forall q, j {:trigger LinkOk(U, sg, q, j)} | q in sg.at && q.level >= 2 && 0 <= j < Fanout(q.level)
      ensures LinkOk(U, sg, q, j)
    {
      LinkKeepsLink(T, sh, spaces, p, i, e, q, j);
    }
    forall k ensures Lookup(U, sg, k) == Lookup(T, sh, k) {
      var q := PathPos(k, 1);
      if q in sh.at { At(T, sh, spaces, q); }
    }
  }

  lemma LinkKeepsPos(T: Tables, sh: Shape, spaces: set<nat>, p: Pos, i: nat, e: Pte, q: Pos)
    requires TablesOk(T, sh, spaces) && p in sh.at && p.level >= 2 && i < Fanout(p.level) && e.frame !in T
    requires e.frame !in sh.pos
    requires PosOk(T, sh, spaces, p) && Child(p, i) !in sh.at && q in LinkShape(sh, p, i, e.frame).at
    ensures PosOk(LinkTables(T, sh.at[p], i, e), LinkShape(sh, p, i, e.frame), spaces, q)
  {
    if q == Child(p, i) {
      ChildRange(p, i);
    } else {
      At(T, sh, spaces, q);
    }
  }

  lemma LinkKeepsLink(T: Tables, sh: Shape, spaces: set<nat>, p: Pos, i: nat, e: Pte, q: Pos, j: nat)
    requires TablesOk(T, sh, spaces) && p in sh.at && p.level >= 2 && i < Fanout(p.level) && e.frame !in T
    requires e.frame !in sh.pos
    requires PosOk(T, sh, spaces, p) && Child(p, i) !in sh.at
    requires q in LinkShape(sh, p, i, e.frame).at && q.level >= 2 && j < Fanout(q.level)
    ensures LinkOk(LinkTables(T, sh.at[p], i, e), LinkShape(sh, p, i, e.frame), q, j)
  {
    var c := Child(p, i);
    hide Span;
    if q == c {
      ChildRange(p, i);
      ChildRange(c, j);
      if Child(c, j) in sh.at { At(T, sh, spaces, Child(c, j)); }
    } else {
      At(T, sh, spaces, q);
      assert LinkOk(T, sh, q, j);
      if Child(q, j) == c { ChildInjective(q, j, p, i); }
    }
  }

  function SetEntry(T: Tables, t: nat, i: nat, e: Entry): Tables
    requires t in T && i < |T[t]|
  {
    T[t := T[t][i := e]]
  }

  /** Writing one entry of a page table changes the translation of one page. */
  lemma SetLeafKeeps(T: Tables, sh: Shape, spaces: set<nat>, k: Key, e: Entry)
    requires TablesOk(T, sh, spaces) && PathPos(k, 1) in sh.at && PosOk(T, sh, spaces, PathPos(k, 1))
    ensures TablesOk(SetEntry(T, sh.at[PathPos(k, 1)], k.vpn % 512, e), sh, spaces)
    ensures forall j
      {:trigger Lookup(T, sh, j)} {:trigger Lookup(SetEntry(T, sh.at[PathPos(k, 1)], k.vpn % 512, e), sh, j)} ::
      Lookup(SetEntry(T, sh.at[PathPos(k, 1)], k.vpn % 512, e), sh, j) == if j == k then e else Lookup(T, sh, j)
  {
    var p := PathPos(k, 1);
    var U := SetEntry(T, sh.at[p], k.vpn % 512, e);
    forall q {:trigger PosOk(U, sh, spaces, q)} | q in sh.at ensures PosOk(U, sh, spaces, q) { At(T, sh, spaces, q); }
    forall q, j {:trigger LinkOk(U, sh, q, j)} | q in sh.at && q.level >= 2 && 0 <= j < Fanout(q.level)
      ensures LinkOk(U, sh, q, j)
    {
      At(T, sh, spaces, q);
      assert LinkOk(T, sh, q, j);
    }
    forall j ensures Lookup(U, sh, j) == if j == k then e else Lookup(T, sh, j) {
      var q := PathPos(j, 1);
      if q in sh.at { At(T, sh, spaces, q); }
    }
  }

  /** What is not a table of these spaces does not matter to them. */
  lemma AgreeKeeps(T: Tables, U: Tables, sh: Shape, spaces: set<nat>)
    requires TablesOk(T, sh, spaces)
    requires forall t :: t in sh.pos ==> t in T && t in U && U[t] == T[t]
    ensures TablesOk(U, sh, spaces)
    ensures forall k {:trigger Lookup(T, sh, k)} {:trigger Lookup(U, sh, k)} :: Lookup(U, sh, k) == Lookup(T, sh, k)
  {
    forall q {:trigger PosOk(U, sh, spaces, q)} | q in sh.at ensures PosOk(U, sh, spaces, q) { At(T, sh, spaces, q); }
    forall q, j {:trigger LinkOk(U, sh, q, j)} | q in sh.at && q.level >= 2 && 0 <= j < Fanout(q.level)
      ensures LinkOk(U, sh, q, j)
    {
      At(T, sh, spaces, q);
      assert LinkOk(T, sh, q, j);
    }
    forall k ensures Lookup(U, sh, k) == Lookup(T, sh, k) {
      if PathPos(k, 1) in sh.at { At(T, sh, spaces, PathPos(k, 1)); }
    }
  }

  /** A fresh root with an empty user half is a space with nothing mapped. */
  lemma NewSpaceKeeps(T: Tables, sh: Shape, spaces: set<nat>, r: nat, root: Table)
    requires TablesOk(T, sh, spaces) && r !in T && r !in spaces && |root| == ENTRIES
    requires forall i :: 0 <= i < 256 ==> root[i].None?
    ensures TablesOk(T[r := root], AddRoot(sh, r), spaces + {r})
    ensures forall k {:trigger Lookup(T, sh, k)} {:trigger Lookup(T[r := root], AddRoot(sh, r), k)} ::
      Lookup(T[r := root], AddRoot(sh, r), k) == Lookup(T, sh, k)
  {
    var U, sg := T[r := root], AddRoot(sh, r);
    assert Pos(r, 4, 0) !in sh.at by { if Pos(r, 4, 0) in sh.at { At(T, sh, spaces, Pos(r, 4, 0)); } }
    assert r !in sh.pos by { if r in sh.pos { FrameIsTable(T, sh, spaces, r); } }
    forall q {:trigger PosOk(U, sg, spaces + {r}, q)} | q in sg.at ensures PosOk(U, sg, spaces + {r}, q) {
      if q != Pos(r, 4, 0) { At(T, sh, spaces, q); }
    }
    forall q, j {:trigger LinkOk(U, sg, q, j)} | q in sg.at && q.level >= 2 && 0 <= j < Fanout(q.level)
      ensures LinkOk(U, sg, q, j)
    {
      if q != Pos(r, 4, 0) {
        At(T, sh, spaces, q);
        assert LinkOk(T, sh, q, j);
      } else if Child(q, j) in sh.at {
        At(T, sh, spaces, Child(q, j));
      }
    }
    forall k ensures Lookup(U, sg, k) == Lookup(T, sh, k) {
      if PathPos(k, 1) in sh.at { At(T, sh, spaces, PathPos(k, 1)); }
    }
  }

  ghost function AddRoot(sh: Shape, r: nat): Shape {
    Shape(sh.at[Pos(r, 4, 0) := r], sh.pos[r := Pos(r, 4, 0)])
  }

  ghost function Without(sh: Shape, r: nat): Shape {
    Shape(map p | p in sh.at && p.space != r :: sh.at[p], map t | t in sh.pos && sh.pos[t].space != r :: sh.pos[t])
  }

  ghost function Only(sh: Shape, r: nat): Shape {
    Shape(map p | p in sh.at && p.space == r :: sh.at[p], map t | t in sh.pos && sh.pos[t].space == r :: sh.pos[t])
  }

  /** The tables of one space and those of the others are apart. */
  lemma SpacesApart(T: Tables, sh: Shape, spaces: set<nat>, r: nat)
    requires TablesOk(T, sh, spaces) && r in spaces
    ensures TablesOk(T, Without(sh, r), spaces - {r}) && TablesOk(T, Only(sh, r), {r})
    ensures sh.pos.Keys == Without(sh, r).pos.Keys + Only(sh, r).pos.Keys
    ensures Without(sh, r).pos.Keys !! Only(sh, r).pos.Keys
    ensures forall k: Key {:trigger Lookup(T, sh, k)} {:trigger Lookup(T, Without(sh, r), k)} ::
      k.space != r ==> Lookup(T, Without(sh, r), k) == Lookup(T, sh, k)
    ensures forall k: Key {:trigger Lookup(T, sh, k)} {:trigger Lookup(T, Only(sh, r), k)} ::
      k.space == r ==> Lookup(T, Only(sh, r), k) == Lookup(T, sh, k)
  {
    var w, o := Without(sh, r), Only(sh, r);
    forall q {:trigger PosOk(T, w, spaces - {r}, q)} | q in w.at
      ensures PosOk(T, w, spaces - {r}, q)
    {
      At(T, sh, spaces, q);
    }
    forall q {:trigger PosOk(T, o, {r}, q)} | q in o.at ensures PosOk(T, o, {r}, q) { At(T, sh, spaces, q); }
    forall q, j {:trigger LinkOk(T, w, q, j)} | q in w.at && q.level >= 2 && 0 <= j < Fanout(q.level)
      ensures LinkOk(T, w, q, j)
    {
      assert LinkOk(T, sh, q, j);
    }
    forall q, j {:trigger LinkOk(T, o, q, j)} | q in o.at && q.level >= 2 && 0 <= j < Fanout(q.level)
      ensures LinkOk(T, o, q, j)
    {
      assert LinkOk(T, sh, q, j);
    }
  }
}
