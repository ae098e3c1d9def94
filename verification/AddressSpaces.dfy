/** User address spaces (src/mem/vmm.c): page tables in frames of the physical memory
    manager, copy-on-write fork, fault handling, and tear-down. */
module AddressSpaces {
  import opened CowMemory
  import opened PageTables
  import opened PageRights
  import opened Stocks
  import CellTree
  import PhysicalMemory

  const PAGE_SIZE: nat := CellTree.PAGE_SIZE
  /** VMM_FLAG_USER and VMM_FLAG_NX, as carried in the uninterpreted part of an entry. */
  const USER: nat := 4
  const NX: nat := 0x8000_0000_0000_0000

  ghost function LevelMissing(at: set<Pos>, p: Pos): nat { if p in at then 0 else 1 }

  /** How many tables the page still lacks, with tables at the places `at`. */
  ghost function Missing(at: set<Pos>, k: Key): nat {
    LevelMissing(at, PathPos(k, 3)) + LevelMissing(at, PathPos(k, 2)) + LevelMissing(at, PathPos(k, 1))
  }

  /** The places of the tables that lead to a page, below the root. */
  ghost function Path(k: Key): set<Pos> { {PathPos(k, 3), PathPos(k, 2), PathPos(k, 1)} }

  /** What mapping a page does to the tables: those that were missing are there, or memory ran out on the way. */
  ghost predicate Tabled(a: Stock, at: set<Pos>, b: Stock, at': set<Pos>, k: Key, all: bool) {
    && Drawn(a, b, Missing(at, k), all)
    && at <= at' <= at + Path(k) && (all ==> at' == at + Path(k))
  }

  /** What mapping a fresh page does: its frame and the missing tables are taken, or memory ran out on the way; with
      a frame to begin with, that takes a missing table. */
  ghost predicate Paged(a: Stock, at: set<Pos>, b: Stock, at': set<Pos>, k: Key, mapped: bool) {
    && Drawn(a, b, 1 + Missing(at, k), mapped)
    && at <= at' <= at + Path(k) && (mapped ==> at' == at + Path(k))
    && (!mapped && a.free > 0 ==> Missing(at, k) > 0)
    && (a.free == 0 ==> b == a && at' == at)
  }

  lemma FrameThenTables(a: Stock, b: Stock, c: Stock, at: set<Pos>, at': set<Pos>, k: Key, mapped: bool)
    requires Took(a, b, 1) && Tabled(b, at, c, at', k, mapped)
    ensures Paged(a, at, c, at', k, mapped)
  {
    DrawnMore(a, b, c, 1, Missing(at, k), true, mapped);
  }

  lemma NoFrame(a: Stock, at: set<Pos>, k: Key)
    requires a.free == 0
    ensures Paged(a, at, a, at, k, false)
  {
    assert Took(a, a, 0);
  }

  /** While the pool has nodes, the page is mapped exactly when there is memory for it and its tables. */
  lemma PagedMeans(a: Stock, at: set<Pos>, b: Stock, at': set<Pos>, k: Key, mapped: bool)
    requires Paged(a, at, b, at', k, mapped)
    ensures a.nodes + 160 < CellTree.CELL_POOL_SIZE ==> (mapped <==> a.free >= (1 + Missing(at, k)) * PAGE_SIZE)
    ensures !mapped ==> b.free == 0
    ensures mapped ==> a.free > 0
  {
    DrawnMeans(a, b, 1 + Missing(at, k), mapped);
  }

  lemma TabledMeans(a: Stock, at: set<Pos>, b: Stock, at': set<Pos>, k: Key, all: bool)
    requires Tabled(a, at, b, at', k, all)
    ensures a.nodes + 120 < CellTree.CELL_POOL_SIZE ==> (all <==> a.free >= Missing(at, k) * PAGE_SIZE)
    ensures !all ==> b.free == 0 && Missing(at, k) > 0
  {
    DrawnMeans(a, b, Missing(at, k), all);
  }

  /** How many of the tables above `level` are missing. */
  ghost function MissingAbove(at: set<Pos>, k: Key, level: nat): nat {
    (if level < 3 then LevelMissing(at,
                                    PathPos(k, 3)) else 0) + (if level < 2 then LevelMissing(at, PathPos(k, 2)) else 0)
  }

  lemma NoLookup(a: Stock, at: set<Pos>, k: Key)
    ensures Took(a, a, MissingAbove(at, k, 3)) && at <= at + Path(k)
  {
  }

  /** The lookup of the table at `level`, after those above: the table is there, or memory has run out. */
  lemma OneLookup(a: Stock, at: set<Pos>, b: Stock, at1: set<Pos>, c: Stock, at2: set<Pos>, k: Key, level: nat,
                  got: bool)
    requires 1 <= level <= 3 && Took(a, b, MissingAbove(at, k, level)) && at <= at1 <= at + Path(k)
    requires (level < 3 ==> PathPos(k, 3) in at1) && (level < 2 ==> PathPos(k, 2) in at1)
    requires PathPos(k, level) in at1 <==> PathPos(k, level) in at
    requires got ==> Took(b, c, LevelMissing(at1, PathPos(k, level))) && at2 == at1 + {PathPos(k, level)}
    requires !got ==> c == b && c.free == 0 && at2 == at1 && PathPos(k, level) !in at1
    ensures got && level > 1 ==> Took(a, c, MissingAbove(at, k, level - 1)) && at <= at2 <= at + Path(k)
    ensures got && level == 1 ==> Tabled(a, at, c, at2, k, true)
    ensures !got ==> Tabled(a, at, c, at2, k, false)
  {
    assert PathPos(k, level) in Path(k);
    if got {
      TookMore(a, b, c, MissingAbove(at, k, level), LevelMissing(at, PathPos(k, level)));
    } else {
      assert MissingAbove(at, k, level) < Missing(at, k);
    }
  }

  function UserBit(rest: nat): nat { if rest / USER % 2 == 1 then USER else 0 }

  /** The flat map of all present user entries agrees with the tables. */
  ghost predicate PtesOk(T: Tables, sh: Shape, ptes: map<Key, Pte>) {
    forall k {:trigger Lookup(T, sh, k)} {:trigger k in ptes} ::
      (k in ptes <==> Lookup(T, sh, k).Some?) && (k in ptes ==> Lookup(T, sh, k) == Some(ptes[k]))
  }

  /** A shared (DONT_FREE) frame lies in an allocation of the rest of the kernel. */
  ghost predicate Held(outside: map<nat, nat>, f: nat) {
    f % PAGE_SIZE == 0 && exists b :: b in outside && b <= f < b + outside[b]
  }

  /** Every allocation is accounted for once: held by the rest of the kernel, a page table,
      a user page, or leaked. */
  ghost predicate Accounts(live: map<nat, nat>, outside: map<nat, nat>, T: set<nat>, P: set<nat>, leaked: set<nat>,
                           S: set<nat>) {
    && live.Keys == outside.Keys + T + P + leaked
    && outside.Keys !! T !! P !! leaked
    && (forall b :: b in outside ==> b in live && live[b] == outside[b])
    && S !! T && S !! P && S !! leaked
    && (forall f :: f in S ==> Held(outside, f))
  }

  ghost predicate RootsOk(T: Tables, spaces: set<nat>, kernelHalf: seq<Entry>) {
    |kernelHalf| == 256 && forall r :: r in spaces ==> r in T && |T[r]| == ENTRIES && T[r][256..] == kernelHalf
  }

  /** A new allocation enters the accounts as a table, a page, or a leak. */
  lemma AccountsAdd(live: map<nat, nat>, outside: map<nat, nat>, T: set<nat>, P: set<nat>, leaked: set<nat>,
                    S: set<nat>, f: nat, size: nat)
    requires Accounts(live, outside, T, P, leaked, S) && f !in live && f !in S
    ensures Accounts(live[f := size], outside, T + {f}, P, leaked, S)
    ensures Accounts(live[f := size], outside, T, P + {f}, leaked, S)
    ensures Accounts(live[f := size], outside, T, P, leaked + {f}, S)
  {
  }

  lemma AccountsLive(live: map<nat, nat>, outside: map<nat, nat>, T: set<nat>, P: set<nat>, leaked: set<nat>,
                     S: set<nat>)
    requires Accounts(live, outside, T, P, leaked, S)
    ensures T <= live.Keys && P <= live.Keys && T !! P && S !! P
    ensures outside.Keys <= live.Keys && outside.Keys !! T && outside.Keys !! P
  {
  }

  lemma AccountsRemove(live: map<nat, nat>, outside: map<nat, nat>, T: set<nat>, P: set<nat>, leaked: set<nat>,
                       S: set<nat>, f: nat)
    requires Accounts(live, outside, T, P, leaked, S)
    ensures f in T ==> Accounts(live - {f}, outside, T - {f}, P, leaked, S)
    ensures f in P ==> Accounts(live - {f}, outside, T, P - {f}, leaked, S)
  {
  }

  lemma LinkFresh(T: Tables, sh: Shape, spaces: set<nat>, ptes: map<Key, Pte>, kernelHalf: seq<Entry>, p: Pos, i: nat,
                  e: Pte)
    requires TablesOk(T, sh, spaces) && sh.pos.Keys == T.Keys && PtesOk(T, sh, ptes) && RootsOk(T, spaces, kernelHalf)
    requires p in sh.at && p.level >= 2 && i < Fanout(p.level) && e.frame !in T
    requires PosOk(T, sh, spaces, p) && T[sh.at[p]][i].None?
    ensures var U, sg := LinkTables(T, sh.at[p], i, e), LinkShape(sh, p, i, e.frame);
            TablesOk(U, sg, spaces) && sg.pos.Keys == U.Keys && U.Keys == T.Keys + {e.frame} &&
            PtesOk(U, sg, ptes) && RootsOk(U, spaces, kernelHalf) && U[e.frame] == EmptyTable()
    ensures Child(p, i) !in sh.at
  {
    LinkKeeps(T, sh, spaces, p, i, e);
    assert LinkOk(T, sh, p, i);
    var U := LinkTables(T, sh.at[p], i, e);
    forall r | r in spaces ensures r in U && |U[r]| == ENTRIES && U[r][256..] == kernelHalf {
      At(T, sh, spaces, Pos(r, 4, 0));
      if r == sh.at[p] { assert p == Pos(r, 4, 0); }
    }
  }

  lemma AccountsLeak(live: map<nat, nat>, outside: map<nat, nat>, T: set<nat>, P: set<nat>, leaked: set<nat>,
                     S: set<nat>, f: nat)
    requires Accounts(live, outside, T, P, leaked, S) && f in P
    ensures Accounts(live, outside, T, P - {f}, leaked + {f}, S) && f !in leaked
  {
  }

  /** A frame of a window is page-aligned, and if an allocation starts there it is not one of ours. */
  lemma AccountsFrame(live: map<nat, nat>, outside: map<nat, nat>, T: set<nat>, P: set<nat>, leaked: set<nat>,
                      S: set<nat>, f: nat)
    requires Accounts(live, outside, T, P, leaked, S)
    ensures f in S ==> f % PAGE_SIZE == 0 && f !in T && f !in P && (f in live ==> f in outside)
    ensures f in P ==> f !in T
  {
  }

  /** One reference less in the books; the last one takes the frame along. */
  ghost function UnrefMem(m: Mem, f: nat): Mem
    requires f in m.refs && m.refs[f] >= 1
  {
    if m.refs[f] == 1 then m.(refs := m.refs - {f}, pages := m.pages - {f}) else m.(refs := m.refs[f := m.refs[f] - 1])
  }

  lemma UnrefIs(m: Mem, f: nat)
    requires f in m.refs && m.refs[f] >= 1
    ensures UnrefMem(m, f).refs == if m.refs[f] == 1 then m.refs - {f} else m.refs[f := m.refs[f] - 1]
    ensures
      UnrefMem(m, f) == m.(refs := UnrefMem(m, f).refs, pages := if m.refs[f] == 1 then m.pages - {f} else m.pages)
  {
  }

  lemma OwnedOrShared(m: Mem, k: Key)
    requires Inv(m) && k in m.ptes
    ensures m.ptes[k].dontFree <==> m.ptes[k].frame !in m.pages
    ensures !m.ptes[k].dontFree ==> m.ptes[k].frame !in m.shared
    ensures !m.ptes[k].dontFree ==> m.ptes[k].frame in m.refs && m.refs[m.ptes[k].frame] >= 1
    ensures DropKey(m, k) == if m.ptes[k].dontFree then m.(ptes := m.ptes - {k})
                             else UnrefMem(m.(ptes := m.ptes - {k}), m.ptes[k].frame)
  {
    assert EntryOk(m, k);
    if !m.ptes[k].dontFree { assert FrameOk(m, m.ptes[k].frame); }
  }

  /** An entry gone with its reference, seen from the memory before and after it. */
  lemma EntryDropped(m: Mem, n: Mem, k: Key)
    requires Inv(m) && k in m.ptes
    requires m.ptes[k].dontFree || (m.ptes[k].frame in m.refs && m.refs[m.ptes[k].frame] >= 1)
    requires n == if m.ptes[k].dontFree then m.(ptes := m.ptes - {k})
                  else UnrefMem(m.(ptes := m.ptes - {k}), m.ptes[k].frame)
    ensures Inv(n) && Abs(n) == Abs(m).(slots := Abs(m).slots - {k})
  {
    hide Inv;
    hide Abs;
    OwnedOrShared(m, k);
    DropStep(m, k);
  }

  function RootTable(kernelHalf: seq<Entry>): Table { seq(256, _ => None) + kernelHalf }

  lemma SpaceFresh(T: Tables, sh: Shape, spaces: set<nat>, ptes: map<Key, Pte>, kernelHalf: seq<Entry>, r: nat)
    requires TablesOk(T, sh, spaces) && sh.pos.Keys == T.Keys && PtesOk(T, sh, ptes) && RootsOk(T, spaces, kernelHalf)
    requires r !in T
    ensures r !in spaces
    ensures var U, sg := T[r := RootTable(kernelHalf)], AddRoot(sh, r);
            TablesOk(U, sg, spaces + {r}) && sg.pos.Keys == U.Keys && U.Keys == T.Keys + {r} &&
            PtesOk(U, sg, ptes) && RootsOk(U, spaces + {r}, kernelHalf)
  {
    NewSpaceKeeps(T, sh, spaces, r, RootTable(kernelHalf));
    assert RootTable(kernelHalf)[256..] == kernelHalf;
  }

  // ---- how many entries there can be

  lemma {:induction false} InjectiveCard(S: set<Key>, num: map<Key, nat>, n: nat)
    requires S <= num.Keys && forall k :: k in S ==> num[k] < n
    requires forall j, k :: j in S && k in S && num[j] == num[k] ==> j == k
    ensures |S| <= n
    decreases n
  {
    if n > 0 {
      if k :| k in S && num[k] == n - 1 {
        InjectiveCard(S - {k}, num, n - 1);
      } else {
        InjectiveCard(S, num, n - 1);
      }
    } else {
      assert S == {};
    }
  }

  /** The number of an entry among all entries of all frames that can be page tables. */
  ghost function SlotNo(sh: Shape, k: Key): nat
    requires PathPos(k, 1) in sh.at
  {
    sh.at[PathPos(k, 1)] / PAGE_SIZE * 512 + k.vpn % 512
  }

  /** A frame cannot have enough users to wrap its 32-bit count. */
  lemma FewUsers(T: Tables, sh: Shape, spaces: set<nat>, ptes: map<Key, Pte>, f: nat)
    requires TablesOk(T, sh, spaces) && PtesOk(T, sh, ptes)
    requires forall t :: t in sh.pos ==> t % PAGE_SIZE == 0 && t / PAGE_SIZE < PhysicalMemory.MAX_PHYS_PAGES
    ensures |Users(ptes, f)| <= PhysicalMemory.MAX_PHYS_PAGES * 512
  {
    forall k | k in ptes
      ensures PathPos(k, 1) in sh.at && sh.at[PathPos(k, 1)] in sh.pos && sh.pos[sh.at[PathPos(k, 1)]] == PathPos(k, 1)
    {
      assert Lookup(T, sh, k).Some?;
      At(T, sh, spaces, PathPos(k, 1));
    }
    var num := map k | k in ptes :: SlotNo(sh, k);
    forall j, k | j in ptes && k in ptes && num[j] == num[k] ensures j == k {
      assert sh.at[PathPos(j, 1)] == sh.at[PathPos(k, 1)];
    }
    InjectiveCard(Users(ptes, f), num, PhysicalMemory.MAX_PHYS_PAGES * 512);
  }

  ghost function PutEntry(ptes: map<Key, Pte>, k: Key, e: Entry): map<Key, Pte> {
    match e
    case None => ptes - {k}
    case Some(pte) => ptes[k := pte]
  }

  lemma LeafSet(T: Tables, sh: Shape, spaces: set<nat>, ptes: map<Key, Pte>, kernelHalf: seq<Entry>, k: Key, e: Entry)
    requires TablesOk(T, sh, spaces) && PtesOk(T, sh, ptes) && RootsOk(T, spaces, kernelHalf)
    requires PathPos(k, 1) in sh.at && PosOk(T, sh, spaces, PathPos(k, 1))
    ensures var U := SetEntry(T, sh.at[PathPos(k, 1)], k.vpn % 512, e);
            && TablesOk(U, sh, spaces) && PtesOk(U, sh, PutEntry(ptes, k, e)) && RootsOk(U, spaces, kernelHalf)
            && U.Keys == T.Keys
  {
    SetLeafKeeps(T, sh, spaces, k, e);
    forall r | r in spaces ensures r != sh.at[PathPos(k, 1)] { At(T, sh, spaces, Pos(r, 4, 0)); }
  }

  /** The byte a program reads. */
  ghost function ReadSlot(e: Eager, k: Key, off: nat): Option<int> {
    if k !in e.slots then None else
      match e.slots[k]
      case Private(p) => if off < |p| then Some(p[off]) else None
      case Window(f) => if f in e.shared && off < |e.shared[f]| then Some(e.shared[f][off]) else None
  }

  lemma SlotSeen(m: Mem, k: Key)
    requires Inv(m)
    ensures Abs(m).shared == m.shared && (k in Abs(m).slots <==> k in m.ptes)
    ensures k in m.ptes ==>
      Abs(m).slots[k] ==
        if m.ptes[k].dontFree then Window(m.ptes[k].frame)
        else (assert EntryOk(m, k); Private(m.pages[m.ptes[k].frame]))
  {
  }

  lemma EntryFacts(m: Mem, k: Key)
    requires Inv(m) && k in m.ptes
    ensures var e := m.ptes[k];
      if e.dontFree then e.frame in m.shared && |m.shared[e.frame]| == PAGE_BYTES && !e.cow
      else e.frame in m.pages && |m.pages[e.frame]| == PAGE_BYTES && e.frame in m.refs && m.refs[e.frame] >= 1
  {
    assert EntryOk(m, k);
    if !m.ptes[k].dontFree { assert FrameOk(m, m.ptes[k].frame); }
  }

  /** A byte stored, seen from the memory before and after it. */
  lemma ByteStored(m: Mem, n: Mem, k: Key, off: nat, v: int)
    requires Inv(m) && Enabled(m, Op.Store(k, off, v))
    requires m.ptes[k].dontFree ==>
      var f := m.ptes[k].frame;
      f in m.shared && off < |m.shared[f]| && n == m.(shared := m.shared[f := m.shared[f][off := v]])
    requires !m.ptes[k].dontFree ==>
      var f := m.ptes[k].frame;
      f in m.pages && off < |m.pages[f]| && n == m.(pages := m.pages[f := m.pages[f][off := v]])
    ensures Inv(n) && EagerEnabled(Abs(m), Op.Store(k, off, v))
    ensures Abs(n) == EagerStep(Abs(m), Op.Store(k, off, v))
  {
    hide Inv;
    hide Abs;
    StepRefines(m, Op.Store(k, off, v));
  }

  /** A zeroed page in a frame of its own, seen from the memory before and after it. */
  lemma ZeroMapped(m: Mem, n: Mem, k: Key, pte: Pte)
    requires Inv(m) && Enabled(m, MapZero(k, pte))
    requires n == Mem(m.ptes[k := pte], m.refs[pte.frame := 1], m.pages[pte.frame := ZeroPage()], m.shared)
    ensures Inv(n) && Abs(n) == Abs(m).(slots := Abs(m).slots[k := Private(ZeroPage())])
  {
    hide Inv;
    hide Abs;
    MapZeroStep(m, k, pte);
  }

  /** A page copied to a frame of its own looks as it did. */
  lemma PageCopied(m: Mem, n: Mem, k: Key, f: nat)
    requires Inv(m) && Enabled(m, CowCopy(k, f)) && m.ptes[k].frame in m.pages
    requires var e := m.ptes[k];
      n == Mem(m.ptes[k := OwnFlags(e).(frame := f)], m.refs[f := 1][e.frame := m.refs[e.frame] - 1],
               m.pages[f := m.pages[e.frame]], m.shared)
    ensures Inv(n) && Abs(n) == Abs(m)
  {
    hide Inv;
    hide Abs;
    CowCopyStep(m, k, f);
  }

  lemma PutAndTaken<A, B>(m: map<A, B>, a: A, b: B)
    requires a !in m
    ensures m[a := b] - {a} == m
  {
  }

  /** Another entry has the frame of page `k` too. */
  ghost predicate Contended(ptes: map<Key, Pte>, k: Key)
    requires k in ptes
  {
    |Users(ptes, ptes[k].frame)| > 1
  }

  lemma CountTells(m: Mem, k: Key)
    requires Inv(m) && k in m.ptes && !m.ptes[k].dontFree && m.ptes[k].frame in m.refs
    ensures Contended(m.ptes, k) <==> m.refs[m.ptes[k].frame] > 1
  {
    assert FrameOk(m, m.ptes[k].frame);
  }

  /** Exactly the entry of page `k` changed: it is writable and no longer marked, and has a frame of its own, a new one
      exactly when others have the old one. */
  ghost predicate Owned(before: map<Key, Pte>, after: map<Key, Pte>, k: Key) {
    && k in before && k in after
    && after == before[k := Pte(after[k].frame, true, false, before[k].dontFree, before[k].rest)]
    && (after[k].frame != before[k].frame <==> Contended(before, k))
  }

  class Vmm {
    const pmm: PhysicalMemory.Pmm
    /** Entries 256 to 511 of the kernel's root table. */
    const kernelHalf: seq<Entry>
    /** The frames that are page tables, with their entries. */
    var tables: Tables
    /** The frames that are user pages, with their bytes. */
    var pages: map<nat, Page>
    /** Frames of the rest of the kernel that are mapped into user space as windows. */
    var shared: map<nat, Page>
    ghost var sh: Shape
    ghost var spaces: set<nat>
    ghost var ptes: map<Key, Pte>
    ghost var leaked: set<nat>
    /** Allocations of the rest of the kernel, with their sizes and their reference counts. */
    ghost const outside: map<nat, nat>
    ghost const outsideRefs: map<nat, nat>
    /** Whether only pages open to user mode are ever mapped. */
    ghost const userOnly: bool

    ghost function M(): Mem
      reads this`ptes, this`pages, this`shared, pmm
    {
      Mem(ptes, map f | f in pages :: pmm.RefOf(f), pages, shared)
    }

    /** Every allocation is accounted for, every table frame has one reference, and the rest of the kernel
        has the references it had. */
    ghost predicate Books()
      reads this`tables, this`pages, this`shared, this`leaked, pmm
    {
      && pmm.Valid() && pmm.AllDescribed()
      && Accounts(pmm.Live(), outside, tables.Keys, pages.Keys, leaked, shared.Keys)
      && (forall t :: t in tables ==> pmm.RefOf(t) == 1)
      && RefsKept()
    }

    ghost predicate RefsKept()
      reads pmm`refs
    {
      outsideRefs.Keys == outside.Keys && forall b :: b in outsideRefs ==> pmm.RefOf(b) == outsideRefs[b] >= 1
    }

    /** Somebody else's reference was dropped, and nothing brings it back. */
    ghost predicate Harmed()
      requires pmm.Valid()
      reads pmm
    {
      && outsideRefs.Keys == outside.Keys
      && (forall b :: b in outsideRefs && b in pmm.Live() ==> 1 <= pmm.RefOf(b) <= outsideRefs[b])
      && exists b :: b in outsideRefs && (b !in pmm.Live() || pmm.RefOf(b) < outsideRefs[b])
    }

    lemma HarmedIsInvalid()
      requires pmm.Valid() && Harmed()
      ensures !Books()
    {
    }

    /** What the walks and the calls to the allocator need, books or no books. */
    ghost predicate Sturdy()
      reads this, pmm
    {
      pmm.Valid() && pmm.AllDescribed() && Structure() && forall k :: k in ptes ==> ptes[k].frame % PAGE_SIZE == 0
    }

    /** The tables are well formed, and the flat map is what they say. */
    ghost predicate Structure()
      reads this`tables, this`sh, this`spaces, this`ptes
    {
      && TablesOk(tables, sh, spaces) && sh.pos.Keys == tables.Keys
      && PtesOk(tables, sh, ptes)
      && RootsOk(tables, spaces, kernelHalf)
      && Ways(tables, sh, userOnly)
    }

    ghost predicate ShapeValid()
      reads this, pmm
    {
      Books() && Structure()
    }

    /** And the reference counts are exact. */
    ghost predicate Valid()
      reads this, pmm
    {
      ShapeValid() && Inv(M())
    }

    /** What the programs see. */
    ghost function View(): Eager
      requires Valid()
      reads this, pmm
    {
      Abs(M())
    }

    /** A manager with no address space yet; everything allocated so far belongs to the rest of the kernel. */
    constructor (pmm: PhysicalMemory.Pmm, kernelHalf: seq<Entry>, windows: map<nat, Page>, ghost userOnly: bool)
      requires pmm.Valid() && pmm.AllDescribed() && |kernelHalf| == 256
      requires forall b :: b in pmm.Live() ==> pmm.RefOf(b) >= 1
      requires forall f :: f in windows ==> |windows[f]| == PAGE_BYTES && Held(pmm.Live(), f)
      ensures Valid() && this.pmm == pmm && this.kernelHalf == kernelHalf && this.userOnly == userOnly
      ensures spaces == {} && leaked == {} && outside == pmm.Live() && View() == Eager(map[], windows)
      ensures sh == Shape(map[], map[]) && ptes == map[] && shared == windows
    {
      hide PhysicalMemory.Pmm.Valid;
      hide PhysicalMemory.Pmm.Live;
      hide PhysicalMemory.Pmm.AllDescribed;
      hide PhysicalMemory.Pmm.RefOf;
      this.pmm, this.kernelHalf := pmm, kernelHalf;
      tables, pages, shared := map[], map[], windows;
      sh, spaces, ptes, leaked := Shape(map[], map[]), {}, map[], {};
      outside, outsideRefs := pmm.Live(), map b | b in pmm.Live() :: pmm.RefOf(b);
      this.userOnly := userOnly;
    }

    /** No window frame, and none of the frames in use, is ever handed out again. */
    lemma NewFrameIsNew(f: nat, live: map<nat, nat>)
      requires pmm.Valid() && f in pmm.Live() && f !in live && pmm.Live() == live[f := pmm.Live()[f]]
      requires Accounts(live, outside, tables.Keys, pages.Keys, leaked, shared.Keys)
      ensures f !in tables && f !in pages && f !in shared && f !in leaked && f !in outside
    {
      if f in shared {
        var b :| b in outside && b <= f < b + outside[b];
        pmm.AllocationsDisjoint(f, b);
        pmm.LiveSize(f);
      }
    }

    /** pmm_alloc_page: the frame is new to all accounts, which otherwise stand. */
    method AllocFrame() returns (f: nat)
      requires ShapeValid()
      modifies pmm
      ensures pmm.Valid() && pmm.AllDescribed() && pmm.totalMem == old(pmm.totalMem) && M() == old(M())
      ensures RefsKept() && forall t :: t in tables ==> pmm.RefOf(t) == 1
      ensures f == 0 ==> ShapeValid() && unchanged(pmm)
      ensures f == 0 <==> old(pmm.Exhausted())
      ensures f != 0 ==> Took(old(pmm.Left()), pmm.Left(), 1)
      ensures f != 0 ==> f in pmm.Live() && f !in tables && f !in pages && f !in shared && f !in outside && f !in leaked
      ensures f != 0 ==> pmm.RefOf(f) == 1
      ensures f != 0 ==> Accounts(pmm.Live(), outside, tables.Keys + {f}, pages.Keys, leaked, shared.Keys)
      ensures f != 0 ==> Accounts(pmm.Live(), outside, tables.Keys, pages.Keys + {f}, leaked, shared.Keys)
      ensures f != 0 ==> Accounts(pmm.Live(), outside, tables.Keys, pages.Keys, leaked + {f}, shared.Keys)
    {
      hide TablesOk;
      hide PtesOk;
      hide RootsOk;
      hide Accounts;
      hide PhysicalMemory.Pmm.Valid;
      hide PhysicalMemory.Pmm.Live;
      hide PhysicalMemory.Pmm.AllDescribed;
      hide PhysicalMemory.Pmm.RefOf;
      ghost var live := pmm.Live();
      AccountsLive(live, outside, tables.Keys, pages.Keys, leaked, shared.Keys);
      f := pmm.AllocFrame();
      assert M().refs == old(M()).refs;
      if f != 0 {
        NewFrameIsNew(f, live);
        AccountsAdd(live, outside, tables.Keys, pages.Keys, leaked, shared.Keys, f, pmm.Live()[f]);
      }
    }

    /** alloc_page_table, hung into an empty slot of the table at place `p`. */
    method NewTable(t: nat, i: nat, flags: Pte, ghost p: Pos) returns (c: nat)
      requires ShapeValid() && p in sh.at && sh.at[p] == t && p.level >= 2 && i < Fanout(p.level)
      requires t in tables && i < |tables[t]| && tables[t][i].None? && flags.write && (userOnly ==> UserMode(flags))
      modifies this`tables, this`sh, pmm
      ensures ShapeValid() && M() == old(M()) && pmm.totalMem == old(pmm.totalMem)
      ensures c == 0 <==> old(pmm.Exhausted())
      ensures c == 0 ==> tables == old(tables) && sh == old(sh) && unchanged(pmm)
      ensures c != 0 ==> Took(old(pmm.Left()), pmm.Left(), 1)
      ensures c != 0 ==> c !in old(tables) && Child(p, i) !in old(sh.at) && sh == LinkShape(old(sh), p, i, c)
      ensures c != 0 ==>
        c in tables && tables[c] == EmptyTable() && tables == LinkTables(old(tables), t, i, flags.(frame := c))
    {
      hide RefsKept;
      hide TablesOk;
      hide PtesOk;
      hide RootsOk;
      hide Accounts;
      hide PhysicalMemory.Pmm.Valid;
      hide PhysicalMemory.Pmm.Live;
      hide PhysicalMemory.Pmm.AllDescribed;
      hide PhysicalMemory.Pmm.RefOf;
      hide LinkTables;
      hide LinkShape;
      hide EmptyTable;
      hide PosOk;
      hide LinkOk;
      hide Span;
      hide Ways;
      SlotFacts(p, i);
      c := AllocFrame();
      if c == 0 { return; }
      var e := flags.(frame := c);
      LinkFresh(tables, sh, spaces, ptes, kernelHalf, p, i, e);
      WaysLinked(tables, sh, spaces, p, i, e, userOnly);
      tables := LinkTables(tables, t, i, e);
      sh := LinkShape(sh, p, i, c);
    }

    /** get_or_create_table for one slot of the table at place `p`. */
    method GetOrCreate(t: nat, i: nat, user: nat, ghost p: Pos) returns (c: nat)
      requires ShapeValid() && p in sh.at && sh.at[p] == t && p.level >= 2 && i < Fanout(p.level)
      requires t in tables && i < |tables[t]| && (userOnly ==> user / 4 % 2 == 1)
      modifies this`tables, this`sh, pmm
      ensures ShapeValid() && M() == old(M()) && pmm.totalMem == old(pmm.totalMem)
      ensures forall q :: q in old(sh.at) ==> q in sh.at && sh.at[q] == old(sh.at)[q]
      ensures forall q :: q in sh.at && q !in old(sh.at) ==> q == Child(p, i)
      ensures old(tables[t][i].None?) <==> old(Child(p, i) !in sh.at)
      ensures c != 0 ==>
        && Took(old(pmm.Left()), pmm.Left(), old(LevelMissing(sh.at.Keys, Child(p, i))))
        && sh.at.Keys == old(sh.at.Keys) + {Child(p, i)}
      ensures c == 0 <==> old(tables[t][i].None? && pmm.Exhausted())
      ensures c == 0 ==> tables == old(tables) && sh == old(sh) && unchanged(pmm) && Child(p, i) !in sh.at
      ensures c != 0 ==> Child(p, i) in sh.at && sh.at[Child(p, i)] == c && c in tables && |tables[c]| == ENTRIES
      ensures c != 0 && old(tables[t][i].Some?) ==> tables == old(tables) && sh == old(sh)
      ensures c != 0 && old(tables[t][i].None?) ==>
        && c !in old(tables) && sh == LinkShape(old(sh), p, i, c)
        && tables == LinkTables(old(tables), t, i, Pte(c, true, false, false, UserBit(user)))
    {
      hide RefsKept;
      hide TablesOk;
      hide PtesOk;
      hide RootsOk;
      hide Ways;
      hide Accounts;
      hide PhysicalMemory.Pmm.Valid;
      hide PhysicalMemory.Pmm.Live;
      hide PhysicalMemory.Pmm.AllDescribed;
      hide PhysicalMemory.Pmm.RefOf;
      SlotFacts(p, i);
      match tables[t][i] {
        case Some(e) =>
          c := e.frame;
          PlaceFacts(Child(p, i));
          AccountsLive(pmm.Live(), outside, tables.Keys, pages.Keys, leaked, shared.Keys);
          pmm.LiveFrame(c);
        case None =>
          c := NewTable(t, i, Pte(0, true, false, false, UserBit(user)), p);
      }
    }

    /** The three table lookups of vmm_map_page. */
    method PageTable(root: nat, vpn: nat, user: nat) returns (pt: nat)
      requires ShapeValid() && root in spaces && vpn < USER_PAGES && (userOnly ==> user / 4 % 2 == 1)
      modifies this`tables, this`sh, pmm
      ensures ShapeValid() && M() == old(M()) && pmm.totalMem == old(pmm.totalMem)
      ensures WayMade(old(tables), old(sh), tables, sh, Key(root, vpn), user / 4 % 2 == 1)
      ensures old(PathPos(Key(root, vpn), 1) in sh.at) ==> pt != 0
      ensures pt != 0 ==>
        && PathPos(Key(root, vpn), 1) in sh.at && sh.at[PathPos(Key(root, vpn), 1)] == pt && pt in tables
        && |tables[pt]| == ENTRIES
      ensures Tabled(old(pmm.Left()), old(sh.at.Keys), pmm.Left(), sh.at.Keys, Key(root, vpn), pt != 0)
    {
      hide RefsKept;
      hide TablesOk;
      hide PtesOk;
      hide RootsOk;
      hide Accounts;
      hide PhysicalMemory.Pmm.Valid;
      hide PhysicalMemory.Pmm.Live;
      hide PhysicalMemory.Pmm.AllDescribed;
      hide PhysicalMemory.Pmm.RefOf;
      hide Span;
      hide Structure;
      hide Books;
      hide LinkTables;
      hide PosOk;
      hide Took;
      hide RanOut;
      hide Drawn;
      hide Tabled;
      hide MissingAbove;
      hide LevelMissing;
      hide Path;
      hide WayMade;
      hide WayEntry;
      hide PathPos;
      var k := Key(root, vpn);
      ghost var a, at := pmm.Left(), sh.at.Keys;
      RootFacts(root, vpn);
      PathDown(k, 4);
      NoLookup(a, at, k);
      var pdpt := NextTable(root, user, k, 4);
      ghost var b, at1 := pmm.Left(), sh.at.Keys;
      ghost var T1, sh1 := tables, sh;
      OneLookup(a, at, a, at, b, at1, k, 3, pdpt != 0);
      if pdpt == 0 { return 0; }
      PathDown(k, 3);
      var pd := NextTable(pdpt, user, k, 3);
      ghost var c, at2 := pmm.Left(), sh.at.Keys;
      ghost var T2, sh2 := tables, sh;
      OneLookup(a, at, b, at1, c, at2, k, 2, pd != 0);
      WayMore(old(tables), old(sh), T1, sh1, T2, sh2, k, user / 4 % 2 == 1);
      if pd == 0 { return 0; }
      PathDown(k, 2);
      pt := NextTable(pd, user, k, 2);
      OneLookup(a, at, c, at2, pmm.Left(), sh.at.Keys, k, 1, pt != 0);
      WayMore(old(tables), old(sh), T2, sh2, tables, sh, k, user / 4 % 2 == 1);
    }

    /** One of the three lookups of vmm_map_page: the table below the one at the given level on the way to a page. */
    method NextTable(t: nat, user: nat, k: Key, level: nat) returns (c: nat)
      requires ShapeValid() && 2 <= level <= 4 && k.vpn < USER_PAGES && PathPos(k, level) in sh.at
      requires sh.at[PathPos(k, level)] == t && t in tables && |tables[t]| == ENTRIES
      requires userOnly ==> user / 4 % 2 == 1
      modifies this`tables, this`sh, pmm
      ensures ShapeValid() && M() == old(M()) && pmm.totalMem == old(pmm.totalMem)
      ensures WayMade(old(tables), old(sh), tables, sh, k, user / 4 % 2 == 1)
      ensures c != 0 ==>
        && Took(old(pmm.Left()), pmm.Left(), old(LevelMissing(sh.at.Keys, PathPos(k, level - 1))))
        && sh.at.Keys == old(sh.at.Keys) + {PathPos(k, level - 1)}
      ensures c == 0 <==> old(PathPos(k, level - 1) !in sh.at && pmm.Exhausted())
      ensures c == 0 ==> tables == old(tables) && sh == old(sh) && unchanged(pmm)
      ensures c != 0 ==>
        PathPos(k, level - 1) in sh.at && sh.at[PathPos(k, level - 1)] == c && c in tables && |tables[c]| == ENTRIES
      ensures forall q :: q in old(sh.at) ==> q in sh.at && sh.at[q] == old(sh.at)[q]
    {
      hide RefsKept;
      hide TablesOk;
      hide PtesOk;
      hide RootsOk;
      hide Ways;
      hide Accounts;
      hide PhysicalMemory.Pmm.Valid;
      hide PhysicalMemory.Pmm.Live;
      hide PhysicalMemory.Pmm.AllDescribed;
      hide PhysicalMemory.Pmm.RefOf;
      hide Span;
      hide Books;
      hide LinkTables;
      hide LinkShape;
      hide PosOk;
      hide WayMade;
      hide Took;
      PathDown(k, level);
      ghost var T: Tables, s := tables, sh;
      c := GetOrCreate(t, Index(k.vpn, level), user, PathPos(k, level));
      if c != 0 && T[t][Index(k.vpn, level)].None? {
        WayLinked(T, s, spaces, k, level, Pte(c, true, false, false, UserBit(user)), user / 4 % 2 == 1);
      } else {
        WaySame(T, s, k, user / 4 % 2 == 1);
      }
    }

    /** vmm_map_page: three table lookups, then one entry. */
    method MapPage(root: nat, vpn: nat, pte: Pte) returns (ok: bool)
      requires ShapeValid() && root in spaces && vpn < USER_PAGES && (userOnly ==> UserMode(pte))
      modifies this`tables, this`sh, this`ptes, pmm
      ensures ShapeValid()
      ensures WayMade(old(tables), old(sh), tables, sh, Key(root, vpn), UserMode(pte))
      ensures M() == old(M()).(ptes := if ok then old(ptes)[Key(root, vpn) := pte] else old(ptes))
      ensures old(PathPos(Key(root, vpn), 1) in sh.at) ==> ok
      ensures Tabled(old(pmm.Left()), old(sh.at.Keys), pmm.Left(), sh.at.Keys, Key(root, vpn), ok)
      ensures pmm.totalMem == old(pmm.totalMem)
    {
      hide RefsKept;
      hide TablesOk;
      hide PtesOk;
      hide RootsOk;
      hide Accounts;
      hide PhysicalMemory.Pmm.Valid;
      hide PhysicalMemory.Pmm.Live;
      hide PhysicalMemory.Pmm.AllDescribed;
      hide PhysicalMemory.Pmm.RefOf;
      hide Span;
      hide Structure;
      hide Books;
      hide LinkTables;
      hide PosOk;
      hide Tabled;
      hide WayMade;
      var pt := PageTable(root, vpn, pte.rest);
      if pt == 0 { return false; }
      WayStays(Key(root, vpn), Some(pte), UserMode(pte));
      ghost var T := tables;
      SetPte(pt, vpn % 512, Some(pte), Key(root, vpn));
      WayMore(old(tables), old(sh), T, sh, tables, sh, Key(root, vpn), UserMode(pte));
      return true;
    }

    /** Writes the entry for page `k` in its page table `pt`. */
    method SetPte(pt: nat, i: nat, e: Entry, ghost k: Key)
      requires Structure() && i == k.vpn % 512 && PathPos(k, 1) in sh.at && sh.at[PathPos(k, 1)] == pt
      requires pt in tables && |tables[pt]| == ENTRIES && (userOnly && e.Some? ==> UserMode(e.value))
      modifies this`tables, this`ptes
      ensures Structure() && M() == old(M()).(ptes := PutEntry(old(ptes), k, e)) && (old(Books()) ==> Books())
      ensures tables == SetEntry(old(tables), pt, i, e)
    {
      hide RefsKept;
      hide TablesOk;
      hide PtesOk;
      hide RootsOk;
      hide Accounts;
      hide PhysicalMemory.Pmm.Valid;
      hide PhysicalMemory.Pmm.Live;
      hide PhysicalMemory.Pmm.AllDescribed;
      hide PhysicalMemory.Pmm.RefOf;
      PlaceFacts(PathPos(k, 1));
      hide Ways;
      LeafSet(tables, sh, spaces, ptes, kernelHalf, k, e);
      WaysSet(tables, sh, spaces, k, e, userOnly);
      tables := SetEntry(tables, pt, i, e);
      ptes := PutEntry(ptes, k, e);
    }

    /** The walk that vmm_virt_to_phys and vmm_get_pte_flags share, and what it finds. */
    method GetPte(root: nat, vpn: nat) returns (e: Entry, pt: nat)
      requires Structure() && root in spaces && vpn < USER_PAGES
      ensures e == if Key(root, vpn) in ptes then Some(ptes[Key(root, vpn)]) else None
      ensures e.Some? ==>
        && PathPos(Key(root, vpn), 1) in sh.at && sh.at[PathPos(Key(root, vpn), 1)] == pt && pt in tables
        && |tables[pt]| == ENTRIES
    {
      hide TablesOk;
      hide RootsOk;
      hide Accounts;
      hide PhysicalMemory.Pmm.Valid;
      hide PhysicalMemory.Pmm.Live;
      hide PhysicalMemory.Pmm.AllDescribed;
      hide PhysicalMemory.Pmm.RefOf;
      hide Span;
      ghost var k := Key(root, vpn);
      RootFacts(root, vpn);
      assert k in ptes <==> Lookup(tables, sh, k).Some?;
      match Walk(tables, sh, spaces, root, root, 4, vpn) {
        case None => e, pt := None, 0;
        case Some(t) =>
          PlaceFacts(PathPos(k, 1));
          assert Index(vpn, 1) == vpn % 512 by { SpanZero(); }
          e, pt := tables[t][Index(vpn, 1)], t;
      }
    }

    /** vmm_unmap_page. */
    method UnmapPage(root: nat, vpn: nat)
      requires Structure() && root in spaces && vpn < USER_PAGES
      modifies this`tables, this`ptes
      ensures Structure() && (old(Books()) ==> Books()) && M() == old(M()).(ptes := old(ptes) - {Key(root, vpn)})
    {
      hide RefsKept;
      hide TablesOk;
      hide PtesOk;
      hide RootsOk;
      hide Accounts;
      hide PhysicalMemory.Pmm.Valid;
      hide PhysicalMemory.Pmm.Live;
      hide PhysicalMemory.Pmm.AllDescribed;
      hide PhysicalMemory.Pmm.RefOf;
      hide Span;
      RootFacts(root, vpn);
      match Walk(tables, sh, spaces, root, root, 4, vpn) {
        case None =>
          assert Key(root, vpn) !in ptes by { NoTableNoPte(Key(root, vpn)); }
          assert ptes - {Key(root, vpn)} == ptes;
        case Some(t) =>
          PlaceFacts(PathPos(Key(root, vpn), 1));
          SetPte(t, vpn % 512, None, Key(root, vpn));
      }
    }

    // ---- user accesses

    /** The entry through which a user access goes, if the tables let it through. */
    method UserAccess(root: nat, vpn: nat, write: bool) returns (e: Entry)
      requires Structure() && root in spaces && vpn < USER_PAGES
      ensures e.Some? <==> Open(tables, sh, Key(root, vpn), 4, write)
      ensures e.Some? ==> Key(root, vpn) in ptes && e == Some(ptes[Key(root, vpn)]) && (write ==> e.value.write)
      ensures userOnly ==> (e.Some? <==> Key(root, vpn) in ptes && (write ==> ptes[Key(root, vpn)].write))
    {
      hide TablesOk;
      hide RootsOk;
      hide Ways;
      hide Span;
      ghost var k := Key(root, vpn);
      RootFacts(root, vpn);
      OpenEnds(tables, sh, k, write);
      if userOnly { OpenMeans(tables, sh, spaces, k, write); }
      hide Open;
      assert k in ptes <==> Lookup(tables, sh, k).Some?;
      e := Access(tables, sh, spaces, root, root, 4, vpn, write);
    }

    /** A user read, as the hardware does it. */
    method Load(root: nat, vpn: nat, off: nat) returns (v: Option<int>)
      requires Valid() && root in spaces && vpn < USER_PAGES && off < PAGE_BYTES
      ensures v == if Open(tables, sh, Key(root, vpn), 4, false) then ReadSlot(View(), Key(root, vpn), off) else None
      ensures userOnly ==> v == ReadSlot(View(), Key(root, vpn), off)
    {
      hide RefsKept;
      hide TablesOk;
      hide PtesOk;
      hide RootsOk;
      hide Accounts;
      hide PhysicalMemory.Pmm.Valid;
      hide PhysicalMemory.Pmm.Live;
      hide PhysicalMemory.Pmm.AllDescribed;
      hide PhysicalMemory.Pmm.RefOf;
      hide Inv;
      hide Abs;
      hide Span;
      hide Open;
      hide Ways;
      ghost var k := Key(root, vpn);
      var e := UserAccess(root, vpn, false);
      SlotSeen(M(), k);
      match e {
        case None => v := None;
        case Some(pte) =>
          EntryFacts(M(), k);
          v := if pte.dontFree then Some(shared[pte.frame][off]) else Some(pages[pte.frame][off]);
      }
    }

    /** A user write: it goes through exactly when the entry is writable, and faults otherwise. */
    method Store(root: nat, vpn: nat, off: nat, v: int) returns (done: bool)
      requires Valid() && root in spaces && vpn < USER_PAGES && off < PAGE_BYTES
      modifies this`pages, this`shared
      ensures Valid() && (done <==> Open(tables, sh, Key(root, vpn), 4, true))
      ensures userOnly ==> (done <==> Key(root, vpn) in ptes && ptes[Key(root, vpn)].write)
      ensures !done ==> View() == old(View())
      ensures done ==> var op := Op.Store(Key(root, vpn), off, v);
        EagerEnabled(old(View()), op) && View() == EagerStep(old(View()), op)
    {
      hide RefsKept;
      hide TablesOk;
      hide PtesOk;
      hide RootsOk;
      hide Accounts;
      hide PhysicalMemory.Pmm.Valid;
      hide PhysicalMemory.Pmm.Live;
      hide PhysicalMemory.Pmm.AllDescribed;
      hide PhysicalMemory.Pmm.RefOf;
      hide Inv;
      hide Abs;
      hide Structure;
      hide Open;
      ghost var m, k := M(), Key(root, vpn);
      var e := UserAccess(root, vpn, true);
      if e.None? { return false; }
      EntryFacts(m, k);
      var f := e.value.frame;
      if e.value.dontFree {
        shared := shared[f := shared[f][off := v]];
        assert shared.Keys == old(shared).Keys;
      } else {
        pages := pages[f := pages[f][off := v]];
        assert pages.Keys == old(pages).Keys;
      }
      assert M().refs == m.refs;
      ByteStored(m, M(), k, off, v);
      return true;
    }

    // ---- faults

    /** vmm_handle_cow_fault: the page becomes writable, and nobody sees a byte change. */
    method HandleCowFault(root: nat, vpn: nat) returns (ok: bool)
      requires Valid() && root in spaces && vpn < USER_PAGES
      modifies this`tables, this`sh, this`ptes, this`pages, pmm
      ensures Valid() && View() == old(View()) && pmm.totalMem == old(pmm.totalMem)
      ensures ok <==> old(Key(root, vpn) in ptes && ptes[Key(root, vpn)].cow &&
                          !(Contended(ptes, Key(root, vpn)) && pmm.Exhausted()))
      ensures ok ==> Key(root, vpn) in ptes && Owned(old(ptes), ptes, Key(root, vpn))
      ensures ok ==>
        (ptes[Key(root, vpn)].frame == old(ptes)[Key(root, vpn)].frame <==>
           old(pmm.RefOf(ptes[Key(root, vpn)].frame)) <= 1)
      ensures ok && ptes[Key(root, vpn)].frame == old(ptes)[Key(root, vpn)].frame ==> unchanged(pmm)
      ensures ok && ptes[Key(root, vpn)].frame != old(ptes)[Key(root, vpn)].frame ==>
        Took(old(pmm.Left()), pmm.Left(), 1)
      ensures sh.at.Keys == old(sh.at.Keys)
      ensures !ok ==> M() == old(M()) && unchanged(pmm) && tables == old(tables) && sh == old(sh)
    {
      hide RefsKept;
      hide TablesOk;
      hide PtesOk;
      hide RootsOk;
      hide Accounts;
      hide PhysicalMemory.Pmm.Valid;
      hide PhysicalMemory.Pmm.Live;
      hide PhysicalMemory.Pmm.AllDescribed;
      hide PhysicalMemory.Pmm.RefOf;
      hide Inv;
      hide Abs;
      hide Span;
      ghost var m, k := M(), Key(root, vpn);
      var e, pt := GetPte(root, vpn);
      if e.None? || !e.value.cow { return false; }
      var frame0 := e.value.frame;
      EntryFacts(m, k);
      CountTells(m, k);
      EntryUserMode(k);
      hide Contended;
      hide Ways;
      if pmm.RefOf(frame0) <= 1 {
        CowLastStep(m, k);
        SetPte(pt, vpn % 512, Some(OwnFlags(e.value)), k);
        assert M() == Step(m, CowLast(k));
        return true;
      }
      ok := CopyOut(root, vpn, e.value);
    }

    /** A new frame with the given bytes, for a page about to be mapped. */
    method AllocPage(content: Page) returns (f: nat)
      requires ShapeValid()
      modifies this`pages, pmm
      ensures ShapeValid() && pmm.totalMem == old(pmm.totalMem)
      ensures f == 0 ==> M() == old(M()) && unchanged(pmm)
      ensures f == 0 <==> old(pmm.Exhausted())
      ensures f != 0 ==> f !in old(pages) && f !in shared && f !in tables && f !in leaked
      ensures f != 0 ==> M() == old(M()).(pages := old(pages)[f := content], refs := old(M()).refs[f := 1])
      ensures f != 0 ==> Took(old(pmm.Left()), pmm.Left(), 1)
    {
      hide RefsKept;
      hide TablesOk;
      hide PtesOk;
      hide RootsOk;
      hide Accounts;
      hide PhysicalMemory.Pmm.Valid;
      hide PhysicalMemory.Pmm.Live;
      hide PhysicalMemory.Pmm.AllDescribed;
      hide PhysicalMemory.Pmm.RefOf;
      hide Inv;
      hide Abs;
      f := AllocFrame();
      if f != 0 {
        pages := pages[f := content];
        assert pages.Keys == old(pages).Keys + {f};
        assert M().refs == old(M()).refs[f := 1];
      }
    }

    /** The copying half of the fault: a frame of its own for one of several users. */
    method CopyOut(root: nat, vpn: nat, pte: Pte) returns (ok: bool)
      requires Valid() && root in spaces && vpn < USER_PAGES
      requires Key(root, vpn) in ptes && ptes[Key(root, vpn)] == pte && pte.cow && !pte.dontFree
      requires pmm.RefOf(pte.frame) > 1
      modifies this`tables, this`sh, this`ptes, this`pages, pmm
      ensures Valid() && View() == old(View()) && pmm.totalMem == old(pmm.totalMem)
      ensures ok ==> Owned(old(ptes), ptes, Key(root, vpn)) && ptes[Key(root, vpn)].frame !in old(pages)
      ensures ok ==> Took(old(pmm.Left()), pmm.Left(), 1) && sh.at.Keys == old(sh.at.Keys)
      ensures ok <==> !old(pmm.Exhausted())
      ensures !ok ==> M() == old(M()) && unchanged(pmm) && tables == old(tables) && sh == old(sh)
    {
      hide RefsKept;
      hide TablesOk;
      hide PtesOk;
      hide RootsOk;
      hide Accounts;
      hide PhysicalMemory.Pmm.Valid;
      hide PhysicalMemory.Pmm.Live;
      hide PhysicalMemory.Pmm.AllDescribed;
      hide PhysicalMemory.Pmm.RefOf;
      hide Inv;
      hide Abs;
      hide Span;
      hide Books;
      hide Structure;
      hide Missing;
      ghost var m, k := M(), Key(root, vpn);
      hide Contended;
      EntryFacts(m, k);
      CountTells(m, k);
      EntryUserMode(k);
      PteHasTable(k);
      var f := AllocPage(pages[pte.frame]);
      if f == 0 { return false; }
      PathThere(k);
      var mapped := MapPage(root, vpn, OwnFlags(pte).(frame := f));
      assert pmm.RefOf(pte.frame) == M().refs[pte.frame] == m.refs[pte.frame];
      DropRef(pte.frame);
      PageCopied(m, M(), k, f);
      return true;
    }

    /** Where there is a page table, no table is missing. */
    lemma PathThere(k: Key)
      requires Structure() && PathPos(k, 1) in sh.at && k.vpn < USER_PAGES
      ensures Path(k) <= sh.at.Keys && Missing(sh.at.Keys, k) == 0
    {
      PathUp(tables, sh, spaces, k, 1, 2);
      PathUp(tables, sh, spaces, k, 1, 3);
    }

    lemma PteHasTable(k: Key)
      requires Structure() && k in ptes
      ensures PathPos(k, 1) in sh.at
    {
      assert Lookup(tables, sh, k).Some?;
    }

    /** pmm_page_unref on a user page that keeps other users. */
    method DropRef(f: nat)
      requires ShapeValid() && f in pages && pmm.RefOf(f) > 1
      modifies pmm
      ensures ShapeValid() && M() == old(M()).(refs := old(M()).refs[f := old(pmm.RefOf(f)) - 1])
      ensures pmm.totalMem == old(pmm.totalMem) && pmm.Left() == old(pmm.Left())
    {
      hide TablesOk;
      hide PtesOk;
      hide RootsOk;
      hide Accounts;
      hide PhysicalMemory.Pmm.Valid;
      hide PhysicalMemory.Pmm.Live;
      hide PhysicalMemory.Pmm.AllDescribed;
      hide PhysicalMemory.Pmm.RefOf;
      hide Inv;
      hide Abs;
      AccountsLive(pmm.Live(), outside, tables.Keys, pages.Keys, leaked, shared.Keys);
      pmm.LiveFrame(f);
      pmm.UnrefFrame(f);
      assert M().refs == old(M()).refs[f := old(pmm.RefOf(f)) - 1];
    }

    // ---- mapping and unmapping

    /** Allocate, map, zero: what brk, mmap and demand paging do for one page.  None of them looks at
        the outcome of the mapping, so a frame whose page table could not be had is lost. */
    method MapFresh(root: nat, vpn: nat, write: bool, rest: nat) returns (got: bool, mapped: bool)
      requires Valid() && root in spaces && vpn < USER_PAGES && (Key(root, vpn) in ptes ==> pmm.Exhausted())
      requires userOnly ==> rest / 4 % 2 == 1
      modifies this`tables, this`sh, this`ptes, this`pages, this`leaked, pmm
      ensures Valid() && pmm.totalMem == old(pmm.totalMem)
      ensures WayMade(old(tables), old(sh), tables, sh, Key(root, vpn), rest / 4 % 2 == 1)
      ensures mapped ==> got && leaked == old(leaked)
      ensures (got <==> !old(pmm.Exhausted())) && (!got ==> unchanged(pmm))
      ensures Paged(old(pmm.Left()), old(sh.at.Keys), pmm.Left(), sh.at.Keys, Key(root, vpn), mapped)
      ensures old(pmm.NodesFor(4)) ==>
        (mapped <==> old(pmm.freeMem >= (1 + Missing(sh.at.Keys, Key(root, vpn))) * PAGE_SIZE))
      ensures !mapped ==> ptes == old(ptes)
      ensures mapped ==>
        && Key(root, vpn) in ptes
        && ptes == old(ptes)[Key(root, vpn) := Pte(ptes[Key(root, vpn)].frame, write, false, false, rest)]
      ensures View() ==
        if mapped then old(View()).(slots := old(View()).slots[Key(root, vpn) := Private(ZeroPage())])
        else old(View())
      ensures !got ==> leaked == old(leaked)
      ensures got && !mapped ==> exists f :: f !in old(leaked) && leaked == old(leaked) + {f}
    {
      hide Structure;
      hide RefsKept;
      hide TablesOk;
      hide PtesOk;
      hide RootsOk;
      hide Accounts;
      hide PhysicalMemory.Pmm.Valid;
      hide PhysicalMemory.Pmm.Live;
      hide PhysicalMemory.Pmm.AllDescribed;
      hide PhysicalMemory.Pmm.RefOf;
      hide Inv;
      hide Abs;
      hide Span;
      hide ZeroPage;
      hide Took;
      hide Tabled;
      hide Paged;
      hide Missing;
      hide Books;
      hide WayMade;
      ghost var m, k := M(), Key(root, vpn);
      ghost var a, at := pmm.Left(), sh.at.Keys;
      WaySame(tables, sh, k, rest / 4 % 2 == 1);
      var f := AllocPage(ZeroPage());
      if f == 0 {
        NoFrame(a, at, k);
        PagedMeans(a, at, a, at, k, false);
        return false, false;
      }
      ghost var b := pmm.Left();
      assert m.refs.Keys == m.pages.Keys;
      var pte := Pte(f, write, false, false, rest);
      mapped := MapPage(root, vpn, pte);
      got := true;
      FrameThenTables(a, b, pmm.Left(), at, sh.at.Keys, k, mapped);
      PagedMeans(a, at, pmm.Left(), sh.at.Keys, k, mapped);
      if mapped {
        ZeroMapped(m, M(), k, pte);
      } else {
        LeakPage(f);
        PutAndTaken(m.pages, f, ZeroPage());
        PutAndTaken(m.refs, f, 1);
      }
    }

    /** The frame stays allocated, and nothing refers to it any more. */
    method LeakPage(f: nat)
      requires ShapeValid() && f in pages
      modifies this`pages, this`leaked
      ensures ShapeValid() && f !in old(leaked) && leaked == old(leaked) + {f}
      ensures M() == old(M()).(pages := old(pages) - {f}, refs := old(M()).refs - {f})
    {
      hide RefsKept;
      hide TablesOk;
      hide PtesOk;
      hide RootsOk;
      hide Accounts;
      hide PhysicalMemory.Pmm.Valid;
      hide PhysicalMemory.Pmm.Live;
      hide PhysicalMemory.Pmm.AllDescribed;
      hide PhysicalMemory.Pmm.RefOf;
      hide Inv;
      hide Abs;
      hide Span;
      AccountsLeak(pmm.Live(), outside, tables.Keys, pages.Keys, leaked, shared.Keys, f);
      pages, leaked := pages - {f}, leaked + {f};
      assert pages.Keys == old(pages).Keys - {f};
      assert M().refs == old(M()).refs - {f};
    }

    /** Mapping a frame of the rest of the kernel with DONT_FREE, as the compositor's buffers are. */
    method MapWindow(root: nat, vpn: nat, f: nat, write: bool, rest: nat) returns (mapped: bool)
      requires Valid() && root in spaces && vpn < USER_PAGES && Key(root, vpn) !in ptes && f in shared
      requires userOnly ==> rest / 4 % 2 == 1
      modifies this`tables, this`sh, this`ptes, pmm
      ensures Valid() && pmm.totalMem == old(pmm.totalMem)
      ensures WayMade(old(tables), old(sh), tables, sh, Key(root, vpn), rest / 4 % 2 == 1)
      ensures ptes == if mapped then old(ptes)[Key(root, vpn) := Pte(f, write, false, true, rest)] else old(ptes)
      ensures Tabled(old(pmm.Left()), old(sh.at.Keys), pmm.Left(), sh.at.Keys, Key(root, vpn), mapped)
      ensures old(pmm.NodesFor(3)) ==> (mapped <==> old(pmm.freeMem >= Missing(sh.at.Keys, Key(root, vpn)) * PAGE_SIZE))
      ensures
        View() == if mapped then old(View()).(slots := old(View()).slots[Key(root, vpn) := Window(f)]) else old(View())
    {
      hide Structure;
      hide RefsKept;
      hide TablesOk;
      hide PtesOk;
      hide RootsOk;
      hide Accounts;
      hide PhysicalMemory.Pmm.Valid;
      hide PhysicalMemory.Pmm.Live;
      hide PhysicalMemory.Pmm.AllDescribed;
      hide PhysicalMemory.Pmm.RefOf;
      hide Inv;
      hide Abs;
      hide Span;
      hide WayMade;
      ghost var m, k := M(), Key(root, vpn);
      var pte := Pte(f, write, false, true, rest);
      ghost var a, at := pmm.Left(), sh.at.Keys;
      mapped := MapPage(root, vpn, pte);
      TabledMeans(a, at, pmm.Left(), sh.at.Keys, k, mapped);
      if mapped { MapWindowStep(m, k, pte); }
    }

    /** With the allocations and counts as they were, `counts`, the books were in order. */
    ghost predicate BooksWere(live: map<nat, nat>, counts: map<nat, nat>)
      reads this`tables, this`pages, this`shared, this`leaked
    {
      && Accounts(live, outside, tables.Keys, pages.Keys, leaked, shared.Keys)
      && live.Keys == counts.Keys && outsideRefs.Keys == outside.Keys
      && (forall t :: t in tables ==> t in counts && counts[t] == 1)
      && (forall b :: b in outsideRefs ==> b in counts && counts[b] == outsideRefs[b] >= 1)
    }

    ghost predicate HarmedWere(live: map<nat, nat>, counts: map<nat, nat>) {
      && live.Keys == counts.Keys && outsideRefs.Keys == outside.Keys
      && (forall b :: b in outsideRefs && b in counts ==> 1 <= counts[b] <= outsideRefs[b])
      && exists b :: b in outsideRefs && (b !in counts || counts[b] < outsideRefs[b])
    }

    /** One reference to `f` was dropped since. */
    ghost predicate OneLess(live: map<nat, nat>, counts: map<nat, nat>, f: nat, gone: bool)
      requires pmm.Valid()
      reads pmm
    {
      && live.Keys == counts.Keys && pmm.Live() == (if gone then live - {f} else live)
      && (forall g :: g in pmm.Live() && g != f ==> g in counts && pmm.RefOf(g) == counts[g])
      && (f in counts && counts[f] >= 1 ==> pmm.RefOf(f) == counts[f] - 1 && (gone <==> counts[f] == 1))
    }

    lemma OthersKeep(live: map<nat, nat>, counts: map<nat, nat>, f: nat, gone: bool)
      requires pmm.Valid() && BooksWere(live, counts) && OneLess(live, counts, f, gone) && f !in tables && f !in outside
      ensures RefsKept() && forall t :: t in tables ==> pmm.RefOf(t) == 1
      ensures forall p :: p in pages && p != f ==> p in counts && pmm.RefOf(p) == counts[p]
    {
      hide PhysicalMemory.Pmm.Valid;
      hide PhysicalMemory.Pmm.Live;
      hide PhysicalMemory.Pmm.AllDescribed;
      hide PhysicalMemory.Pmm.RefOf;
      hide Accounts;
      AccountsLive(live, outside, tables.Keys, pages.Keys, leaked, shared.Keys);
    }

    lemma HarmDone(live: map<nat, nat>, counts: map<nat, nat>, f: nat, gone: bool)
      requires pmm.Valid() && OneLess(live, counts, f, gone)
      requires HarmedWere(live, counts) || (BooksWere(live, counts) && f in outside)
      ensures Harmed()
    {
      hide PhysicalMemory.Pmm.Valid;
      hide PhysicalMemory.Pmm.Live;
      hide PhysicalMemory.Pmm.AllDescribed;
      hide PhysicalMemory.Pmm.RefOf;
      hide Accounts;
      if HarmedWere(live, counts) {
        var b :| b in outsideRefs && (b !in counts || counts[b] < outsideRefs[b]);
        assert b !in pmm.Live() || pmm.RefOf(b) < outsideRefs[b];
      } else {
        AccountsLive(live, outside, tables.Keys, pages.Keys, leaked, shared.Keys);
        assert f in outsideRefs && (f !in pmm.Live() || pmm.RefOf(f) < outsideRefs[f]);
      }
    }

    lemma CountsNow() returns (counts: map<nat, nat>)
      requires pmm.Valid()
      ensures counts.Keys == pmm.Live().Keys && forall g :: g in counts ==> counts[g] == pmm.RefOf(g)
      ensures Books() ==> BooksWere(pmm.Live(), counts)
      ensures Harmed() ==> HarmedWere(pmm.Live(), counts)
    {
      hide PhysicalMemory.Pmm.Valid;
      hide PhysicalMemory.Pmm.Live;
      hide PhysicalMemory.Pmm.AllDescribed;
      hide PhysicalMemory.Pmm.RefOf;
      hide Accounts;
      counts := map g | g in pmm.Live() :: pmm.RefOf(g);
      if Books() { AccountsLive(pmm.Live(), outside, tables.Keys, pages.Keys, leaked, shared.Keys); }
      if Harmed() {
        var b :| b in outsideRefs && (b !in pmm.Live() || pmm.RefOf(b) < outsideRefs[b]);
        assert b !in counts || counts[b] < outsideRefs[b];
      }
    }

    lemma RefDropped(m: Mem, f: nat)
      requires m.refs.Keys == m.pages.Keys && f in m.refs && m.refs[f] >= 1 && ptes == m.ptes && shared == m.shared
      requires pages == if m.refs[f] == 1 then m.pages - {f} else m.pages
      requires forall p :: p in pages ==> pmm.RefOf(p) == if p == f then m.refs[f] - 1 else m.refs[p]
      ensures M() == UnrefMem(m, f)
    {
      hide PhysicalMemory.Pmm.RefOf;
      UnrefIs(m, f);
      assert M().refs == UnrefMem(m, f).refs;
    }

    /** The call that follows clearing an entry, whatever its frame is: a page of ours has a reference less, and goes
        with the last; a window inside an allocation changes nothing; and a window on the first frame of an allocation
        takes a reference of the rest of the kernel. */
    method Release(f: nat, viaFree: bool)
      requires pmm.Valid() && pmm.AllDescribed() && f % PAGE_SIZE == 0 && (Books() || Harmed())
      modifies this`pages, pmm
      ensures pmm.Valid() && pmm.AllDescribed() && pmm.totalMem == old(pmm.totalMem)
      ensures old(Books() && f in pages && pmm.RefOf(f) >= 1) ==> Books() && M() == UnrefMem(old(M()), f)
      ensures old(Books() && f in shared && f !in outside) ==> Books() && M() == old(M())
      ensures old(!Books() || f in outside) ==> Harmed()
      ensures Returned(old(pmm.Left()), pmm.Left())
    {
      hide PhysicalMemory.Pmm.Valid;
      hide PhysicalMemory.Pmm.Live;
      hide PhysicalMemory.Pmm.AllDescribed;
      hide PhysicalMemory.Pmm.RefOf;
      hide Accounts;
      hide Harmed;
      hide HarmedWere;
      hide BooksWere;
      hide RefsKept;
      hide UnrefMem;
      ghost var live, m, books := pmm.Live(), M(), Books();
      ghost var counts := CountsNow();
      if books {
        AccountsLive(live, outside, tables.Keys, pages.Keys, leaked, shared.Keys);
        AccountsFrame(live, outside, tables.Keys, pages.Keys, leaked, shared.Keys, f);
        AccountsRemove(live, outside, tables.Keys, pages.Keys, leaked, shared.Keys, f);
      }
      assert f !in live ==> live - {f} == live;
      var gone := pmm.LetGo(f, viaFree);
      assert OneLess(live, counts, f, gone);
      if !books || f in outside {
        HarmDone(live, counts, f, gone);
      } else if f !in tables {
        OthersKeep(live, counts, f, gone);
      }
      if gone && f in pages {
        pages := pages - {f};
        assert pages.Keys == m.pages.Keys - {f};
      }
      if books && f in m.pages && m.refs[f] >= 1 { RefDropped(m, f); }
      if books && f in shared && f !in outside { assert M().refs == m.refs; }
    }

    /** One page of sys_munmap (`viaFree`) or of a shrinking brk, which do not look at DONT_FREE.  It is right
        exactly when the page is no window on the first frame of an allocation of the rest of the kernel. */
    method DropPage(root: nat, vpn: nat, viaFree: bool)
      requires Sturdy() && (Valid() || Harmed()) && root in spaces && vpn < USER_PAGES
      modifies this`tables, this`ptes, this`pages, pmm
      ensures Sturdy() && (Valid() || Harmed()) && pmm.totalMem == old(pmm.totalMem)
      ensures Valid() <==> old(Valid() && !(Key(root, vpn) in ptes && ptes[Key(root, vpn)].frame in outside))
      ensures Valid() ==> View() == old(View()).(slots := old(View()).slots - {Key(root, vpn)})
      ensures ptes == old(ptes) - {Key(root, vpn)} && Returned(old(pmm.Left()), pmm.Left())
    {
      hide TablesOk;
      hide PtesOk;
      hide RootsOk;
      hide Accounts;
      hide PhysicalMemory.Pmm.Valid;
      hide PhysicalMemory.Pmm.Live;
      hide PhysicalMemory.Pmm.AllDescribed;
      hide PhysicalMemory.Pmm.RefOf;
      hide Inv;
      hide Abs;
      hide Span;
      hide DropKey;
      hide UnrefMem;
      hide RefsKept;
      hide Structure;
      hide Books;
      hide Harmed;
      ghost var m, k, valid := M(), Key(root, vpn), Valid();
      if Harmed() { HarmedIsInvalid(); }
      var e, _ := GetPte(root, vpn);
      if valid { SlotSeen(m, k); }
      if e.None? {
        if valid { assert View().slots - {k} == View().slots; }
        assert ptes - {k} == ptes;
        return;
      }
      if valid {
        EntryFacts(m, k);
        OwnedOrShared(m, k);
        OursOrTheirs(m.ptes[k].frame);
      }
      UnmapPage(root, vpn);
      if !valid { HarmedIsInvalid(); }
      assert M().refs == m.refs;
      Release(e.value.frame, viaFree);
      if valid && m.ptes[k].frame !in outside {
        EntryDropped(m, M(), k);
      } else {
        assert Harmed();
      }
      if Harmed() { HarmedIsInvalid(); }
    }

    lemma PageAligned(f: nat)
      requires Books() && (f in pages || f in shared)
      ensures f % PAGE_SIZE == 0
    {
      hide PhysicalMemory.Pmm.Valid;
      hide PhysicalMemory.Pmm.Live;
      hide PhysicalMemory.Pmm.AllDescribed;
      hide RefsKept;
      if f in pages {
        AccountsLive(pmm.Live(), outside, tables.Keys, pages.Keys, leaked, shared.Keys);
        pmm.LiveFrame(f);
      }
    }

    lemma ValidIsSturdy()
      requires Valid()
      ensures Sturdy()
    {
      hide Inv;
      forall k | k in ptes ensures ptes[k].frame % PAGE_SIZE == 0 {
        EntryFacts(M(), k);
        PageAligned(ptes[k].frame);
      }
    }

    lemma OursOrTheirs(f: nat)
      requires Books()
      ensures f in pages ==> f !in outside
    {
    }

    // ---- address spaces

    /** vmm_create_user_pml4: an empty user half below the kernel's half. */
    method CreateSpace() returns (r: nat)
      requires Valid()
      modifies this`tables, this`sh, this`spaces, pmm
      ensures Valid() && M() == old(M()) && View() == old(View()) && pmm.totalMem == old(pmm.totalMem)
      ensures r == 0 <==> old(pmm.Exhausted())
      ensures r == 0 ==> spaces == old(spaces) && sh == old(sh) && tables == old(tables) && unchanged(pmm)
      ensures r != 0 ==> Took(old(pmm.Left()), pmm.Left(), 1)
      ensures r != 0 ==> r !in old(spaces) && spaces == old(spaces) + {r} && sh == AddRoot(old(sh), r)
      ensures r != 0 ==> r in tables && tables == old(tables)[r := tables[r]] && r !in old(tables)
    {
      hide RefsKept;
      hide TablesOk;
      hide PtesOk;
      hide RootsOk;
      hide Accounts;
      hide PhysicalMemory.Pmm.Valid;
      hide PhysicalMemory.Pmm.Live;
      hide PhysicalMemory.Pmm.AllDescribed;
      hide PhysicalMemory.Pmm.RefOf;
      hide Inv;
      hide Abs;
      hide Span;
      r := AllocFrame();
      if r == 0 { return; }
      hide Ways;
      SpaceFresh(tables, sh, spaces, ptes, kernelHalf, r);
      WaysRoot(tables, sh, spaces, r, RootTable(kernelHalf), userOnly);
      tables := tables[r := RootTable(kernelHalf)];
      sh := AddRoot(sh, r);
      spaces := spaces + {r};
      assert Accounts(pmm.Live(), outside, tables.Keys, pages.Keys, leaked, shared.Keys);
      assert M() == old(M());
    }

    lemma NoTableNoPte(k: Key)
      requires PtesOk(tables, sh, ptes) && PathPos(k, 1) !in sh.at
      ensures k !in ptes
    {
      assert Lookup(tables, sh, k).None?;
    }

    lemma RootFacts(root: nat, vpn: nat)
      requires Structure() && root in spaces && vpn < USER_PAGES
      ensures PathPos(Key(root, vpn), 4) == Pos(root, 4, 0) && Pos(root, 4, 0) in sh.at
      ensures sh.at[Pos(root, 4, 0)] == root
      ensures PosOk(tables, sh, spaces, Pos(root, 4, 0))
    {
      assert PosOk(tables, sh, spaces, Pos(root, 4, 0));
    }

    lemma PathDown(k: Key, level: nat)
      requires Structure() && k.vpn < USER_PAGES && 2 <= level <= 4 && PathPos(k, level) in sh.at
      ensures PosOk(tables, sh, spaces, PathPos(k, level)) && Index(k.vpn, level) < Fanout(level)
      ensures Child(PathPos(k, level), Index(k.vpn, level)) == PathPos(k, level - 1)
      ensures PathPos(k, 1) in sh.at ==> PathPos(k, level - 1) in sh.at
    {
      PathChild(k, level);
      UserIndex(k.vpn, level);
      if PathPos(k, 1) in sh.at { PathUp(tables, sh, spaces, k, 1, level - 1); }
    }

    /** The entries of pages are open to user mode where all that is mapped is. */
    lemma EntryUserMode(k: Key)
      requires Structure() && k in ptes && k.vpn < USER_PAGES
      ensures userOnly ==> UserMode(ptes[k])
    {
      assert Lookup(tables, sh, k) == Some(ptes[k]);
      OnTheWay(tables, sh, spaces, k, 1);
      assert Index(k.vpn, 1) == k.vpn % 512 by { SpanZero(); }
    }

    lemma WayStays(k: Key, e: Entry, user: bool)
      requires Structure() && PathPos(k, 1) in sh.at
      ensures sh.at[PathPos(k, 1)] in tables && |tables[sh.at[PathPos(k, 1)]]| == ENTRIES
      ensures WayMade(tables, sh, SetEntry(tables, sh.at[PathPos(k, 1)], k.vpn % 512, e), sh, k, user)
    {
      At(tables, sh, spaces, PathPos(k, 1));
      WayKept(tables, sh, spaces, k, e, user);
    }

    lemma PlaceFacts(p: Pos)
      requires TablesOk(tables, sh, spaces) && p in sh.at
      ensures PosOk(tables, sh, spaces, p)
    {
    }

    lemma SlotFacts(p: Pos, i: nat)
      requires TablesOk(tables, sh, spaces) && p in sh.at && p.level >= 2 && i < Fanout(p.level)
      ensures LinkOk(tables, sh, p, i) && PosOk(tables, sh, spaces, p)
    {
    }
  }

  /** Only pages of the user half of a space are ever mapped. */
  lemma UserOnly(v: Vmm)
    requires v.Valid()
    ensures forall k :: k in v.View().slots ==> k.vpn < USER_PAGES && k.space in v.spaces
  {
    forall k | k in v.View().slots ensures k.vpn < USER_PAGES && k.space in v.spaces {
      SlotSeen(v.M(), k);
      assert Lookup(v.tables, v.sh, k).Some?;
      At(v.tables, v.sh, v.spaces, PathPos(k, 1));
    }
  }
}
