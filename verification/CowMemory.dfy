/** Copy-on-write memory as a state machine (src/mem/vmm.c): page-table entries of all
    address spaces, per-frame reference counts and frame contents.  Each operation is a
    step; the theorems say that every run keeps the reference counts exact and is
    indistinguishable from a machine that copies every page at fork. */
module CowMemory {

  const PAGE_BYTES: nat := 4096

  type Page = seq<int>

  function ZeroPage(): Page { seq(PAGE_BYTES, _ => 0) }

  lemma ZeroPageIs(i: nat)
    requires i < 4096
    ensures |ZeroPage()| == 4096 && ZeroPage()[i] == 0
  {
  }

  /** A present leaf entry.  `rest` holds its other flag bits. */
  datatype Pte = Pte(frame: nat, write: bool, cow: bool, dontFree: bool, rest: nat)

  /** A virtual page: the address space (its PML4) and the page number in it. */
  datatype Key = Key(space: nat, vpn: nat)

  datatype Mem = Mem(ptes: map<Key, Pte>, refs: map<nat, nat>, pages: map<nat, Page>, shared: map<nat, Page>)

  /** The entries through which frame `f` is owned (DONT_FREE entries own nothing). */
  ghost function Users(ptes: map<Key, Pte>, f: nat): set<Key> {
    set k | k in ptes && !ptes[k].dontFree && ptes[k].frame == f
  }

  ghost predicate EntryOk(m: Mem, k: Key)
    requires k in m.ptes
  {
    var e := m.ptes[k];
    if e.dontFree then e.frame in m.shared && !e.cow
    else e.frame in m.pages && e.frame in m.refs && (m.refs[e.frame] >= 2 ==> !e.write && e.cow)
  }

  ghost predicate FrameOk(m: Mem, f: nat)
    requires f in m.refs
  {
    m.refs[f] == |Users(m.ptes, f)| && m.refs[f] >= 1
  }

  /** The invariant: reference counts are exact, and a frame with two users is
      read-only and marked copy-on-write in all of them. */
  ghost predicate Inv(m: Mem) {
    && m.refs.Keys == m.pages.Keys && m.pages.Keys !! m.shared.Keys
    && (forall f :: f in m.pages ==> |m.pages[f]| == PAGE_BYTES)
    && (forall f :: f in m.shared ==> |m.shared[f]| == PAGE_BYTES)
    && (forall k {:trigger EntryOk(m, k)} :: k in m.ptes ==> EntryOk(m, k))
    && (forall f {:trigger FrameOk(m, f)} :: f in m.refs ==> FrameOk(m, f))
  }

  // ------------------------------------------------- the copying machine

  /** What a program can see at a virtual page: bytes of its own, or a window on a shared frame. */
  datatype Slot = Private(page: Page) | Window(frame: nat)

  datatype Eager = Eager(slots: map<Key, Slot>, shared: map<nat, Page>)

  ghost function Abs(m: Mem): Eager
    requires Inv(m)
  {
    Eager(map k | k in m.ptes :: SlotOf(m, k), m.shared)
  }

  ghost function SlotOf(m: Mem, k: Key): Slot
    requires Inv(m) && k in m.ptes
  {
    assert EntryOk(m, k);
    if m.ptes[k].dontFree then Window(m.ptes[k].frame) else Private(m.pages[m.ptes[k].frame])
  }

  // --------------------------------------------------------------- steps

  datatype Op =
    | Store(k: Key, off: nat, v: int)
    | MapZero(k: Key, pte: Pte)
    | MapWindow(k: Key, pte: Pte)
    | Share(src: Key, dst: Key)
    | CowCopy(k: Key, target: nat)
    | CowLast(k: Key)
    | Drop(k: Key)

  ghost predicate Enabled(m: Mem, op: Op) {
    match op
    case Store(k, off, v) => k in m.ptes && m.ptes[k].write && off < PAGE_BYTES
    case MapZero(k, pte) => k !in m.ptes && !pte.dontFree && pte.frame !in m.pages && pte.frame !in m.shared
    case MapWindow(k, pte) => k !in m.ptes && pte.dontFree && !pte.cow && pte.frame in m.shared
    case Share(src, dst) => src in m.ptes && dst !in m.ptes
    case CowCopy(k, f) => k in m.ptes && m.ptes[k].cow && !m.ptes[k].dontFree && f !in m.pages && f !in m.shared &&
                          m.ptes[k].frame in m.refs && m.refs[m.ptes[k].frame] > 1
    case CowLast(k) => k in m.ptes && m.ptes[k].cow && !m.ptes[k].dontFree &&
                       m.ptes[k].frame in m.refs && m.refs[m.ptes[k].frame] <= 1
    case Drop(k) => k in m.ptes
  }

  /** fork: owned pages become read-only and copy-on-write in both spaces; windows are copied as they are. */
  function CowFlags(e: Pte): Pte { if e.dontFree then e else e.(write := false, cow := true) }

  /** A resolved copy-on-write fault: writable again, mark gone. */
  function OwnFlags(e: Pte): Pte { e.(write := true, cow := false) }

  ghost function Step(m: Mem, op: Op): Mem
    requires Inv(m) && Enabled(m, op)
  {
    match op
    case Store(k, off, v) =>
      assert EntryOk(m, k);
      var f := m.ptes[k].frame;
      if m.ptes[k].dontFree then m.(shared := m.shared[f := m.shared[f][off := v]])
      else m.(pages := m.pages[f := m.pages[f][off := v]])
    case MapZero(k, pte) =>
      Mem(m.ptes[k := pte], m.refs[pte.frame := 1], m.pages[pte.frame := ZeroPage()], m.shared)
    case MapWindow(k, pte) => m.(ptes := m.ptes[k := pte])
    case Share(src, dst) =>
      assert EntryOk(m, src);
      var e := CowFlags(m.ptes[src]);
      m.(ptes := m.ptes[src := e][dst := e],
         refs := if e.dontFree then m.refs else m.refs[e.frame := m.refs[e.frame] + 1])
    case CowCopy(k, f) =>
      var e := m.ptes[k];
      assert EntryOk(m, k);
      Mem(m.ptes[k := OwnFlags(e).(frame := f)], m.refs[f := 1][e.frame := m.refs[e.frame] - 1],
          m.pages[f := m.pages[e.frame]], m.shared)
    case CowLast(k) => m.(ptes := m.ptes[k := OwnFlags(m.ptes[k])])
    case Drop(k) => DropKey(m, k)
  }

  /** An entry goes and its reference with it; the last reference takes the frame along. */
  ghost function DropKey(m: Mem, k: Key): Mem
    requires Inv(m) && k in m.ptes
  {
    assert EntryOk(m, k);
    var e := m.ptes[k];
    assert !e.dontFree ==> FrameOk(m, e.frame);
    if e.dontFree then m.(ptes := m.ptes - {k})
    else if m.refs[e.frame] == 1 then Mem(m.ptes - {k}, m.refs - {e.frame}, m.pages - {e.frame}, m.shared)
    else m.(ptes := m.ptes - {k}, refs := m.refs[e.frame := m.refs[e.frame] - 1])
  }

  ghost predicate EagerEnabled(e: Eager, op: Op) {
    match op
    case Store(k, off, v) => k in e.slots && off < PAGE_BYTES &&
                             (e.slots[k].Private? ==> |e.slots[k].page| == PAGE_BYTES) &&
                             (e.slots[k].Window? ==>
                                e.slots[k].frame in e.shared && |e.shared[e.slots[k].frame]| == PAGE_BYTES)
    case Share(src, dst) => src in e.slots
    case _ => true
  }

  /** The machine that copies: a shared page is a second copy of the bytes, and
      resolving a fault does nothing. */
  ghost function EagerStep(e: Eager, op: Op): Eager
    requires EagerEnabled(e, op)
  {
    match op
    case Store(k, off, v) =>
      (match e.slots[k]
       case Private(p) => e.(slots := e.slots[k := Private(p[off := v])])
       case Window(f) => e.(shared := e.shared[f := e.shared[f][off := v]]))
    case MapZero(k, pte) => e.(slots := e.slots[k := Private(ZeroPage())])
    case MapWindow(k, pte) => e.(slots := e.slots[k := Window(pte.frame)])
    case Share(src, dst) => e.(slots := e.slots[dst := e.slots[src]])
    case CowCopy(_, _) => e
    case CowLast(_) => e
    case Drop(k) => e.(slots := e.slots - {k})
  }

  // ------------------------------------------------------ counting users

  lemma UsersAdd(ptes: map<Key, Pte>, k: Key, e: Pte, f: nat)
    requires k !in ptes
    ensures Users(ptes[k := e], f) == Users(ptes, f) + (if !e.dontFree && e.frame == f then {k} else {})
    ensures |Users(ptes[k := e], f)| == |Users(ptes, f)| + (if !e.dontFree && e.frame == f then 1 else 0)
  {
    assert Users(ptes[k := e], f) == Users(ptes, f) + (if !e.dontFree && e.frame == f then {k} else {});
  }

  lemma UsersRemove(ptes: map<Key, Pte>, k: Key, f: nat)
    requires k in ptes
    ensures Users(ptes - {k}, f) == Users(ptes, f) - {k}
    ensures |Users(ptes - {k}, f)| + (if !ptes[k].dontFree && ptes[k].frame == f then 1 else 0) == |Users(ptes, f)|
  {
    assert Users(ptes - {k}, f) == Users(ptes, f) - {k};
    assert !ptes[k].dontFree && ptes[k].frame == f <==> k in Users(ptes, f);
  }

  lemma UsersReflag(ptes: map<Key, Pte>, k: Key, e: Pte, f: nat)
    requires k in ptes && e.frame == ptes[k].frame && e.dontFree == ptes[k].dontFree
    ensures Users(ptes[k := e], f) == Users(ptes, f)
  {
  }

  lemma UsersReplace(ptes: map<Key, Pte>, k: Key, e: Pte, f: nat)
    requires k in ptes
    ensures |Users(ptes[k := e], f)| + (if !ptes[k].dontFree && ptes[k].frame == f then 1 else 0)
         == |Users(ptes, f)| + (if !e.dontFree && e.frame == f then 1 else 0)
  {
    UsersRemove(ptes, k, f);
    UsersAdd(ptes - {k}, k, e, f);
    assert (ptes - {k})[k := e] == ptes[k := e];
  }

  lemma NoUsers(m: Mem, f: nat)
    requires Inv(m) && f !in m.pages
    ensures Users(m.ptes, f) == {}
  {
    forall k | k in m.ptes ensures k !in Users(m.ptes, f) { assert EntryOk(m, k); }
  }

  /** With one reference, the entry at hand is the only one. */
  lemma SoleUser(m: Mem, k: Key, j: Key)
    requires Inv(m) && k in m.ptes && j in m.ptes && !m.ptes[k].dontFree && !m.ptes[j].dontFree
    requires m.ptes[k].frame == m.ptes[j].frame && m.ptes[k].frame in m.refs && m.refs[m.ptes[k].frame] <= 1
    ensures k == j
  {
    var f := m.ptes[k].frame;
    assert FrameOk(m, f);
    assert k in Users(m.ptes, f) && j in Users(m.ptes, f);
    if k != j {
      assert {k, j} <= Users(m.ptes, f);
      SubsetSize({k, j}, Users(m.ptes, f));
    }
  }

  lemma {:induction false} SubsetSize<T>(a: set<T>, b: set<T>)
    requires a <= b
    ensures |a| <= |b|
  {
    if a != {} {
      var x :| x in a;
      SubsetSize(a - {x}, b - {x});
    }
  }

  // -------------------------------------------- one step, operation by operation

  lemma StoreStep(m: Mem, k: Key, off: nat, v: int)
    requires Inv(m) && Enabled(m, Store(k, off, v))
    ensures Inv(Step(m, Store(k, off, v)))
    ensures EagerEnabled(Abs(m), Store(k, off, v))
    ensures Abs(Step(m, Store(k, off, v))) == EagerStep(Abs(m), Store(k, off, v))
  {
    var n := Step(m, Store(k, off, v));
    assert EntryOk(m, k);
    forall j {:trigger EntryOk(n, j)} | j in n.ptes ensures EntryOk(n, j) { assert EntryOk(m, j); }
    forall f {:trigger FrameOk(n, f)} | f in n.refs ensures FrameOk(n, f) { assert FrameOk(m, f); }
    var e := EagerStep(Abs(m), Store(k, off, v));
    forall j | j in n.ptes ensures SlotOf(n, j) == e.slots[j] {
      assert EntryOk(m, j);
      if !m.ptes[k].dontFree && !m.ptes[j].dontFree && m.ptes[j].frame == m.ptes[k].frame { SoleUser(m, k, j); }
    }
    assert Abs(n).slots == e.slots;
  }

  lemma MapZeroStep(m: Mem, k: Key, pte: Pte)
    requires Inv(m) && Enabled(m, MapZero(k, pte))
    ensures Inv(Step(m, MapZero(k, pte)))
    ensures Abs(Step(m, MapZero(k, pte))) == EagerStep(Abs(m), MapZero(k, pte))
  {
    MapZeroKeeps(m, k, pte);
    var n := Step(m, MapZero(k, pte));
    var e := EagerStep(Abs(m), MapZero(k, pte));
    forall j | j in n.ptes ensures SlotOf(n, j) == e.slots[j] {
      if j != k { assert EntryOk(m, j); }
    }
    assert Abs(n).slots == e.slots;
  }

  lemma MapZeroKeeps(m: Mem, k: Key, pte: Pte)
    requires Inv(m) && Enabled(m, MapZero(k, pte))
    ensures Inv(Step(m, MapZero(k, pte)))
  {
    var n := Step(m, MapZero(k, pte));
    NoUsers(m, pte.frame);
    forall f {:trigger FrameOk(n, f)} | f in n.refs ensures FrameOk(n, f) {
      UsersAdd(m.ptes, k, pte, f);
      if f != pte.frame { assert FrameOk(m, f); }
    }
    forall j {:trigger EntryOk(n, j)} | j in n.ptes ensures EntryOk(n, j) {
      if j != k { assert EntryOk(m, j); }
    }
  }

  lemma MapWindowStep(m: Mem, k: Key, pte: Pte)
    requires Inv(m) && Enabled(m, MapWindow(k, pte))
    ensures Inv(Step(m, MapWindow(k, pte)))
    ensures Abs(Step(m, MapWindow(k, pte))) == EagerStep(Abs(m), MapWindow(k, pte))
  {
    var n := Step(m, MapWindow(k, pte));
    forall f {:trigger FrameOk(n, f)} | f in n.refs ensures FrameOk(n, f) {
      UsersAdd(m.ptes, k, pte, f);
      assert FrameOk(m, f);
    }
    forall j {:trigger EntryOk(n, j)} | j in n.ptes ensures EntryOk(n, j) {
      if j != k { assert EntryOk(m, j); }
    }
    var e := EagerStep(Abs(m), MapWindow(k, pte));
    forall j | j in n.ptes ensures SlotOf(n, j) == e.slots[j] {
      if j != k { assert EntryOk(m, j); }
    }
    assert Abs(n).slots == e.slots;
  }

  lemma ShareKeepsInv(m: Mem, src: Key, dst: Key)
    requires Inv(m) && Enabled(m, Share(src, dst))
    ensures Inv(Step(m, Share(src, dst)))
  {
    var n, e := Step(m, Share(src, dst)), CowFlags(m.ptes[src]);
    assert EntryOk(m, src);
    forall f {:trigger FrameOk(n, f)} | f in n.refs ensures FrameOk(n, f) {
      assert FrameOk(m, f);
      UsersReflag(m.ptes, src, e, f);
      UsersAdd(m.ptes[src := e], dst, e, f);
    }
    if !e.dontFree { assert FrameOk(m, e.frame); }
    forall j {:trigger EntryOk(n, j)} | j in n.ptes ensures EntryOk(n, j) {
      if j != dst {
        assert EntryOk(m, j);
        // An entry that joins the frame's first user was its only user.
        if j != src && !e.dontFree && !m.ptes[j].dontFree && m.ptes[j].frame == e.frame && m.refs[e.frame] <= 1 {
          SoleUser(m, src, j);
        }
      }
    }
  }

  lemma ShareStep(m: Mem, src: Key, dst: Key)
    requires Inv(m) && Enabled(m, Share(src, dst))
    ensures Inv(Step(m, Share(src, dst)))
    ensures src in Abs(m).slots && Abs(Step(m, Share(src, dst))) == EagerStep(Abs(m), Share(src, dst))
  {
    ShareKeepsInv(m, src, dst);
    var n := Step(m, Share(src, dst));
    var e := EagerStep(Abs(m), Share(src, dst));
    forall j | j in n.ptes ensures SlotOf(n, j) == e.slots[j] {
      assert EntryOk(m, src);
      if j != dst { assert EntryOk(m, j); }
    }
    assert Abs(n).slots == e.slots;
  }

  lemma CowCopyKeepsInv(m: Mem, k: Key, target: nat)
    requires Inv(m) && Enabled(m, CowCopy(k, target))
    ensures Inv(Step(m, CowCopy(k, target)))
  {
    var n, e := Step(m, CowCopy(k, target)), m.ptes[k];
    NoUsers(m, target);
    assert EntryOk(m, k) && FrameOk(m, e.frame);
    forall f {:trigger FrameOk(n, f)} | f in n.refs ensures FrameOk(n, f) {
      UsersReplace(m.ptes, k, n.ptes[k], f);
      if f != target { assert FrameOk(m, f); }
    }
    forall j {:trigger EntryOk(n, j)} | j in n.ptes ensures EntryOk(n, j) {
      if j != k { assert EntryOk(m, j); }
    }
  }

  lemma CowCopyStep(m: Mem, k: Key, target: nat)
    requires Inv(m) && Enabled(m, CowCopy(k, target))
    ensures Inv(Step(m, CowCopy(k, target)))
    ensures Abs(Step(m, CowCopy(k, target))) == Abs(m)
  {
    CowCopyKeepsInv(m, k, target);
    var n := Step(m, CowCopy(k, target));
    forall j | j in n.ptes ensures SlotOf(n, j) == SlotOf(m, j) {
      assert EntryOk(m, k) && EntryOk(m, j);
    }
    assert Abs(n).slots == Abs(m).slots;
  }

  lemma CowLastStep(m: Mem, k: Key)
    requires Inv(m) && Enabled(m, CowLast(k))
    ensures Inv(Step(m, CowLast(k)))
    ensures Abs(Step(m, CowLast(k))) == Abs(m)
  {
    var n := Step(m, CowLast(k));
    assert EntryOk(m, k);
    forall f {:trigger FrameOk(n, f)} | f in n.refs ensures FrameOk(n, f) {
      UsersReflag(m.ptes, k, n.ptes[k], f);
      assert FrameOk(m, f);
    }
    forall j {:trigger EntryOk(n, j)} | j in n.ptes ensures EntryOk(n, j) { assert EntryOk(m, j); }
    forall j | j in n.ptes ensures SlotOf(n, j) == SlotOf(m, j) { assert EntryOk(m, j); }
    assert Abs(n).slots == Abs(m).slots;
  }

  lemma DropKeepsInv(m: Mem, k: Key)
    requires Inv(m) && k in m.ptes
    ensures Inv(DropKey(m, k))
  {
    var n := DropKey(m, k);
    assert EntryOk(m, k);
    forall f {:trigger FrameOk(n, f)} | f in n.refs ensures FrameOk(n, f) {
      UsersRemove(m.ptes, k, f);
      assert FrameOk(m, f);
    }
    forall j {:trigger EntryOk(n, j)} | j in n.ptes ensures EntryOk(n, j) {
      assert EntryOk(m, j);
      if
        && !m.ptes[k].dontFree && !m.ptes[j].dontFree
        && m.ptes[j].frame == m.ptes[k].frame && m.refs[m.ptes[k].frame] == 1
      {
        SoleUser(m, k, j);
      }
    }
  }

  lemma DropStep(m: Mem, k: Key)
    requires Inv(m) && k in m.ptes
    ensures Inv(DropKey(m, k))
    ensures Abs(DropKey(m, k)) == EagerStep(Abs(m), Drop(k))
  {
    DropKeepsInv(m, k);
    var n := DropKey(m, k);
    var e := EagerStep(Abs(m), Drop(k));
    forall j | j in n.ptes ensures SlotOf(n, j) == e.slots[j] {
      assert EntryOk(m, j) && EntryOk(n, j);
    }
    assert Abs(n).slots == e.slots;
  }

  /** vmm_map_page over whatever is there, with a fresh frame. */
  function MapOver(m: Mem, k: Key, pte: Pte): Mem {
    Mem(m.ptes[k := pte], m.refs[pte.frame := 1], m.pages[pte.frame := ZeroPage()], m.shared)
  }

  /** Mapping over an entry that owns its frame strands a reference: the counts stay exact
      exactly when the page held no owned entry. */
  lemma MapOverExact(m: Mem, k: Key, pte: Pte)
    requires Inv(m) && !pte.dontFree && pte.frame !in m.pages && pte.frame !in m.shared
    ensures Inv(MapOver(m, k, pte)) <==> k !in m.ptes || m.ptes[k].dontFree
  {
    var n := MapOver(m, k, pte);
    if k !in m.ptes {
      MapZeroStep(m, k, pte);
    } else if m.ptes[k].dontFree {
      DropStep(m, k);
      MapZeroStep(DropKey(m, k), k, pte);
      assert (m.ptes - {k})[k := pte] == m.ptes[k := pte];
    } else {
      var f := m.ptes[k].frame;
      assert EntryOk(m, k) && FrameOk(m, f);
      UsersReplace(m.ptes, k, pte, f);
      assert !FrameOk(n, f);
    }
  }

  /** Two maps of page 0 in one space: the first frame keeps a reference that no entry accounts for. */
  lemma MapOverStrands()
    ensures
      exists m: Mem, k: Key, pte: Pte :: Inv(m) && !Inv(MapOver(m, k, pte)) && !pte.dontFree && pte.frame !in m.pages
  {
    var none := Mem(map[], map[], map[], map[]);
    var k, a, b := Key(0, 0), Pte(4096, true, false, false, 0), Pte(8192, true, false, false, 0);
    assert Inv(none);
    MapOverExact(none, k, a);
    MapOverExact(MapOver(none, k, a), k, b);
  }

  // ------------------------------------------------------------ every run

  /** Any step keeps the invariant and does what the copying machine does. */
  lemma StepRefines(m: Mem, op: Op)
    requires Inv(m) && Enabled(m, op)
    ensures Inv(Step(m, op))
    ensures EagerEnabled(Abs(m), op) && Abs(Step(m, op)) == EagerStep(Abs(m), op)
  {
    match op
    case Store(k, off, v) => StoreStep(m, k, off, v);
    case MapZero(k, pte) => MapZeroStep(m, k, pte);
    case MapWindow(k, pte) => MapWindowStep(m, k, pte);
    case Share(src, dst) => ShareStep(m, src, dst);
    case CowCopy(k, f) => CowCopyStep(m, k, f);
    case CowLast(k) => CowLastStep(m, k);
    case Drop(k) => DropStep(m, k);
  }

  /** One transition.  Only the first state of a run is asked to satisfy the invariant:
      that the later ones do is part of what is proved. */
  ghost predicate Next(m: Mem, op: Op, n: Mem) {
    Inv(m) ==> Enabled(m, op) && n == Step(m, op)
  }

  ghost predicate IsRun(ms: seq<Mem>, ops: seq<Op>) {
    |ms| == |ops| + 1 && Inv(ms[0]) && forall i :: 0 <= i < |ops| ==> Next(ms[i], ops[i], ms[i + 1])
  }

  ghost predicate IsEagerRun(es: seq<Eager>, ops: seq<Op>) {
    |es| == |ops| + 1 &&
    forall i :: 0 <= i < |ops| ==> EagerEnabled(es[i], ops[i]) && es[i + 1] == EagerStep(es[i], ops[i])
  }

  /** Every run, whatever the interleaving of the spaces in it, keeps the invariant and is,
      state by state, a run of the copying machine. */
  lemma {:induction false} RunRefines(ms: seq<Mem>, ops: seq<Op>) returns (es: seq<Eager>)
    requires IsRun(ms, ops)
    ensures forall i :: 0 <= i < |ms| ==> Inv(ms[i])
    ensures IsEagerRun(es, ops)
    ensures |es| == |ms| && forall i :: 0 <= i < |ms| ==> es[i] == Abs(ms[i])
  {
    hide Inv;
    hide Abs;
    if ops == [] {
      es := [Abs(ms[0])];
    } else {
      var n := |ops| - 1;
      es := RunRefines(ms[..n + 1], ops[..n]);
      assert Inv(ms[..n + 1][n]) && es[n] == Abs(ms[n]);
      assert Next(ms[n], ops[n], ms[n + 1]);
      hide EagerStep;
      StepRefines(ms[n], ops[n]);
      es := es + [Abs(ms[n + 1])];
    }
  }
}
