/** What programs see of the memory manager: processes with memories of their own, the calls that change them, and the
    physical memory these take. */
module Processes {
  import opened CowMemory
  import opened PageTables
  import opened AddressSpaces
  import opened Forking
  import opened TearDown
  import opened Syscalls
  import opened Stocks
  import CellTree

  /** What a process asks for, or what happens to it. */
  datatype Call =
    | Spawn
    | Fork(task: nat)
    | AddVma(task: nat, vma: Vma)
    | Write(task: nat, addr: nat, value: int)
    | Touch(task: nat, addr: nat)
    | Break(task: nat, newBrk: nat)
    | Unmap(task: nat, addr: nat, length: nat)
    | Show(task: nat, vpn: nat, frame: nat, write: bool)
    | Exit(task: nat)

  datatype Process = Process(pml4: nat, brkStart: nat, brkCurrent: nat, vmas: seq<Vma>)

  /** The memories, the rights on their pages, the processes; and the places of page tables, the physical memory left,
      and the number of frames lost. */
  datatype State = State(view: Eager, ptes: map<Key, Pte>, procs: seq<Process>, at: set<Pos>, left: Stock, lost: nat)

  ghost predicate Alive(s: State, i: nat) { i < |s.procs| && s.procs[i].pml4 != 0 }

  /** Processes have spaces of their own. */
  ghost predicate Apart(s: State) {
    forall i, j :: 0 <= i < j < |s.procs| && s.procs[i].pml4 != 0 ==> s.procs[i].pml4 != s.procs[j].pml4
  }

  /** No process has the space, and nothing is in it. */
  ghost predicate NewRoot(s: State, r: nat) {
    && r != 0 && (forall i :: 0 <= i < |s.procs| ==> s.procs[i].pml4 != r)
    && (forall k :: k in s.view.slots ==> k.space != r) && forall q :: q in s.at ==> q.space != r
  }

  /** A process with an empty memory, if there is a frame for its root table. */
  ghost predicate Started(a: State, b: State) {
    if a.left.free == 0 then b == a
    else
      && b.view == a.view && b.ptes == a.ptes && b.lost == a.lost && |b.procs| == |a.procs| + 1
      && var r := b.procs[|a.procs|].pml4;
      && NewRoot(a, r) && b.procs == a.procs + [Process(r, 0, 0, [])]
      && b.at == a.at + {Pos(r, 4, 0)} && Took(a.left, b.left, 1)
  }

  /** The pages `done` have been copied, which is all, or memory has run out: a fork takes as many frames as the parent
      has tables. */
  ghost predicate Copied(a: State, b: State, src: nat, dst: nat, done: set<nat>, whole: bool) {
    && Forked(a.view, b.view, src, dst, done) && Marked(a.ptes, b.ptes, src, dst, done)
    && Drawn(a.left, b.left, |TablesOf(a.at, src)|, whole)
    && (whole ==> forall x :: Key(src, x) in a.view.slots <==> x in done)
  }

  /** A process with a copy of its parent's memory; of all of it, unless memory runs out. */
  ghost predicate ForkedTo(a: State, b: State, i: nat) {
    && Alive(a, i)
    && if a.left.free == 0 then b == a
       else
         && |b.procs| == |a.procs| + 1 && b.lost == a.lost
         && var src, r := a.procs[i].pml4, b.procs[|a.procs|].pml4;
         && NewRoot(a, r) && b.procs == a.procs + [a.procs[i].(pml4 := r)]
         && Mirrors(a.at + {Pos(r, 4, 0)}, b.at, src, r)
         && exists done, whole :: Copied(a, b, src, r, done, whole)
  }

  ghost predicate InVma(vmas: seq<Vma>, addr: nat) { exists w :: w in vmas && w.start <= addr < w.end }

  /** A fault: a write to a marked page makes it writable, on a new frame exactly when others have the old one; an
      absent page of a VMA comes zeroed, unless memory runs out, and then its frame may be lost. */
  ghost predicate Faulted(a: State, b: State, i: nat, addr: nat, write: bool) {
    Alive(a, i) &&
    var p, vpn := a.procs[i], addr / PAGE_SIZE;
    var k := Key(p.pml4, vpn);
    if k in a.ptes && write && a.ptes[k].cow && !(Contended(a.ptes, k) && a.left.free == 0) then
      && b.procs == a.procs && b.view == a.view && b.at == a.at && b.lost == a.lost && Owned(a.ptes, b.ptes, k)
      && Drawn(a.left, b.left, if Contended(a.ptes, k) then 1 else 0, true)
    else if k in a.ptes || a.left.free == 0 || !InVma(p.vmas, addr) then b == a
    else
      && b.procs == a.procs && Extended(a.view, b.view, p.pml4, vpn, vpn + 1) && (k in b.view.slots <==> k in b.ptes)
      && Paged(a.left, a.at, b.left, b.at, k, k in b.ptes) && b.lost == a.lost + (if k in b.ptes then 0 else 1)
      && exists n ::
           FirstHolding(p.vmas, addr, n) && Granted(a.ptes, b.ptes, p.vmas[n].write, Rights(p.vmas[n]))
  }

  /** A store: a byte of the process changes, or of a frame it has a window on, exactly when the page is writable. */
  ghost predicate Stored(a: State, b: State, i: nat, addr: nat, value: int) {
    Alive(a, i) &&
    var k := Key(a.procs[i].pml4, addr / PAGE_SIZE);
    var op := Op.Store(k, addr % PAGE_SIZE, value);
    if k in a.ptes && a.ptes[k].write then EagerEnabled(a.view, op) && b == a.(view := EagerStep(a.view, op))
    else b == a
  }

  /** The byte at an address of a process, as it sees it. */
  ghost predicate Reads(s: State, i: nat, addr: nat, value: int) {
    Alive(s, i) && ReadSlot(s.view, Key(s.procs[i].pml4, addr / PAGE_SIZE), addr % PAGE_SIZE) == Some(value)
  }

  /** A write: a store, after a fault if there is no writable page. */
  ghost predicate Wrote(a: State, b: State, i: nat, addr: nat, value: int) {
    Alive(a, i) &&
    var k := Key(a.procs[i].pml4, addr / PAGE_SIZE);
    if k in a.ptes && a.ptes[k].write then Stored(a, b, i, addr, value)
    else exists m :: Faulted(a, m, i, addr, true) && Stored(m, b, i, addr, value)
  }

  /** The pages between the old and the new break come zeroed, or go; unless memory runs out, all of them come. */
  ghost predicate BreakMoved(a: State, b: State, i: nat, newBrk: nat) {
    Alive(a, i) &&
    var p := a.procs[i];
    var start, cur := BrkStart(p.brkStart), BrkCurrent(p.brkStart, p.brkCurrent);
    && |b.procs| == |a.procs|
    && var now := b.procs[i].brkCurrent;
    && b.procs == a.procs[i := p.(brkStart := start, brkCurrent := now)]
    && if newBrk < start then now == cur && b == a.(procs := b.procs)
       else if newBrk >= cur then
         var lo, hi := PageUp(cur), PageUp(newBrk);
         && Extended(a.view, b.view, p.pml4, lo, hi) && Granted(a.ptes, b.ptes, true, USER + NX)
         && (now == newBrk || now == cur) && a.lost <= b.lost <= a.lost + 1
         && Grown(a.left, a.at, b.left, b.at, a.ptes, p.pml4, lo, hi, now == newBrk && b.lost == a.lost)
         && (now == newBrk && b.lost == a.lost ==> AllMapped(b.view, p.pml4, lo, hi))
       else
         && now == newBrk && b.ptes == GonePtes(a.ptes, p.pml4, PageUp(newBrk), PageUp(cur))
         && b.view == a.view.(slots := Gone(a.view.slots, p.pml4, PageUp(newBrk), PageUp(cur)))
         && b.at == a.at && b.lost == a.lost && Returned(a.left, b.left)
  }

  ghost predicate Unmapped(a: State, b: State, i: nat, addr: nat, length: nat) {
    Alive(a, i) &&
    var p, lo, hi := a.procs[i], addr / PAGE_SIZE, addr / PAGE_SIZE + PageUp(length);
    && |b.procs| == |a.procs| && b.procs == a.procs[i := p.(vmas := b.procs[i].vmas)]
    && FirstRemoved(p.vmas, b.procs[i].vmas, addr)
    && b.ptes == GonePtes(a.ptes, p.pml4, lo, hi) && b.view == a.view.(slots := Gone(a.view.slots, p.pml4, lo, hi))
    && b.at == a.at && b.lost == a.lost && Returned(a.left, b.left)
  }

  /** A window on a shared frame opens, unless the page is taken or memory runs out. */
  ghost predicate Shown(a: State, b: State, i: nat, vpn: nat, frame: nat, write: bool) {
    Alive(a, i) &&
    var k := Key(a.procs[i].pml4, vpn);
    if k in a.ptes || frame !in a.view.shared then b == a
    else
      && b.procs == a.procs && b.lost == a.lost && Tabled(a.left, a.at, b.left, b.at, k, k in b.ptes)
      && if k in b.ptes then
           && b.ptes == a.ptes[k := Pte(frame, write, false, true, USER)]
           && b.view == a.view.(slots := a.view.slots[k := Window(frame)])
         else b.ptes == a.ptes && b.view == a.view
  }

  /** The process and its memory are gone. */
  ghost predicate Exited(a: State, b: State, i: nat) {
    Alive(a, i) &&
    var r := a.procs[i].pml4;
    && b.procs == a.procs[i := a.procs[i].(pml4 := 0)]
    && b.view == a.view.(slots := Others(a.view.slots, r)) && b.ptes == OtherPtes(a.ptes, r)
    && b.at == a.at - TablesOf(a.at, r) && b.lost == a.lost && Returned(a.left, b.left)
  }

  /** One call.  It does nothing if it names no living process or an address outside the user half. */
  ghost predicate Happened(c: Call, a: State, b: State) {
    if c.Spawn? then Started(a, b)
    else if !Alive(a, c.task) then b == a
    else
      var i := c.task;
      match c
      case Fork(_) => ForkedTo(a, b, i)
      case AddVma(_, w) => b == a.(procs := a.procs[i := a.procs[i].(vmas := [w] + a.procs[i].vmas)])
      case Write(_, addr, value) => if addr < USER_TOP then Wrote(a, b, i, addr, value) else b == a
      case Touch(_, addr) => if addr < USER_TOP then Faulted(a, b, i, addr, false) else b == a
      case Break(_, newBrk) => if newBrk <= USER_TOP then BreakMoved(a, b, i, newBrk) else b == a
      case Unmap(_, addr, length) =>
        if addr / PAGE_SIZE + PageUp(length) <= USER_PAGES then Unmapped(a, b, i, addr, length) else b == a
      case Show(_, vpn, frame, write) => if vpn < USER_PAGES then Shown(a, b, i, vpn, frame, write) else b == a
      case Exit(_) => Exited(a, b, i)
  }

  ghost predicate IsTrace(script: seq<Call>, trace: seq<State>) {
    |trace| == |script| + 1 && forall n :: 0 <= n < |script| ==> Happened(script[n], trace[n], trace[n + 1])
  }

  // ---- Isolation ----

  lemma StaysApart(c: Call, a: State, b: State)
    requires Apart(a) && Happened(c, a, b)
    ensures Apart(b) && |b.procs| >= |a.procs|
  {
  }

  /** A call of one process changes nothing another one has: not its break, its VMAs, nor a page of its memory. */
  lemma Isolated(c: Call, a: State, b: State, j: nat, k: Key)
    requires Apart(a) && Happened(c, a, b) && Alive(a, j) && (c.Spawn? || c.task != j)
    requires k.space == a.procs[j].pml4
    ensures j < |b.procs| && b.procs[j] == a.procs[j]
    ensures k in b.view.slots <==> k in a.view.slots
    ensures k in a.view.slots ==> b.view.slots[k] == a.view.slots[k]
  {
    hide Drawn, Took, Returned, Paged, Tabled, Mirrors, Grown, Granted, Marked, Owned, Contended, FirstHolding, InVma;
    hide FirstRemoved, GonePtes, OtherPtes, AllMapped, TablesOf, Copied, Wrote;
    if c.Fork? && ForkedTo(a, b, c.task) {
      ForkApart(a, b, c.task, k);
    } else if c.Write? && Alive(a, c.task) && Wrote(a, b, c.task, c.addr, c.value) {
      WriteApart(a, b, c.task, c.addr, c.value, k);
    }
  }

  lemma ForkApart(a: State, b: State, i: nat, k: Key)
    requires ForkedTo(a, b, i) && k.space != a.procs[i].pml4
    ensures b == a || |b.procs| > |a.procs|
    ensures b != a && k.space != b.procs[|a.procs|].pml4 ==>
      (k in a.view.slots <==> k in b.view.slots) && (k in a.view.slots ==> b.view.slots[k] == a.view.slots[k])
  {
    hide Drawn, Mirrors, Marked, TablesOf;
  }

  lemma WriteApart(a: State, b: State, i: nat, addr: nat, value: int, k: Key)
    requires Wrote(a, b, i, addr, value) && k.space != a.procs[i].pml4
    ensures b.procs == a.procs && (k in a.view.slots <==> k in b.view.slots)
    ensures k in a.view.slots ==> b.view.slots[k] == a.view.slots[k]
  {
    hide Drawn, Took, Paged, Granted, Owned, Contended, FirstHolding, InVma;
  }

  /** Over a whole run, a process that does nothing keeps its memory byte for byte, whatever the others do. */
  lemma {:induction false} RunIsolated(script: seq<Call>, trace: seq<State>, j: nat, k: Key)
    requires IsTrace(script, trace) && Apart(trace[0]) && Alive(trace[0], j) && k.space == trace[0].procs[j].pml4
    requires forall c :: c in script ==> c.Spawn? || c.task != j
    ensures j < |trace[|script|].procs| && trace[|script|].procs[j] == trace[0].procs[j]
    ensures k in trace[|script|].view.slots <==> k in trace[0].view.slots
    ensures k in trace[0].view.slots ==> trace[|script|].view.slots[k] == trace[0].view.slots[k]
    decreases |script|
  {
    hide Happened;
    if |script| > 0 {
      assert Happened(script[0], trace[0], trace[1]);
      StaysApart(script[0], trace[0], trace[1]);
      Isolated(script[0], trace[0], trace[1], j, k);
      RunIsolated(script[1..], trace[1..], j, k);
    }
  }

  /** What a child sees is what its parent had at the fork, if there were frames for its tables. */
  lemma ChildSees(a: State, b: State, i: nat, x: nat)
    requires ForkedTo(a, b, i) && a.left.free >= |TablesOf(a.at, a.procs[i].pml4)| * PAGE_SIZE > 0
    requires a.left.nodes + 40 * |TablesOf(a.at, a.procs[i].pml4)| < CellTree.CELL_POOL_SIZE
    ensures |b.procs| == |a.procs| + 1
    ensures var src, r := Key(a.procs[i].pml4, x), Key(b.procs[|a.procs|].pml4, x);
            && (r in b.view.slots <==> src in a.view.slots)
            && (src in a.view.slots ==> b.view.slots[r] == a.view.slots[src])
  {
    var src, r := a.procs[i].pml4, b.procs[|a.procs|].pml4;
    var done, whole :| Copied(a, b, src, r, done, whole);
    DrawnMeans(a.left, b.left, |TablesOf(a.at, src)|, whole);
  }

  // ---- How much memory a script takes ----

  /** A bound on the tables a call adds to a process. */
  function TableGain(c: Call): nat {
    match c
    case Write(_, _, _) => 3
    case Touch(_, _) => 3
    case Show(_, _, _, _) => 3
    case Break(_, newBrk) => 3 * BreakPages(newBrk)
    case _ => 0
  }

  /** No more pages than this lie between a process's break and a new one. */
  function BreakPages(newBrk: nat): nat {
    if newBrk < USER_BRK_DEFAULT then 0 else PageUp(newBrk) - PageUp(USER_BRK_DEFAULT)
  }

  /** A bound on the page allocations of a call, when no process has more than `tables` page tables. */
  function CallNeed(c: Call, tables: nat): nat {
    match c
    case Spawn => 1
    case Fork(_) => tables
    case Write(_, _, _) => 4
    case Touch(_, _) => 4
    case Show(_, _, _, _) => 3
    case Break(_, newBrk) => 4 * BreakPages(newBrk)
    case _ => 0
  }

  /** And of a script. */
  function Need(script: seq<Call>, tables: nat): nat {
    if script == [] then 0
    else CallNeed(script[0], tables) + Need(script[1..], tables + TableGain(script[0]))
  }

  /** There are pages for `need` allocations, and nodes for their splits. */
  predicate Affords(left: Stock, need: nat) {
    left.free >= need * PAGE_SIZE && left.nodes + 40 * need < CellTree.CELL_POOL_SIZE
  }

  /** No process has more than `tables` tables, and breaks are at or above the default. */
  ghost predicate Lean(s: State, tables: nat) {
    && Apart(s) && tables >= 1 && forall i :: 0 <= i < |s.procs| ==> LeanProcess(s.at, s.procs[i], tables)
  }

  ghost predicate LeanProcess(at: set<Pos>, p: Process, tables: nat) {
    && (p.pml4 != 0 ==> Pos(p.pml4, 4, 0) in at && |TablesOf(at, p.pml4)| <= tables)
    && (p.brkStart == 0 || (p.brkStart == USER_BRK_DEFAULT && p.brkCurrent >= USER_BRK_DEFAULT))
  }

  /** What a call may cost. */
  ghost predicate Spent(a: Stock, b: Stock, need: nat) {
    b.free + need * PAGE_SIZE >= a.free && b.nodes <= a.nodes + 40 * need
  }

  lemma DrawnAfforded(a: Stock, b: Stock, need: nat, all: bool, bound: nat)
    requires Drawn(a, b, need, all) && need <= bound && Affords(a, bound)
    ensures all && Spent(a, b, bound)
  {
    DrawnMeans(a, b, need, all);
  }

  lemma SubsetSize<T>(a: set<T>, b: set<T>)
    requires a <= b
    ensures |a| <= |b|
  {
    assert b == a + (b - a);
  }

  lemma CountMore(at: set<Pos>, at': set<Pos>, extra: set<Pos>, r: nat)
    requires at' <= at + extra
    ensures |TablesOf(at', r)| <= |TablesOf(at, r)| + |extra|
  {
    SubsetSize(TablesOf(at', r), TablesOf(at, r) + extra);
    SubsetSize(TablesOf(at, r) * extra, extra);
  }

  lemma CountPath(at: set<Pos>, at': set<Pos>, k: Key, r: nat)
    requires at' <= at + Path(k)
    ensures |TablesOf(at', r)| <= |TablesOf(at, r)| + 3
  {
    CountMore(at, at', Path(k), r);
    assert |Path(k)| <= 3;
  }

  lemma {:induction false} GrowBounds(at: set<Pos>, ptes: map<Key, Pte>, r: nat, lo: nat, hi: nat, x: nat)
    requires lo <= hi
    ensures GrowNeed(at, ptes, r, lo, hi) <= 4 * (hi - lo)
    ensures |TablesOf(GrowAt(at, ptes, r, lo, hi), x)| <= |TablesOf(at, x)| + 3 * (hi - lo)
    decreases hi - lo
  {
    if lo < hi {
      GrowBounds(at, ptes, r, lo, hi - 1, x);
      CountPath(GrowAt(at, ptes, r, lo, hi - 1), GrowAt(at, ptes, r, lo, hi), Key(r, hi - 1), x);
    }
  }

  /** A call that adds tables and moves at most one process. */
  lemma LeanMore(a: State, b: State, tables: nat, gain: nat)
    requires Lean(a, tables) && |b.procs| == |a.procs| && a.at <= b.at
    requires forall i :: 0 <= i < |a.procs| ==> b.procs[i].pml4 == a.procs[i].pml4
    requires forall i :: 0 <= i < |a.procs| ==> LeanProcess(a.at, b.procs[i], tables)
    requires forall r {:trigger TablesOf(b.at, r)} :: |TablesOf(b.at, r)| <= |TablesOf(a.at, r)| + gain
    ensures Lean(b, tables + gain)
  {
    forall i | 0 <= i < |b.procs| ensures LeanProcess(b.at, b.procs[i], tables + gain) {
      assert LeanProcess(a.at, b.procs[i], tables);
    }
  }

  lemma {:induction false} ImageSize(ps: set<Pos>, r: nat)
    ensures |set q | q in ps :: Pos(r, q.level, q.base)| <= |ps|
    decreases |ps|
  {
    if ps != {} {
      var p :| p in ps;
      var rest := ps - {p};
      ImageSize(rest, r);
      var image := set q | q in rest :: Pos(r, q.level, q.base);
      assert (set q | q in ps :: Pos(r, q.level, q.base)) == image + {Pos(r, p.level, p.base)};
    } else {
      assert (set q | q in ps :: Pos(r, q.level, q.base)) == {};
    }
  }

  /** A child has no more tables than its parent, and nobody else has more than before. */
  lemma ChildTables(at: set<Pos>, at': set<Pos>, src: nat, r: nat)
    requires Mirrors(at + {Pos(r, 4, 0)}, at', src, r) && src != r && Pos(src, 4, 0) in at
    requires forall q :: q in at ==> q.space != r
    ensures |TablesOf(at', r)| <= |TablesOf(at, src)|
    ensures forall x :: x != r ==> TablesOf(at', x) == TablesOf(at, x)
  {
    ImageSize(TablesOf(at, src), r);
    var image := set q | q in TablesOf(at, src) :: Pos(r, q.level, q.base);
    forall q | q in TablesOf(at', r) ensures q in image {
      var p := Pos(src, q.level, q.base);
      assert p in TablesOf(at, src) && q == Pos(r, p.level, p.base);
    }
    SubsetSize(TablesOf(at', r), image);
  }

  /** Nothing fell short: the process is there, with all of its parent's pages, or the break is where it should be. */
  ghost predicate Complete(c: Call, a: State, b: State) {
    && (c.Spawn? ==> |b.procs| == |a.procs| + 1)
    && (c.Fork? && Alive(a, c.task) ==> ForkComplete(a, b, c.task))
    && (c.Break? && Alive(a, c.task) && USER_BRK_DEFAULT <= c.newBrk <= USER_TOP ==>
          c.task < |b.procs| && b.procs[c.task].brkCurrent == c.newBrk)
  }

  ghost predicate ForkComplete(a: State, b: State, i: nat)
    requires Alive(a, i)
  {
    && |b.procs| == |a.procs| + 1
    && forall x :: var src, r := Key(a.procs[i].pml4, x), Key(b.procs[|a.procs|].pml4, x);
         && (r in b.view.slots <==> src in a.view.slots)
         && (src in a.view.slots ==> b.view.slots[r] == a.view.slots[src])
  }

  lemma ForkAffords(a: State, b: State, i: nat, tables: nat)
    requires ForkedTo(a, b, i) && Lean(a, tables) && Affords(a.left, tables)
    ensures b.lost == a.lost && Lean(b, tables) && Spent(a.left, b.left, tables) && ForkComplete(a, b, i)
  {
    assert LeanProcess(a.at, a.procs[i], tables);
    assert Pos(a.procs[i].pml4, 4, 0) in TablesOf(a.at, a.procs[i].pml4);
    var src, r := a.procs[i].pml4, b.procs[|a.procs|].pml4;
    var done, whole :| Copied(a, b, src, r, done, whole);
    DrawnAfforded(a.left, b.left, |TablesOf(a.at, src)|, whole, tables);
    ChildTables(a.at, b.at, src, r);
    forall j | 0 <= j < |b.procs| ensures LeanProcess(b.at, b.procs[j], tables) {
      if j < |a.procs| { assert LeanProcess(a.at, a.procs[j], tables); }
    }
  }

  lemma SpawnAffords(a: State, b: State, tables: nat)
    requires Started(a, b) && Lean(a, tables) && Affords(a.left, 1)
    ensures b.lost == a.lost && Lean(b, tables) && Spent(a.left, b.left, 1) && |b.procs| == |a.procs| + 1
  {
    var r := b.procs[|a.procs|].pml4;
    forall j | 0 <= j < |b.procs| ensures LeanProcess(b.at, b.procs[j], tables) {
      if j < |a.procs| {
        assert LeanProcess(a.at, a.procs[j], tables);
        assert TablesOf(b.at, b.procs[j].pml4) == TablesOf(a.at, b.procs[j].pml4);
      } else {
        assert TablesOf(b.at, r) == {Pos(r, 4, 0)};
      }
    }
  }

  lemma FaultAffords(a: State, b: State, i: nat, addr: nat, write: bool, tables: nat)
    requires Faulted(a, b, i, addr, write) && Lean(a, tables) && Affords(a.left, 4)
    ensures b.lost == a.lost && Lean(b, tables + 3) && Spent(a.left, b.left, 4)
  {
    hide Drawn;
    var k := Key(a.procs[i].pml4, addr / PAGE_SIZE);
    if b == a {
      LeanMore(a, b, tables, 3);
    } else {
      if k in a.ptes {
        DrawnAfforded(a.left, b.left, if Contended(a.ptes, k) then 1 else 0, true, 4);
      } else {
        DrawnAfforded(a.left, b.left, 1 + Missing(a.at, k), k in b.ptes, 4);
      }
      forall r ensures |TablesOf(b.at, r)| <= |TablesOf(a.at, r)| + 3 { CountPath(a.at, b.at, k, r); }
      LeanMore(a, b, tables, 3);
    }
  }

  lemma WriteAffords(a: State, b: State, i: nat, addr: nat, value: int, tables: nat)
    requires Wrote(a, b, i, addr, value) && Lean(a, tables) && Affords(a.left, 4)
    ensures b.lost == a.lost && Lean(b, tables + 3) && Spent(a.left, b.left, 4)
  {
    hide Faulted;
    hide TablesOf;
    var k := Key(a.procs[i].pml4, addr / PAGE_SIZE);
    if k in a.ptes && a.ptes[k].write {
      LeanMore(a, b, tables, 3);
    } else {
      var m :| Faulted(a, m, i, addr, true) && Stored(m, b, i, addr, value);
      FaultAffords(a, m, i, addr, true, tables);
      LeanMore(m, b, tables + 3, 0);
    }
  }

  lemma ShowAffords(a: State, b: State, i: nat, vpn: nat, frame: nat, write: bool, tables: nat)
    requires Shown(a, b, i, vpn, frame, write) && Lean(a, tables) && Affords(a.left, 3)
    ensures b.lost == a.lost && Lean(b, tables + 3) && Spent(a.left, b.left, 3)
  {
    hide Drawn;
    var k := Key(a.procs[i].pml4, vpn);
    if b != a {
      DrawnAfforded(a.left, b.left, Missing(a.at, k), k in b.ptes, 3);
      forall r ensures |TablesOf(b.at, r)| <= |TablesOf(a.at, r)| + 3 { CountPath(a.at, b.at, k, r); }
    }
    LeanMore(a, b, tables, 3);
  }

  lemma PageUpMono(x: nat, y: nat)
    requires x <= y
    ensures PageUp(x) <= PageUp(y)
  {
  }

  lemma BreakAffords(a: State, b: State, i: nat, newBrk: nat, tables: nat)
    requires BreakMoved(a, b, i, newBrk) && Lean(a, tables) && Affords(a.left, 4 * BreakPages(newBrk))
    ensures b.lost == a.lost && Lean(b, tables + 3 * BreakPages(newBrk))
    ensures Spent(a.left, b.left, 4 * BreakPages(newBrk))
    ensures newBrk >= USER_BRK_DEFAULT ==> i < |b.procs| && b.procs[i].brkCurrent == newBrk
  {
    hide Drawn;
    hide TablesOf;
    hide PageUp;
    var p := a.procs[i];
    assert LeanProcess(a.at, p, tables);
    var cur, gain := BrkCurrent(p.brkStart, p.brkCurrent), 3 * BreakPages(newBrk);
    PageUpMono(USER_BRK_DEFAULT, cur);
    if USER_BRK_DEFAULT <= newBrk && cur <= newBrk {
      var lo, hi := PageUp(cur), PageUp(newBrk);
      PageUpMono(cur, newBrk);
      GrowBounds(a.at, a.ptes, p.pml4, lo, hi, 0);
      DrawnAfforded(a.left, b.left, GrowNeed(a.at, a.ptes, p.pml4, lo, hi),
                    b.procs[i].brkCurrent == newBrk && b.lost == a.lost, 4 * BreakPages(newBrk));
      forall r ensures |TablesOf(b.at, r)| <= |TablesOf(a.at, r)| + gain {
        GrowBounds(a.at, a.ptes, p.pml4, lo, hi, r);
        TablesMono(b.at, GrowAt(a.at, a.ptes, p.pml4, lo, hi), r);
      }
    }
    forall j | 0 <= j < |a.procs| ensures LeanProcess(a.at, b.procs[j], tables) {
      assert LeanProcess(a.at, a.procs[j], tables);
    }
    LeanMore(a, b, tables, gain);
  }

  lemma TablesMono(at: set<Pos>, at': set<Pos>, r: nat)
    requires at <= at'
    ensures |TablesOf(at, r)| <= |TablesOf(at', r)|
  {
    SubsetSize(TablesOf(at, r), TablesOf(at', r));
  }

  lemma ExitLean(a: State, b: State, i: nat, tables: nat)
    requires Exited(a, b, i) && Lean(a, tables)
    ensures Lean(b, tables)
  {
    forall j | 0 <= j < |b.procs| ensures LeanProcess(b.at, b.procs[j], tables) {
      assert LeanProcess(a.at, a.procs[j], tables);
      if j != i && b.procs[j].pml4 != 0 {
        assert TablesOf(b.at, b.procs[j].pml4) == TablesOf(a.at, b.procs[j].pml4);
      }
    }
  }

  lemma SameTablesLean(a: State, b: State, tables: nat)
    requires Lean(a, tables) && b.at == a.at && |b.procs| == |a.procs|
    requires forall j :: 0 <= j < |a.procs| ==>
      b.procs[j].pml4 == a.procs[j].pml4 && b.procs[j].brkStart == a.procs[j].brkStart
      && b.procs[j].brkCurrent == a.procs[j].brkCurrent
    ensures Lean(b, tables)
  {
    forall j | 0 <= j < |b.procs| ensures LeanProcess(b.at, b.procs[j], tables) {
      assert LeanProcess(a.at, a.procs[j], tables);
    }
  }

  /** A call that can be afforded loses no frame, and costs no more than its bound. */
  lemma CallAffords(c: Call, a: State, b: State, tables: nat)
    requires Happened(c, a, b) && Lean(a, tables) && Affords(a.left, CallNeed(c, tables))
    ensures b.lost == a.lost && Lean(b, tables + TableGain(c)) && Spent(a.left, b.left, CallNeed(c, tables))
    ensures Complete(c, a, b)
  {
    hide TablesOf;
    hide ForkComplete;
    hide Started;
    hide ForkedTo;
    hide Faulted;
    hide Wrote;
    hide BreakMoved;
    hide Shown;
    hide Exited;
    hide Lean;
    if !c.Spawn? && !c.Fork? && !c.Break? && b == a {
      LeanWider(a, tables, TableGain(c));
    } else {
      match c {
        case Spawn => SpawnAffords(a, b, tables);
        case Fork(i) => if Alive(a, i) { ForkAffords(a, b, i, tables); }
        case AddVma(i, w) => SameTablesLean(a, b, tables);
        case Write(i, addr, value) => WriteAffords(a, b, i, addr, value, tables);
        case Touch(i, addr) => FaultAffords(a, b, i, addr, false, tables);
        case Break(i, newBrk) =>
          if Alive(a, i) && newBrk <= USER_TOP {
            BreakAffords(a, b, i, newBrk, tables);
          } else {
            LeanWider(a, tables, TableGain(c));
          }
        case Unmap(i, addr, length) => SameTablesLean(a, b, tables);
        case Show(i, vpn, frame, write) => ShowAffords(a, b, i, vpn, frame, write, tables);
        case Exit(i) =>
          ExitLean(a, b, i, tables);
          ExitKeeps(a, b, i);
      }
    }
  }

  lemma ExitKeeps(a: State, b: State, i: nat)
    requires Exited(a, b, i)
    ensures b.lost == a.lost && Spent(a.left, b.left, 0)
  {
  }

  lemma LeanWider(a: State, tables: nat, gain: nat)
    requires Lean(a, tables)
    ensures Lean(a, tables + gain)
  {
    forall i | 0 <= i < |a.procs| ensures LeanProcess(a.at, a.procs[i], tables + gain) {
      assert LeanProcess(a.at, a.procs[i], tables);
    }
  }

  ghost predicate AllComplete(script: seq<Call>, trace: seq<State>)
    requires |trace| == |script| + 1
  {
    forall n :: 0 <= n < |script| ==> Complete(script[n], trace[n], trace[n + 1])
  }

  /** A script that can be afforded loses no frame, and none of its calls falls short. */
  lemma {:induction false} RunAffords(script: seq<Call>, trace: seq<State>, tables: nat)
    requires IsTrace(script, trace) && Lean(trace[0], tables) && Affords(trace[0].left, Need(script, tables))
    ensures trace[|script|].lost == trace[0].lost
    ensures AllComplete(script, trace)
    decreases |script|
  {
    hide Happened;
    hide Lean;
    hide Complete;
    if |script| > 0 {
      assert Happened(script[0], trace[0], trace[1]);
      CallAffords(script[0], trace[0], trace[1], tables);
      RunAffords(script[1..], trace[1..], tables + TableGain(script[0]));
      forall n | 0 <= n < |script| ensures Complete(script[n], trace[n], trace[n + 1]) {
        if n > 0 { assert Complete(script[1..][n - 1], trace[1..][n - 1], trace[1..][n]); }
      }
    }
  }
}
