/** Whole runs of the memory manager: tasks are started, forked, run and ended in any order, and when the last one
    is gone, so is everything they used. */
module MemoryRuns {
  import opened CowMemory
  import opened PageTables
  import opened PageRights
  import opened AddressSpaces
  import opened Forking
  import opened TearDown
  import opened Syscalls
  import opened Processes
  import opened Stocks
  import PhysicalMemory

  /** Windows open inside allocations of the rest of the kernel, not on their first frames. */
  ghost predicate InnerView(e: Eager, outside: map<nat, nat>) {
    forall k :: k in e.slots && e.slots[k].Window? ==> e.slots[k].frame !in outside
  }

  lemma InnerExtended(a: Eager, b: Eager, outside: map<nat, nat>, r: nat, lo: nat, hi: nat)
    requires InnerView(a, outside) && Extended(a, b, r, lo, hi)
    ensures InnerView(b, outside)
  {
  }

  lemma InnerForked(a: Eager, b: Eager, outside: map<nat, nat>, src: nat, dst: nat, done: set<nat>)
    requires InnerView(a, outside) && Forked(a, b, src, dst, done)
    ensures InnerView(b, outside)
  {
  }

  lemma InnerGone(a: Eager, outside: map<nat, nat>, r: nat, lo: nat, hi: nat)
    requires InnerView(a, outside)
    ensures InnerView(a.(slots := Gone(a.slots, r, lo, hi)), outside)
    ensures InnerView(a.(slots := Others(a.slots, r)), outside)
  {
  }

  lemma InnerStored(a: Eager, outside: map<nat, nat>, k: Key, off: nat, value: int)
    requires InnerView(a, outside) && EagerEnabled(a, Op.Store(k, off, value))
    ensures InnerView(EagerStep(a, Op.Store(k, off, value)), outside)
    ensures ReadSlot(EagerStep(a, Op.Store(k, off, value)), k, off) == Some(value)
  {
  }

  lemma InnerDrops(v: Vmm, r: nat, lo: nat, hi: nat)
    requires v.Valid() && InnerView(v.View(), v.outside)
    ensures InnerWindows(v.ptes, v.outside, r, lo, hi)
  {
    forall x {:trigger Key(r, x)} | lo <= x < hi && Key(r, x) in v.ptes ensures v.ptes[Key(r, x)].frame !in v.outside {
      SlotSeen(v.M(), Key(r, x));
      EntryFacts(v.M(), Key(r, x));
      v.OursOrTheirs(v.ptes[Key(r, x)].frame);
    }
  }

  lemma PageSeen(v: Vmm, k: Key, off: nat)
    requires v.Valid() && off < PAGE_BYTES
    ensures ReadSlot(v.View(), k, off).Some? <==> k in v.ptes
  {
    hide Vmm.Books, Vmm.Structure, Inv, Abs;
    SlotSeen(v.M(), k);
    if k in v.ptes { EntryFacts(v.M(), k); }
  }

  ghost function ProcessOf(t: Task): Process
    reads t
  {
    Process(t.pml4, t.brkStart, t.brkCurrent, t.vmas)
  }

  /** The spaces are those of the processes, one each, and breaks are in the user half. */
  ghost predicate ProcsOk(procs: seq<Process>, spaces: set<nat>) {
    && (forall i :: 0 <= i < |procs| ==> procs[i].brkCurrent <= USER_TOP)
    && (forall i :: 0 <= i < |procs| ==> procs[i].pml4 == 0 || procs[i].pml4 in spaces)
    && (forall i, j :: 0 <= i < j < |procs| && procs[i].pml4 != 0 ==> procs[i].pml4 != procs[j].pml4)
    && (forall r :: r in spaces ==> r != 0 && exists i :: 0 <= i < |procs| && procs[i].pml4 == r)
  }

  lemma ProcsMore(procs: seq<Process>, spaces: set<nat>, p: Process)
    requires ProcsOk(procs, spaces) && p.pml4 != 0 && p.pml4 !in spaces && p.brkCurrent <= USER_TOP
    ensures ProcsOk(procs + [p], spaces + {p.pml4})
  {
    var now := procs + [p];
    forall r | r in spaces + {p.pml4} ensures r != 0 && exists i :: 0 <= i < |now| && now[i].pml4 == r {
      if r == p.pml4 {
        assert now[|procs|].pml4 == r;
      } else {
        var i :| 0 <= i < |procs| && procs[i].pml4 == r;
        assert now[i].pml4 == r;
      }
    }
  }

  lemma ProcsSet(procs: seq<Process>, spaces: set<nat>, i: nat, p: Process)
    requires ProcsOk(procs, spaces) && i < |procs| && p.brkCurrent <= USER_TOP
    requires p.pml4 == procs[i].pml4 || (p.pml4 == 0 && procs[i].pml4 != 0)
    ensures ProcsOk(procs[i := p], if p.pml4 == procs[i].pml4 then spaces else spaces - {procs[i].pml4})
  {
    var now, left := procs[i := p], if p.pml4 == procs[i].pml4 then spaces else spaces - {procs[i].pml4};
    forall r | r in left ensures r != 0 && exists j :: 0 <= j < |now| && now[j].pml4 == r {
      var j :| 0 <= j < |procs| && procs[j].pml4 == r;
      assert now[j].pml4 == r;
    }
  }

  lemma NoneAlive(procs: seq<Process>, spaces: set<nat>)
    requires ProcsOk(procs, spaces) && forall j :: 0 <= j < |procs| ==> procs[j].pml4 == 0
    ensures spaces == {}
  {
    assert forall r :: r !in spaces;
  }

  class System {
    const v: Vmm
    var tasks: seq<Task>

    constructor (v: Vmm)
      requires v.Valid() && v.userOnly && v.spaces == {} && InnerView(v.View(), v.outside)
      ensures Valid() && this.v == v && tasks == []
      ensures Now() == State(v.View(), v.ptes, [], v.sh.at.Keys, v.pmm.Left(), |v.leaked|)
    {
      hide Vmm.Valid;
      hide Vmm.View;
      hide InnerView;
      this.v, tasks := v, [];
      new;
      assert Procs() == [];
    }

    /** The memory manager is in order, and its spaces are those of the tasks, one each. */
    ghost predicate Valid()
      reads this, v, v.pmm, tasks
    {
      v.Valid() && v.userOnly && InnerView(v.View(), v.outside) && TasksOk()
    }

    ghost function Procs(): (r: seq<Process>)
      reads this, tasks
      ensures |r| == |tasks| && forall i :: 0 <= i < |r| ==> r[i] == ProcessOf(tasks[i])
    {
      seq(|tasks|, i requires 0 <= i < |tasks| reads this, tasks => ProcessOf(tasks[i]))
    }

    /** What the programs see. */
    ghost function Now(): State
      requires Valid()
      reads this, v, v.pmm, tasks
    {
      State(v.View(), v.ptes, Procs(), v.sh.at.Keys, v.pmm.Left(), |v.leaked|)
    }

    ghost predicate TasksOk()
      reads this, v`spaces, tasks
    {
      TasksBut(v.spaces)
    }

    /** The spaces are those of the tasks, but for one that has no task yet. */
    ghost predicate TasksBut(spaces: set<nat>)
      reads this, tasks
    {
      ProcsOk(Procs(), spaces) && forall i, j :: 0 <= i < j < |tasks| ==> tasks[i] != tasks[j]
    }

    /** A new space has a new task. */
    method AddTask(t: Task, ghost before: set<nat>)
      requires t !in tasks && t.pml4 != 0 && t.brkCurrent <= USER_TOP
      requires t.pml4 !in before && v.spaces == before + {t.pml4}
      requires TasksBut(before)
      modifies this`tasks
      ensures TasksOk() && tasks == old(tasks) + [t]
    {
      hide ProcsOk;
      ghost var procs := Procs();
      tasks := tasks + [t];
      assert Procs() == procs + [ProcessOf(t)];
      ProcsMore(procs, before, ProcessOf(t));
    }

    method Spawn()
      requires Valid()
      modifies this`tasks, v`tables, v`sh, v`spaces, v.pmm
      ensures Valid() && v.pmm.totalMem == old(v.pmm.totalMem) && fresh(set t | t in tasks && t !in old(tasks))
      ensures Started(old(Now()), Now())
    {
      hide Vmm.Valid;
      hide Vmm.View;
      hide PhysicalMemory.Pmm.Valid;
      hide InnerView;
      hide ProcsOk;
      hide TasksBut;
      ghost var before, now := v.spaces, Now();
      UserOnly(v);
      TablesHere(v);
      var r := v.CreateSpace();
      if r == 0 { return; }
      RootIsNew(now, before, r);
      var t := new Task(r);
      AddTask(t, before);
      assert Procs() == now.procs + [Process(r, 0, 0, [])];
    }

    lemma RootIsNew(now: State, before: set<nat>, r: nat)
      requires TasksBut(before) && now.procs == Procs() && r !in before && r != 0
      requires forall k :: k in now.view.slots ==> k.space in before
      requires forall q :: q in now.at ==> q.space in before
      ensures NewRoot(now, r)
    {
    }

    /** A child with a copy-on-write copy of the space, and the same break and VMAs. */
    method ForkTask(i: nat)
      requires Valid() && i < |tasks| && tasks[i].pml4 != 0
      modifies this`tasks, v`tables, v`ptes, v`sh, v`spaces, v.pmm
      ensures Valid() && v.pmm.totalMem == old(v.pmm.totalMem) && fresh(set t | t in tasks && t !in old(tasks))
      ensures ForkedTo(old(Now()), Now(), i)
    {
      hide Vmm.Valid;
      hide Vmm.View;
      hide PhysicalMemory.Pmm.Valid;
      hide InnerView;
      hide ProcsOk;
      hide TasksBut;
      hide Forked;
      hide Marked;
      hide Drawn;
      hide TablesOf;
      hide Mirrors;
      hide NewRoot;
      hide ForkedTo;
      ghost var V, before, now := v.View(), v.spaces, Now();
      var src := tasks[i];
      TaskFacts(i);
      UserOnly(v);
      TablesHere(v);
      var r, done, full := ForkSpace(v, src.pml4);
      if r == 0 {
        NoFork(now, i);
        return;
      }
      RootIsNew(now, before, r);
      InnerForked(V, v.View(), v.outside, src.pml4, r, done);
      var t := new Task(r);
      t.brkStart, t.brkCurrent, t.vmas := src.brkStart, src.brkCurrent, src.vmas;
      assert TasksBut(before);
      AddTask(t, before);
      assert Procs() == now.procs + [now.procs[i].(pml4 := r)];
      ForkedIs(now, Now(), i, r, done, full);
    }

    lemma TaskFacts(i: nat)
      requires TasksOk() && i < |tasks|
      ensures tasks[i].brkCurrent <= USER_TOP && (tasks[i].pml4 != 0 ==> tasks[i].pml4 in v.spaces)
    {
    }

    /** A fault of task `i`, when the page is absent or marked copy-on-write. */
    method Fault(i: nat, addr: nat, write: bool)
      requires Valid() && i < |tasks| && tasks[i].pml4 != 0 && addr < USER_TOP
      modifies v`tables, v`sh, v`ptes, v`pages, v`leaked, v.pmm
      ensures Valid() && v.pmm.totalMem == old(v.pmm.totalMem)
      ensures Faulted(old(Now()), Now(), i, addr, write)
    {
      hide Vmm.Valid;
      hide Vmm.View;
      hide PhysicalMemory.Pmm.Valid;
      hide InnerView;
      hide ProcsOk;
      hide TasksBut;
      hide Extended;
      hide Granted;
      hide Owned;
      hide FirstHolding;
      hide Missing;
      hide Paged;
      hide Tabled;
      hide OneMore;
      hide Drawn;
      hide Vmm.Structure;
      ghost var V := v.View();
      var t, vpn := tasks[i], addr / PAGE_SIZE;
      TaskFacts(i);
      ValidHasStructure(v);
      var e, _ := v.GetPte(t.pml4, vpn);
      if e.Some? && !(write && e.value.cow) { return; }
      ghost var lost := v.leaked;
      var ok := PageFault(v, t, addr, e.Some?, write);
      OneLost(lost, v.leaked);
      PtesSeen(v);
      if v.View() != V { InnerExtended(V, v.View(), v.outside, t.pml4, vpn, vpn + 1); }
    }

    /** Writes a byte, with a fault on the way if need be. */
    method WriteByte(i: nat, addr: nat, value: int) returns (done: bool)
      requires Valid() && i < |tasks| && tasks[i].pml4 != 0 && addr < USER_TOP
      modifies v`tables, v`sh, v`ptes, v`pages, v`shared, v`leaked, v.pmm
      ensures Valid() && v.pmm.totalMem == old(v.pmm.totalMem)
      ensures Wrote(old(Now()), Now(), i, addr, value)
      ensures done ==> Reads(Now(), i, addr, value)
    {
      hide Vmm.Valid;
      hide Vmm.View;
      hide PhysicalMemory.Pmm.Valid;
      hide InnerView;
      hide ProcsOk;
      hide TasksBut;
      hide Faulted;
      done := StoreByte(i, addr, value);
      if !done {
        Fault(i, addr, true);
        ghost var mid := Now();
        done := StoreByte(i, addr, value);
        assert Faulted(old(Now()), mid, i, addr, true) && Stored(mid, Now(), i, addr, value);
      }
    }

    /** A load: the byte the process sees there, since every way to its pages is open to it. */
    method LoadByte(i: nat, addr: nat) returns (b: Option<int>)
      requires Valid() && i < |tasks| && tasks[i].pml4 != 0 && addr < USER_TOP
      ensures b == ReadSlot(Now().view, Key(tasks[i].pml4, addr / PAGE_SIZE), addr % PAGE_SIZE)
      ensures b.Some? <==> Key(tasks[i].pml4, addr / PAGE_SIZE) in v.ptes
    {
      hide Vmm.Valid;
      hide Vmm.View;
      hide PhysicalMemory.Pmm.Valid;
      hide InnerView;
      hide ProcsOk;
      hide TasksBut;
      hide ReadSlot;
      hide Open;
      TaskFacts(i);
      PageSeen(v, Key(tasks[i].pml4, addr / PAGE_SIZE), addr % PAGE_SIZE);
      b := v.Load(tasks[i].pml4, addr / PAGE_SIZE, addr % PAGE_SIZE);
    }

    method StoreByte(i: nat, addr: nat, value: int) returns (done: bool)
      requires Valid() && i < |tasks| && tasks[i].pml4 != 0 && addr < USER_TOP
      modifies v`pages, v`shared
      ensures Valid() && Stored(old(Now()), Now(), i, addr, value)
      ensures done <==> old(Key(tasks[i].pml4, addr / PAGE_SIZE) in v.ptes &&
                            v.ptes[Key(tasks[i].pml4, addr / PAGE_SIZE)].write)
      ensures done ==> Reads(Now(), i, addr, value)
    {
      hide Vmm.Valid;
      hide Vmm.View;
      hide PhysicalMemory.Pmm.Valid;
      hide InnerView;
      hide ProcsOk;
      hide TasksBut;
      ghost var V := v.View();
      var r := tasks[i].pml4;
      TaskFacts(i);
      done := v.Store(r, addr / PAGE_SIZE, addr % PAGE_SIZE, value);
      if done { InnerStored(V, v.outside, Key(r, addr / PAGE_SIZE), addr % PAGE_SIZE, value); }
    }

    method MoveBreak(i: nat, newBrk: nat)
      requires Valid() && i < |tasks| && tasks[i].pml4 != 0 && newBrk <= USER_TOP
      modifies v`tables, v`sh, v`ptes, v`pages, v`leaked, v.pmm, tasks
      ensures Valid() && v.pmm.totalMem == old(v.pmm.totalMem)
      ensures BreakMoved(old(Now()), Now(), i, newBrk)
    {
      hide CameBetween;
      hide WentBetween;
      hide Vmm.Valid;
      hide Vmm.View;
      hide PhysicalMemory.Pmm.Valid;
      hide InnerView;
      hide ProcsOk;
      hide InnerWindows;
      hide GonePtes;
      hide Granted;
      hide AllMapped;
      hide Gone;
      hide Extended;
      ghost var V, now := v.View(), Now();
      var t := tasks[i];
      TaskFacts(i);
      ghost var cur := BrkCurrent(t.brkStart, t.brkCurrent);
      InnerDrops(v, t.pml4, PageUp(newBrk), PageUp(cur));
      InnerGone(V, v.outside, t.pml4, PageUp(newBrk), PageUp(cur));
      ghost var lost := v.leaked;
      var r := Brk(v, t, newBrk);
      OneLost(lost, v.leaked);
      assert Procs() == now.procs[i := ProcessOf(t)];
      ProcsSet(now.procs, v.spaces, i, ProcessOf(t));
      if v.View() != V && newBrk >= cur { InnerExtended(V, v.View(), v.outside, t.pml4, PageUp(cur), PageUp(newBrk)); }
    }

    method UnmapRange(i: nat, addr: nat, length: nat)
      requires Valid() && i < |tasks| && tasks[i].pml4 != 0 && addr / PAGE_SIZE + PageUp(length) <= USER_PAGES
      modifies v`tables, v`ptes, v`pages, v.pmm, tasks
      ensures Valid() && v.pmm.totalMem == old(v.pmm.totalMem)
      ensures Unmapped(old(Now()), Now(), i, addr, length)
    {
      hide WentFrom;
      hide Vmm.Valid;
      hide Vmm.View;
      hide PhysicalMemory.Pmm.Valid;
      hide InnerView;
      hide ProcsOk;
      hide InnerWindows;
      hide GonePtes;
      hide Gone;
      hide FirstRemoved;
      ghost var V, now := v.View(), Now();
      var t := tasks[i];
      ghost var lo, hi := addr / PAGE_SIZE, addr / PAGE_SIZE + PageUp(length);
      TaskFacts(i);
      InnerDrops(v, t.pml4, lo, hi);
      InnerGone(V, v.outside, t.pml4, lo, hi);
      var r := Munmap(v, t, addr, length);
      assert Procs() == now.procs[i := ProcessOf(t)];
      ProcsSet(now.procs, v.spaces, i, ProcessOf(t));
    }

    /** A window on a frame inside an allocation of the rest of the kernel. */
    method ShowFrame(i: nat, vpn: nat, frame: nat, write: bool)
      requires Valid() && i < |tasks| && tasks[i].pml4 != 0 && vpn < USER_PAGES && frame !in v.outside
      modifies v`tables, v`sh, v`ptes, v.pmm
      ensures Valid() && v.pmm.totalMem == old(v.pmm.totalMem)
      ensures Shown(old(Now()), Now(), i, vpn, frame, write)
    {
      hide Vmm.Valid;
      hide Vmm.View;
      hide PhysicalMemory.Pmm.Valid;
      hide InnerView;
      hide ProcsOk;
      hide TasksBut;
      hide Missing;
      hide Paged;
      hide Tabled;
      hide OneMore;
      hide Drawn;
      hide Vmm.Structure;
      ghost var V := v.View();
      var r := tasks[i].pml4;
      TaskFacts(i);
      ValidHasStructure(v);
      SharedSeen(v);
      var e, _ := v.GetPte(r, vpn);
      if e.Some? || frame !in v.shared { return; }
      var mapped := v.MapWindow(r, vpn, frame, write, USER);
      if mapped { InnerShown(V, v.outside, Key(r, vpn), frame); }
    }

    /** A task ends: its space goes. */
    method ExitTask(i: nat)
      requires Valid() && i < |tasks| && tasks[i].pml4 != 0
      modifies v`tables, v`pages, v`ptes, v`sh, v`spaces, v.pmm, tasks
      ensures Valid() && v.pmm.totalMem == old(v.pmm.totalMem)
      ensures Exited(old(Now()), Now(), i)
      ensures tasks[i].pml4 == 0 && forall j :: 0 <= j < |tasks| && j != i ==> tasks[j].pml4 == old(tasks[j].pml4)
    {
      hide Vmm.Valid;
      hide Vmm.View;
      hide PhysicalMemory.Pmm.Valid;
      hide InnerView;
      hide ProcsOk;
      hide Shrunk;
      hide Others;
      hide OtherPtes;
      ghost var V, now, spaces := v.View(), Now(), v.spaces;
      var t := tasks[i];
      TaskFacts(i);
      InnerGone(V, v.outside, t.pml4, 0, 0);
      DestroySpace(v, t.pml4);
      t.pml4 := 0;
      assert Procs() == now.procs[i := ProcessOf(t)];
      ProcsSet(now.procs, spaces, i, ProcessOf(t));
    }

    predicate Living(i: nat)
      reads this, tasks
    {
      i < |tasks| && tasks[i].pml4 != 0
    }

    lemma LivingIs(i: nat)
      requires Valid()
      ensures Living(i) <==> Alive(Now(), i)
    {
    }

    /** One call of the script; one that names no living task, or an address outside the user half, is passed over. */
    method Step(c: Call)
      requires Valid() && (c.Show? ==> c.frame !in v.outside)
      modifies this`tasks, v, v.pmm, tasks
      ensures Valid() && v.pmm.totalMem == old(v.pmm.totalMem) && fresh(set t | t in tasks && t !in old(tasks))
      ensures Happened(c, old(Now()), Now())
    {
      hide Valid;
      hide Now;
      hide Started;
      hide ForkedTo;
      hide Faulted;
      hide Wrote;
      hide BreakMoved;
      hide Unmapped;
      hide Shown;
      hide Exited;
      if !c.Spawn? { LivingIs(c.task); }
      match c {
        case Spawn => Spawn();
        case Fork(i) => if Living(i) { ForkTask(i); }
        case AddVma(i, w) => if Living(i) { NewVma(i, w); }
        case Write(i, addr, value) => if Living(i) && addr < USER_TOP { var done := WriteByte(i, addr, value); }
        case Touch(i, addr) => if Living(i) && addr < USER_TOP { Fault(i, addr, false); }
        case Break(i, newBrk) => if Living(i) && newBrk <= USER_TOP { MoveBreak(i, newBrk); }
        case Unmap(i, addr, length) =>
          if Living(i) && addr / PAGE_SIZE + PageUp(length) <= USER_PAGES { UnmapRange(i, addr, length); }
        case Show(i, vpn, frame, write) => if Living(i) && vpn < USER_PAGES { ShowFrame(i, vpn, frame, write); }
        case Exit(i) => if Living(i) { ExitTask(i); }
      }
    }

    method NewVma(i: nat, w: Vma)
      requires Valid() && i < |tasks|
      modifies tasks
      ensures Valid()
      ensures var now := old(Now());
        Now() == now.(procs := now.procs[i := now.procs[i].(vmas := [w] + now.procs[i].vmas)])
    {
      hide Vmm.Valid;
      hide Vmm.View;
      hide PhysicalMemory.Pmm.Valid;
      hide InnerView;
      hide ProcsOk;
      ghost var now := Now();
      TaskFacts(i);
      tasks[i].vmas := [w] + tasks[i].vmas;
      assert Procs() == now.procs[i := ProcessOf(tasks[i])];
      ProcsSet(now.procs, v.spaces, i, ProcessOf(tasks[i]));
    }

    /** Any script keeps the memory manager in order, and is a run of processes with memories of their own. */
    method Run(script: seq<Call>) returns (ghost trace: seq<State>)
      requires Valid() && forall c :: c in script && c.Show? ==> c.frame !in v.outside
      modifies this`tasks, v, v.pmm, tasks
      ensures Valid() && v.pmm.totalMem == old(v.pmm.totalMem) && fresh(set t | t in tasks && t !in old(tasks))
      ensures IsTrace(script, trace) && trace[0] == old(Now()) && trace[|script|] == Now() && Apart(trace[0])
      ensures trace[|script|].lost == |v.leaked|
    {
      hide Valid;
      hide Now;
      hide Happened;
      trace := [Now()];
      TasksApart();
      for n := 0 to |script|
        invariant Valid() && v.pmm.totalMem == old(v.pmm.totalMem) && fresh(set t | t in tasks && t !in old(tasks))
        invariant IsTrace(script[..n], trace) && trace[0] == old(Now()) && trace[n] == Now() && Apart(trace[0])
      {
        ghost var before := trace;
        Step(script[n]);
        trace := trace + [Now()];
        assert trace[n + 1] == Now() && forall m :: 0 <= m <= n ==> trace[m] == before[m];
        assert script[..n + 1] == script[..n] + [script[n]];
      }
      assert script[..|script|] == script;
      TasksApart();
    }

    lemma TasksApart()
      requires Valid()
      ensures Apart(Now()) && Now().lost == |v.leaked|
    {
      hide Vmm.Valid;
      hide Vmm.View;
      hide InnerView;
    }

    lemma NoTasksNoSpaces()
      requires Valid() && forall j :: 0 <= j < |tasks| ==> tasks[j].pml4 == 0
      ensures v.Valid() && v.spaces == {}
    {
      hide Vmm.Valid;
      hide InnerView;
      hide ProcsOk;
      NoneAlive(Procs(), v.spaces);
    }

    /** Ends every task that is left. */
    method Finish()
      requires Valid()
      modifies v`tables, v`pages, v`ptes, v`sh, v`spaces, v.pmm, tasks
      ensures v.Valid() && v.spaces == {} && v.pmm.totalMem == old(v.pmm.totalMem)
    {
      hide Valid;
      for n := 0 to |tasks|
        invariant Valid() && v.pmm.totalMem == old(v.pmm.totalMem)
        invariant forall j :: 0 <= j < n ==> tasks[j].pml4 == 0
      {
        if tasks[n].pml4 != 0 { ExitTask(n); }
      }
      NoTasksNoSpaces();
    }
  }

  lemma TablesHere(v: Vmm)
    requires v.Valid()
    ensures forall q :: q in v.sh.at ==> q.space in v.spaces
  {
    forall q | q in v.sh.at ensures q.space in v.spaces { At(v.tables, v.sh, v.spaces, q); }
  }

  lemma NoFork(a: State, i: nat)
    requires Alive(a, i) && a.left.free == 0
    ensures ForkedTo(a, a, i)
  {
  }

  lemma ForkedIs(a: State, b: State, i: nat, r: nat, done: set<nat>, whole: bool)
    requires Alive(a, i) && a.left.free > 0 && b.procs == a.procs + [a.procs[i].(pml4 := r)] && b.lost == a.lost
    requires NewRoot(a, r) && Mirrors(a.at + {Pos(r, 4, 0)}, b.at, a.procs[i].pml4, r)
    requires Forked(a.view, b.view, a.procs[i].pml4, r, done) && Marked(a.ptes, b.ptes, a.procs[i].pml4, r, done)
    requires Drawn(a.left, b.left, |TablesOf(a.at, a.procs[i].pml4)|, whole)
    requires whole ==> forall x :: Key(a.procs[i].pml4, x) in a.view.slots <==> x in done
    ensures ForkedTo(a, b, i)
  {
    hide Forked;
    hide Marked;
    hide Drawn;
    hide TablesOf;
    hide Mirrors;
    hide NewRoot;
    assert Copied(a, b, a.procs[i].pml4, r, done, whole);
  }

  lemma OneLost(a: set<nat>, b: set<nat>)
    ensures OneMore(a, b) ==> |b| == |a| + 1
    ensures OneMore(a, b) ==> b != a
  {
  }

  lemma SharedSeen(v: Vmm)
    requires v.Valid()
    ensures v.View().shared == v.shared && v.View().slots.Keys == v.ptes.Keys
  {
  }

  lemma ValidHasStructure(v: Vmm)
    requires v.Valid()
    ensures v.Structure()
  {
  }

  lemma InnerShown(a: Eager, outside: map<nat, nat>, k: Key, frame: nat)
    requires InnerView(a, outside) && frame !in outside
    ensures InnerView(a.(slots := a.slots[k := Window(frame)]), outside)
  {
  }

  /** From any state of the allocator: tasks come, run any script, and are ended.  What the programs saw on the way is
      a run of processes with memories of their own.  What the rest of the kernel had is as it was, down to its
      reference counts, and if no frame was lost, free memory is what it was.  No frame is lost if the script can be
      afforded to begin with. */
  method WholeRun(pmm: PhysicalMemory.Pmm, kernelHalf: seq<Entry>, windows: map<nat, Page>,
                  script: seq<Call>) returns (v: Vmm, ghost trace: seq<State>)
    requires pmm.Valid() && pmm.AllDescribed() && |kernelHalf| == 256
    requires forall b :: b in pmm.Live() ==> pmm.RefOf(b) >= 1
    requires forall f :: f in windows ==> |windows[f]| == PAGE_BYTES && Held(pmm.Live(), f)
    requires forall c :: c in script && c.Show? ==> c.frame !in pmm.Live()
    modifies pmm
    ensures pmm.Valid() && v.Valid() && v.pmm == pmm && v.spaces == {} && pmm.totalMem == old(pmm.totalMem)
    ensures pmm.Live().Keys == old(pmm.Live()).Keys + v.leaked
    ensures
      forall b :: b in old(pmm.Live()) ==> pmm.Live()[b] == old(pmm.Live())[b] && pmm.RefOf(b) == old(pmm.RefOf(b))
    ensures v.leaked == {} ==> pmm.Live() == old(pmm.Live()) && pmm.freeMem == old(pmm.freeMem)
    ensures trace != [] && trace[0] == State(Eager(map[], windows), map[], [], {}, old(pmm.Left()), 0)
    ensures IsTrace(script, trace) && |v.leaked| == trace[|script|].lost
    ensures old(Affords(pmm.Left(), Need(script, 1))) ==>
      && v.leaked == {} && pmm.Live() == old(pmm.Live()) && pmm.freeMem == old(pmm.freeMem)
      && AllComplete(script, trace)
  {
    hide Vmm.Books;
    hide Vmm.Structure;
    hide Inv;
    hide Abs;
    hide PhysicalMemory.Pmm.Valid;
    hide PhysicalMemory.Pmm.Live;
    hide PhysicalMemory.Pmm.RefOf;
    hide PhysicalMemory.MapSum;
    hide IsTrace;
    hide AllComplete;
    hide Need;
    hide Vmm.Valid;
    hide Vmm.View;
    FreeIs(pmm);
    v := new Vmm(pmm, kernelHalf, windows, true);
    Recorded(v);
    trace := RunAll(v, script);
    AllGone(v);
    Recorded(v);
  }

  /** A system without tasks runs a script and ends every task. */
  method RunAll(v: Vmm, script: seq<Call>) returns (ghost trace: seq<State>)
    requires v.Valid() && v.userOnly && v.spaces == {} && InnerView(v.View(), v.outside)
    requires forall c :: c in script && c.Show? ==> c.frame !in v.outside
    modifies v, v.pmm
    ensures v.Valid() && v.spaces == {} && v.pmm.totalMem == old(v.pmm.totalMem)
    ensures trace != []
    ensures trace[0] == old(State(v.View(), v.ptes, [], v.sh.at.Keys, v.pmm.Left(), |v.leaked|))
    ensures IsTrace(script, trace) && |v.leaked| == trace[|script|].lost
    ensures old(Affords(v.pmm.Left(), Need(script, 1))) ==> |v.leaked| == old(|v.leaked|) && AllComplete(script, trace)
  {
    hide System.Valid;
    hide System.Now;
    hide Happened;
    hide Complete;
    hide Need;
    hide Vmm.Valid;
    hide Vmm.View;
    var s := new System(v);
    trace := s.Run(script);
    if Affords(trace[0].left, Need(script, 1)) {
      NoProcesses(trace[0]);
      RunAffords(script, trace, 1);
    }
    s.Finish();
  }

  lemma NoProcesses(s: State)
    requires s.procs == []
    ensures Lean(s, 1)
  {
  }

  /** A small machine: `pages` pages of memory, all free. */
  method Machine(pages: nat) returns (pmm: PhysicalMemory.Pmm)
    requires 1 <= pages <= 1000
    ensures fresh(pmm) && pmm.Valid() && pmm.AllDescribed() && pmm.Live() == map[]
    ensures pmm.freeMem == pages * PAGE_SIZE && |pmm.cells| <= pages
  {
    hide PhysicalMemory.MapSum;
    pmm := new PhysicalMemory.Pmm();
    pmm.AddRegion(PAGE_SIZE, pages * PAGE_SIZE);
    FreeIs(pmm);
    assert PhysicalMemory.MapSum(map[]) == 0 by { NoSum(); }
  }

  lemma NoSum()
    ensures PhysicalMemory.MapSum(map[]) == 0
  {
  }

  /** With two pages of memory, a new space takes one and the first page of a task the other; its tables cannot be
      had, and the frame is lost. */
  method LoseFrame() returns (v: Vmm)
    ensures v.Valid() && v.leaked != {} && v.View().slots == map[]
  {
    hide PhysicalMemory.Pmm.Valid;
    hide PhysicalMemory.Pmm.Live;
    hide PhysicalMemory.Pmm.AllDescribed;
    hide PhysicalMemory.Pmm.RefOf;
    hide Vmm.Valid;
    hide Vmm.View;
    var pmm := Machine(2);
    v := new Vmm(pmm, seq(256, _ => None), map[], true);
    var r := v.CreateSpace();
    NoTables(v.sh, r);
    var got, mapped := v.MapFresh(r, 0, true, USER);
  }

  lemma NoTables(sh: Shape, r: nat)
    requires sh == AddRoot(Shape(map[], map[]), r)
    ensures Missing(sh.at.Keys, Key(r, 0)) == 3
  {
  }

  /** The first page of a region is mapped without the USER bit, its neighbour with it: no user access gets through to
      the neighbour, since the tables they share are closed to user mode. */
  method ShutOut() returns (v: Vmm, r: nat, b: Option<int>)
    ensures v.Valid() && r in v.spaces && Key(r, 1) in v.ptes && UserMode(v.ptes[Key(r, 1)])
    ensures b.None? && ReadSlot(v.View(), Key(r, 1), 0) == Some(0)
  {
    hide PhysicalMemory.Pmm.Valid;
    hide PhysicalMemory.Pmm.Live;
    hide PhysicalMemory.Pmm.AllDescribed;
    hide PhysicalMemory.Pmm.RefOf;
    hide Vmm.Valid;
    hide Vmm.View;
    hide Open;
    hide WayMade;
    hide WayEntry;
    hide Missing;
    hide Paged;
    v, r := CloseWay();
    ghost var T, sh := v.tables, v.sh;
    AtMostThree(v.sh.at.Keys, Key(r, 1));
    var got, mapped := v.MapFresh(r, 1, true, USER);
    StillClosed(T, sh, v.tables, v.sh, r);
    b := v.Load(r, 1, 0);
  }

  method CloseWay() returns (v: Vmm, r: nat)
    ensures fresh(v) && fresh(v.pmm) && v.Valid() && r in v.spaces && Key(r, 1) !in v.ptes && !v.userOnly
    ensures v.pmm.NodesFor(4) && v.pmm.freeMem >= 4 * PAGE_SIZE
    ensures var e := WayEntry(v.tables, v.sh, Key(r, 0), 4); e.Some? && !UserMode(e.value)
  {
    hide PhysicalMemory.Pmm.Valid;
    hide PhysicalMemory.Pmm.Live;
    hide PhysicalMemory.Pmm.AllDescribed;
    hide PhysicalMemory.Pmm.RefOf;
    hide Vmm.Valid;
    hide Vmm.View;
    hide WayMade;
    hide WayEntry;
    hide Missing;
    var pmm := Machine(64);
    v := new Vmm(pmm, seq(256, _ => None), map[], false);
    r := v.CreateSpace();
    NoTables(v.sh, r);
    EmptyRoot(v, r);
    ghost var T, sh := v.tables, v.sh;
    var got, mapped := v.MapFresh(r, 0, true, 0);
    ClosedWay(v, T, sh, r);
  }

  lemma EmptyRoot(v: Vmm, r: nat)
    requires v.Valid() && v.sh == AddRoot(Shape(map[], map[]), r)
    ensures WayEntry(v.tables, v.sh, Key(r, 0), 4).None?
  {
    hide Vmm.Books, Inv, PtesOk, RootsOk, Ways;
    assert LinkOk(v.tables, v.sh, Pos(r, 4, 0), 0);
  }

  lemma AtMostThree(at: set<Pos>, k: Key)
    ensures Missing(at, k) <= 3
  {
  }

  lemma ClosedWay(v: Vmm, T: Tables, sh: Shape, r: nat)
    requires v.Valid() && Key(r, 0) in v.ptes && WayMade(T, sh, v.tables, v.sh, Key(r, 0), false)
    requires Pos(r, 4, 0) in sh.at && WayEntry(T, sh, Key(r, 0), 4).None?
    ensures var e := WayEntry(v.tables, v.sh, Key(r, 0), 4); e.Some? && !UserMode(e.value)
  {
    assert Lookup(v.tables, v.sh, Key(r, 0)).Some?;
    OnTheWay(v.tables, v.sh, v.spaces, Key(r, 0), 4);
  }

  lemma StillClosed(T: Tables, sh: Shape, T': Tables, sh': Shape, r: nat)
    requires WayMade(T, sh, T', sh', Key(r, 1), true)
    requires var e := WayEntry(T, sh, Key(r, 0), 4); e.Some? && !UserMode(e.value)
    ensures !Open(T', sh', Key(r, 1), 4, false)
  {
    assert PathPos(Key(r, 1), 4) == PathPos(Key(r, 0), 4) && Index(1, 4) == Index(0, 4);
    assert WayEntry(T, sh, Key(r, 1), 4) == WayEntry(T, sh, Key(r, 0), 4);
    assert !Lets(WayEntry(T', sh', Key(r, 1), 4), false);
  }

  /** A page of the rest of the kernel, shown to a task. */
  method ShowForeign() returns (v: Vmm, r: nat)
    ensures fresh(v) && fresh(v.pmm) && v.Valid() && r in v.spaces
    ensures r != 0 && !InnerWindows(v.ptes, v.outside, r, 0, 1)
  {
    hide PhysicalMemory.Pmm.Valid;
    hide PhysicalMemory.Pmm.Live;
    hide PhysicalMemory.Pmm.AllDescribed;
    hide PhysicalMemory.Pmm.RefOf;
    hide Vmm.Valid;
    hide Vmm.View;
    var pmm := Machine(64);
    var f := pmm.AllocFrame();
    pmm.LiveFrame(f);
    assert Held(pmm.Live(), f);
    v := new Vmm(pmm, seq(256, _ => None), map[f := ZeroPage()], true);
    r := v.CreateSpace();
    NoTables(v.sh, r);
    var mapped := v.MapWindow(r, 0, f, true, USER);
    assert Key(r, 0) in v.ptes;
  }

  /** Unmapping that page loses it for the kernel. */
  method LoseForeign() returns (v: Vmm)
    ensures v.pmm.Valid() && v.Harmed() && !v.Valid()
  {
    hide PhysicalMemory.Pmm.Valid;
    hide Vmm.Valid;
    hide Vmm.View;
    hide Vmm.Harmed;
    hide InnerWindows;
    var r: nat;
    v, r := ShowForeign();
    var t := new Task(r);
    var done := Munmap(v, t, 0, PAGE_SIZE);
  }

  lemma FreeIs(pmm: PhysicalMemory.Pmm)
    requires pmm.Valid()
    ensures pmm.freeMem == pmm.totalMem - PhysicalMemory.MapSum(pmm.Live())
  {
  }

  /** The rest of the kernel's allocations are live, with the sizes and counts on record. */
  lemma Recorded(v: Vmm)
    requires v.Valid()
    ensures v.pmm.Valid() && v.outside.Keys == v.outsideRefs.Keys
    ensures forall b ::
      b in v.outside ==> b in v.pmm.Live() && v.pmm.Live()[b] == v.outside[b] && v.pmm.RefOf(b) == v.outsideRefs[b]
  {
  }
}
