/** Whole runs of the descriptor tables: tasks are started, forked, make any calls and end. */
module DescriptorRuns {
  import opened Descriptors

  datatype Call =
    | Spawn
    | Fork(task: nat)
    | Open(task: nat, memory: bool)
    | MakePipe(task: nat, memory: bool)
    | Dup(task: nat, fd: int, memory: bool)
    | Dup2(task: nat, oldfd: int, newfd: int, memory: bool)
    | Mark(task: nat, fd: int, flags: nat)
    | Close(task: nat, fd: int)
    | Exec(task: nat)
    | Exit(task: nat)

  /** What each descriptor stands for, its flags, and every file that ever had a descriptor. */
  datatype State = State(tables: seq<seq<int>>, flags: seq<seq<nat>>, made: set<nat>)

  ghost predicate Sized(s: State) {
    && |s.flags| == |s.tables|
    && forall t :: 0 <= t < |s.tables| ==> |s.tables[t]| == SLOTS && |s.flags[t]| == SLOTS
  }

  ghost function Now(k: Kernel): State
    reads k
  {
    State(k.tables, k.flags, k.made)
  }

  /** A descriptor stands for file `f`; no other changes. */
  ghost function SetTo(s: State, t: nat, fd: int, f: int): State
    requires Sized(s) && t < |s.tables| && 0 <= fd < SLOTS
  {
    s.(tables := s.tables[t := s.tables[t][fd := f]], flags := s.flags[t := s.flags[t][fd := 0]])
  }

  /** It stands for a file that is new. */
  ghost predicate NewAt(a: State, b: State, t: nat, fd: int) {
    && Sized(a) && t < |a.tables| && 0 <= fd < SLOTS
    && exists f: nat :: f !in a.made && b == SetTo(a, t, fd, f).(made := a.made + {f})
  }

  /** The two lowest free descriptors stand for the ends of a pipe, which are new. */
  ghost predicate PipeAt(a: State, b: State, t: nat, rfd: int, wfd: int, rf: nat, wf: nat) {
    && Sized(a) && t < |a.tables| && Lowest(a.tables[t], 0, rfd) && Lowest(a.tables[t], rfd + 1, wfd)
    && rf !in a.made && wf !in a.made && rf != wf
    && b == SetTo(SetTo(a, t, rfd, rf), t, wfd, wf).(made := a.made + {rf, wf})
  }

  ghost predicate TwoFree(tab: seq<int>) { exists i, j :: 0 <= i < j < |tab| && tab[i] == EMPTY && tab[j] == EMPTY }

  /** Exactly the marked descriptors are closed. */
  ghost predicate ExecAt(a: State, b: State, t: nat) {
    && Sized(a) && t < |a.tables| && Sized(b) && |b.tables| == |a.tables| && b.made == a.made
    && b.tables == a.tables[t := b.tables[t]] && b.flags == a.flags[t := b.flags[t]]
    && (forall k :: 0 <= k < SLOTS ==> b.tables[t][k] == if a.flags[t][k] % 2 == 1 then EMPTY else a.tables[t][k])
    && (forall k :: 0 <= k < SLOTS && a.tables[t][k] != EMPTY ==>
          b.flags[t][k] == if a.flags[t][k] % 2 == 1 then 0 else a.flags[t][k])
  }

  ghost predicate Duplicated(a: State, b: State, t: nat, fd: int, memory: bool, r: int) {
    && Sized(a) && t < |a.tables|
    && var tab, start := a.tables[t], if fd <= 2 then 3 else 0;
    if !(InUse(tab, fd) || (0 <= fd <= 2 && memory)) || FullFrom(tab, start) then r == -1 && b == a
    else Lowest(tab, start, r) && if InUse(tab, fd) then b == SetTo(a, t, r, tab[fd]) else NewAt(a, b, t, r)
  }

  ghost predicate Redirected(a: State, b: State, t: nat, oldfd: int, newfd: int, memory: bool, r: int) {
    && Sized(a) && t < |a.tables|
    && var tab := a.tables[t];
    if !(0 <= newfd < SLOTS) || !(InUse(tab, oldfd) || (0 <= oldfd <= 2 && (memory || oldfd == newfd))) then
      r == -1 && b == a
    else
      && r == newfd
      && if oldfd == newfd then b == a
         else if InUse(tab, oldfd) then b == SetTo(a, t, newfd, tab[oldfd])
         else NewAt(a, b, t, newfd)
  }

  /** One call and its result.  A call that names no task does nothing. */
  ghost predicate Happened(c: Call, a: State, b: State, r: int) {
    && Sized(a)
    && if c.Spawn? then b == State(a.tables + [EmptyTable()], a.flags + [NoFlags()], a.made)
       else if c.task >= |a.tables| then b == a
       else
         var t := c.task;
         var tab := a.tables[t];
         match c
         case Fork(_) => b == State(a.tables + [tab], a.flags + [a.flags[t]], a.made)
         case Open(_, memory) =>
           if !memory || FullFrom(tab, 0) then r == -1 && b == a else Lowest(tab, 0, r) && NewAt(a, b, t, r)
         case MakePipe(_, memory) =>
           if memory && TwoFree(tab) then
             r == 0 && exists rfd, wfd, rf: nat, wf: nat :: PipeAt(a, b, t, rfd, wfd, rf, wf)
           else r == -1 && b.tables == a.tables && b.made == a.made && ClearedAtMost(a.tables, a.flags, b.flags, t)
         case Dup(_, fd, memory) => Duplicated(a, b, t, fd, memory, r)
         case Dup2(_, oldfd, newfd, memory) => Redirected(a, b, t, oldfd, newfd, memory, r)
         case Mark(_, fd, value) =>
           if !InUse(tab, fd) then r == -1 && b == a
           else r == 0 && b == a.(flags := a.flags[t := WithFlag(a.flags[t], fd, value)])
         case Close(_, fd) => if !InUse(tab, fd) then r == -1 && b == a else r == 0 && b == SetTo(a, t, fd, EMPTY)
         case Exec(_) => ExecAt(a, b, t)
         case Exit(_) => b == State(a.tables[t := EmptyTable()], a.flags[t := NoFlags()], a.made)
  }

  ghost predicate IsTrace(script: seq<Call>, trace: seq<State>, results: seq<int>) {
    && |trace| == |script| + 1 && |results| == |script|
    && forall n :: 0 <= n < |script| ==> Happened(script[n], trace[n], trace[n + 1], results[n])
  }

  /** The descriptors decide about the files: a file is there while a slot holds it, with as many references as there
      are slots, and its hook has run, once, exactly if none holds it any more. */
  lemma TablesDecide(k: Kernel, f: nat)
    requires k.Valid() && f in k.made
    ensures f in k.closes && (f in k.files <==> CountAll(k.tables, f) > 0)
    ensures f in k.files ==> k.files[f].refs == CountAll(k.tables, f) && k.closes[f] == 0
    ensures f !in k.files ==> k.closes[f] == 1
  {
    if f in k.files {
      assert FileOk(k.tables, k.files, {}, f);
    } else {
      NotHeld(k.tables, k.files, f);
    }
  }

  lemma {:induction false} NotHeld(tabs: seq<seq<int>>, files: map<nat, File>, f: nat)
    requires f !in files && forall t :: 0 <= t < |tabs| ==> TableOk(tabs[t], files)
    ensures CountAll(tabs, f) == 0
  {
    if |tabs| > 0 {
      NotIn(tabs[|tabs| - 1], f);
      NotHeld(tabs[..|tabs| - 1], files, f);
    }
  }

  lemma {:induction false} NotIn(tab: seq<int>, f: nat)
    requires f !in tab
    ensures CountIn(tab, f) == 0
  {
    if |tab| > 0 { NotIn(tab[..|tab| - 1], f); }
  }

  lemma IsSized(k: Kernel)
    requires k.Valid()
    ensures Sized(Now(k)) && k.made <= k.closes.Keys
  {
    forall t | 0 <= t < |k.tables| ensures |k.tables[t]| == SLOTS { assert TableOk(k.tables[t], k.files); }
  }

  method Step(k: Kernel, c: Call) returns (r: int)
    requires k.Valid()
    modifies k
    ensures k.Valid() && Happened(c, old(Now(k)), Now(k), r)
  {
    hide Kernel.Held;
    IsSized(k);
    r := 0;
    if !c.Spawn? && c.task >= |k.tables| { return; }
    match c {
      case Spawn => var t := k.NewTask();
      case Fork(t) => var child := k.Fork(t);
      case Open(t, memory) => r := k.Open(t, memory);
      case MakePipe(t, memory) => r := PipeFor(k, t, memory);
      case Dup(t, fd, memory) => r := k.Dup(t, fd, memory);
      case Dup2(t, oldfd, newfd, memory) => r := k.Dup2(t, oldfd, newfd, memory);
      case Mark(t, fd, value) => r := k.SetFlags(t, fd, value);
      case Close(t, fd) => r := k.Close(t, fd);
      case Exec(t) => k.CloseOnExec(t); IsSized(k);
      case Exit(t) => k.CloseAll(t);
    }
  }

  method PipeFor(k: Kernel, t: nat, memory: bool) returns (r: int)
    requires k.Valid() && t < |k.tables|
    modifies k
    ensures k.Valid() && Happened(MakePipe(t, memory), old(Now(k)), Now(k), r)
  {
    hide Kernel.Held;
    IsSized(k);
    ghost var a := Now(k);
    var rfd, wfd;
    r, rfd, wfd := k.MakePipe(t, memory);
    if r == 0 {
      ghost var rf: nat, wf: nat :|
        && k.tables == a.tables[t := a.tables[t][rfd := rf][wfd := wf]] && rf !in a.made && wf !in a.made && rf != wf
        && k.made == a.made + {rf, wf};
      assert PipeAt(a, Now(k), t, rfd, wfd, rf, wf);
      assert a.tables[t][rfd] == EMPTY && a.tables[t][wfd] == EMPTY;
    }
  }

  /** Any script, and then every task ends.  Each call does to the descriptors what it should; and at the end no file
      and no pipe is left, every file that ever had a descriptor had its hook run exactly once, and every pipe was
      freed exactly once. */
  method WholeRun(script: seq<Call>) returns (k: Kernel, results: seq<int>, ghost trace: seq<State>)
    ensures IsTrace(script, trace, results) && trace[0] == State([], [], {}) && k.made == trace[|script|].made
    ensures k.Valid() && k.files == map[] && k.pipes == map[]
    ensures forall f :: f in k.made ==> f in k.closes && k.closes[f] == 1
    ensures forall p :: p in k.madePipes ==> p in k.frees && k.frees[p] == 1
  {
    hide Kernel.Held, Happened;
    k := new Kernel();
    results, trace := [], [Now(k)];
    for n := 0 to |script|
      invariant k.Valid() && fresh(k) && IsTrace(script[..n], trace, results)
      invariant trace[0] == State([], [], {}) && trace[n] == Now(k)
    {
      var r := Step(k, script[n]);
      results, trace := results + [r], trace + [Now(k)];
      assert script[..n + 1] == script[..n] + [script[n]];
    }
    assert script[..|script|] == script;
    Finish(k);
  }

  /** Every task ends. */
  method Finish(k: Kernel)
    requires k.Valid()
    modifies k
    ensures k.Valid() && k.files == map[] && k.pipes == map[] && k.made == old(k.made)
    ensures forall f :: f in k.made ==> f in k.closes && k.closes[f] == 1
    ensures forall p :: p in k.madePipes ==> p in k.frees && k.frees[p] == 1
  {
    hide Kernel.Held;
    var n := |k.tables|;
    for t := 0 to n
      invariant k.Valid() && |k.tables| == n && k.made == old(k.made)
      invariant forall u :: 0 <= u < t ==> k.tables[u] == EmptyTable()
    {
      k.CloseAll(t);
    }
    NothingLeft(k);
  }
}
