/** File descriptors, open files and pipe lifetimes (src/fs/vfs.c, src/ipc/pipe.c). */
module Descriptors {
  const SLOTS := 128
  const EMPTY := -1

  /** What a file's close hook does; only pipe ends have one. */
  datatype Kind = Plain | ReadEnd(pipe: nat) | WriteEnd(pipe: nat)

  datatype File = File(refs: nat, kind: Kind)

  datatype Pipe = Pipe(readers: nat, writers: nat)

  // ---- Counting the slots that hold a file ----

  function CountIn(tab: seq<int>, f: int): nat {
    if tab == [] then 0 else CountIn(tab[..|tab| - 1], f) + if tab[|tab| - 1] == f then 1 else 0
  }

  function CountAll(tabs: seq<seq<int>>, f: int): nat {
    if tabs == [] then 0 else CountAll(tabs[..|tabs| - 1], f) + CountIn(tabs[|tabs| - 1], f)
  }

  function One(b: bool): nat { if b then 1 else 0 }

  lemma {:induction false} CountInSet(tab: seq<int>, i: nat, v: int, f: int)
    requires i < |tab|
    ensures CountIn(tab[i := v], f) == CountIn(tab, f) - One(tab[i] == f) + One(v == f)
    ensures tab[i] == f ==> CountIn(tab, f) >= 1
  {
    var n := |tab| - 1;
    if i < n {
      assert tab[i := v][..n] == tab[..n][i := v];
      CountInSet(tab[..n], i, v, f);
    } else {
      assert tab[i := v][..n] == tab[..n];
    }
  }

  lemma {:induction false} CountAllSet(tabs: seq<seq<int>>, t: nat, tab: seq<int>, f: int)
    requires t < |tabs|
    ensures CountAll(tabs[t := tab], f) == CountAll(tabs, f) - CountIn(tabs[t], f) + CountIn(tab, f)
    ensures CountIn(tabs[t], f) <= CountAll(tabs, f)
  {
    var n := |tabs| - 1;
    if t < n {
      assert tabs[t := tab][..n] == tabs[..n][t := tab];
      CountAllSet(tabs[..n], t, tab, f);
    } else {
      assert tabs[t := tab][..n] == tabs[..n];
    }
  }

  lemma CountAllMore(tabs: seq<seq<int>>, tab: seq<int>, f: int)
    ensures CountAll(tabs + [tab], f) == CountAll(tabs, f) + CountIn(tab, f)
  {
    assert (tabs + [tab])[..|tabs|] == tabs;
  }

  /** One slot changed. */
  lemma SlotSet(tabs: seq<seq<int>>, t: nat, i: nat, v: int, f: int)
    requires t < |tabs| && i < |tabs[t]|
    ensures CountAll(tabs[t := tabs[t][i := v]], f) == CountAll(tabs, f) - One(tabs[t][i] == f) + One(v == f)
    ensures tabs[t][i] == f ==> CountAll(tabs, f) >= 1
  {
    CountInSet(tabs[t], i, v, f);
    CountAllSet(tabs, t, tabs[t][i := v], f);
  }

  lemma {:induction false} CountInNone(tab: seq<int>, f: int)
    requires forall i :: 0 <= i < |tab| ==> tab[i] != f
    ensures CountIn(tab, f) == 0
  {
    if tab != [] { CountInNone(tab[..|tab| - 1], f); }
  }

  lemma {:induction false} CountAllNone(tabs: seq<seq<int>>, f: int)
    requires forall t, i :: 0 <= t < |tabs| && 0 <= i < |tabs[t]| ==> tabs[t][i] != f
    ensures CountAll(tabs, f) == 0
  {
    if tabs != [] {
      CountAllNone(tabs[..|tabs| - 1], f);
      CountInNone(tabs[|tabs| - 1], f);
    }
  }

  // ---- The invariant ----

  ghost predicate TableOk(tab: seq<int>, files: map<nat, File>) {
    |tab| == SLOTS && forall i :: 0 <= i < |tab| ==> tab[i] == EMPTY || (tab[i] >= 0 && tab[i] in files)
  }

  /** A file's count is the number of slots holding it, and one more if it is in `extra`: held outside any slot. */
  ghost predicate FileOk(tabs: seq<seq<int>>, files: map<nat, File>, extra: set<nat>, f: nat)
    requires f in files
  {
    files[f].refs == CountAll(tabs, f) + One(f in extra) && files[f].refs >= 1
  }

  ghost predicate Balanced(tabs: seq<seq<int>>, files: map<nat, File>, extra: set<nat>) {
    && (forall t :: 0 <= t < |tabs| ==> TableOk(tabs[t], files))
    && (forall f {:trigger FileOk(tabs, files, extra, f)} :: f in files ==> FileOk(tabs, files, extra, f))
    && extra <= files.Keys
  }

  /** The two ends of every pipe ever made, by the files made for them. */
  datatype Ends = Ends(reader: nat, writer: nat)

  /** A pipe is there while one of its end files is, and counts those that are. */
  ghost predicate PipeOk(files: map<nat, File>, pipes: map<nat, Pipe>, ends: map<nat, Ends>, p: nat)
    requires p in ends
  {
    var e := ends[p];
    && e.reader != e.writer
    && (e.reader in files ==> files[e.reader].kind == ReadEnd(p))
    && (e.writer in files ==> files[e.writer].kind == WriteEnd(p))
    && (p in pipes <==> e.reader in files || e.writer in files)
    && (p in pipes ==> pipes[p] == Pipe(One(e.reader in files), One(e.writer in files)))
  }

  ghost predicate KindOk(files: map<nat, File>, ends: map<nat, Ends>, f: nat)
    requires f in files
  {
    match files[f].kind
    case Plain => true
    case ReadEnd(p) => p in ends && ends[p].reader == f
    case WriteEnd(p) => p in ends && ends[p].writer == f
  }

  ghost predicate PipesOk(files: map<nat, File>, pipes: map<nat, Pipe>, ends: map<nat, Ends>) {
    && (forall p {:trigger PipeOk(files, pipes, ends, p)} :: p in ends ==> PipeOk(files, pipes, ends, p))
    && (forall f {:trigger KindOk(files, ends, f)} :: f in files ==> KindOk(files, ends, f))
    && pipes.Keys <= ends.Keys
  }

  /** Every file ever put in a slot has had its hook run once if it is gone, and not at all while it is there; so
      for pipes and being freed. */
  ghost predicate LogOk(files: map<nat, File>, pipes: map<nat, Pipe>, ends: map<nat, Ends>, closes: map<nat, nat>,
                        frees: map<nat, nat>) {
    && files.Keys <= closes.Keys && (forall f :: f in closes ==> closes[f] == 1 - One(f in files))
    && frees.Keys == ends.Keys && (forall p :: p in frees ==> frees[p] == 1 - One(p in pipes))
  }

  /** Ids are never used again. */
  ghost predicate IdsOk(nextFile: nat, nextPipe: nat, ends: map<nat, Ends>, closes: map<nat, nat>) {
    && (forall f :: f in closes ==> f < nextFile)
    && (forall p :: p in ends ==> p < nextPipe && ends[p].reader < nextFile && ends[p].writer < nextFile)
  }

  /** What had a descriptor stays in the log. */
  ghost predicate MadeOk(made: set<nat>, log: map<nat, nat>) { made <= log.Keys }

  lemma MadeMore(made: set<nat>, log: map<nat, nat>, f: nat, n: nat)
    requires MadeOk(made, log)
    ensures MadeOk(made, log[f := n]) && MadeOk(made + {f}, log[f := n])
    ensures f in log ==> MadeOk(made + {f}, log) && log[f := n].Keys == log.Keys
    ensures f !in made ==> MadeOk(made, log - {f})
  {
  }

  lemma MadeTwo(made: set<nat>, log: map<nat, nat>, f: nat, g: nat)
    requires MadeOk(made, log)
    ensures MadeOk(made, log[f := 0][g := 0]) && MadeOk(made + {f, g}, log[f := 0][g := 0])
    ensures f in log && g in log ==> MadeOk(made + {f, g}, log)
    ensures f !in made && g !in made ==> MadeOk(made, log - {f, g})
  {
  }

  lemma MadeFresh(made: set<nat>, log: map<nat, nat>, f: nat)
    requires MadeOk(made, log) && f !in log
    ensures f !in made
  {
  }

  // ---- What each change keeps ----

  /** Filling an empty slot with a file held outside. */
  lemma InstallKeeps(tabs: seq<seq<int>>, files: map<nat, File>, extra: set<nat>, f: nat, t: nat, i: nat)
    requires Balanced(tabs, files, extra) && f in extra && t < |tabs| && i < SLOTS && i < |tabs[t]|
    requires tabs[t][i] == EMPTY
    ensures Balanced(tabs[t := tabs[t][i := f]], files, extra - {f})
  {
    var tabs' := tabs[t := tabs[t][i := f]];
    assert TableOk(tabs[t], files);
    forall g | g in files ensures FileOk(tabs', files, extra - {f}, g) {
      assert FileOk(tabs, files, extra, g);
      SlotSet(tabs, t, i, f, g);
    }
    forall x | 0 <= x < |tabs'| ensures TableOk(tabs'[x], files) { assert TableOk(tabs[x], files); }
  }

  /** Emptying a slot leaves its file held outside. */
  lemma RemoveKeeps(tabs: seq<seq<int>>, files: map<nat, File>, extra: set<nat>, t: nat, i: nat)
    requires Balanced(tabs, files, extra) && t < |tabs| && i < SLOTS && i < |tabs[t]| && tabs[t][i] >= 0
    requires tabs[t][i] !in extra
    ensures Balanced(tabs[t := tabs[t][i := EMPTY]], files, extra + {tabs[t][i]})
  {
    var f, tabs' := tabs[t][i], tabs[t := tabs[t][i := EMPTY]];
    assert TableOk(tabs[t], files);
    forall g | g in files ensures FileOk(tabs', files, extra + {f}, g) {
      assert FileOk(tabs, files, extra, g);
      SlotSet(tabs, t, i, EMPTY, g);
    }
    forall x | 0 <= x < |tabs'| ensures TableOk(tabs'[x], files) { assert TableOk(tabs[x], files); }
  }

  /** A new reference held outside. */
  lemma RetainKeeps(tabs: seq<seq<int>>, files: map<nat, File>, extra: set<nat>, f: nat)
    requires Balanced(tabs, files, extra) && f in files && f !in extra
    ensures Balanced(tabs, files[f := files[f].(refs := files[f].refs + 1)], extra + {f})
  {
    var files' := files[f := files[f].(refs := files[f].refs + 1)];
    forall g | g in files' ensures FileOk(tabs, files', extra + {f}, g) { assert FileOk(tabs, files, extra, g); }
    forall t | 0 <= t < |tabs| ensures TableOk(tabs[t], files') { assert TableOk(tabs[t], files); }
  }

  /** Dropping a reference held outside: one less, or the file is gone. */
  lemma DropKeeps(tabs: seq<seq<int>>, files: map<nat, File>, extra: set<nat>, f: nat)
    requires Balanced(tabs, files, extra) && f in extra
    ensures f in files && files[f].refs >= 1
    ensures files[f].refs > 1 ==> Balanced(tabs, files[f := files[f].(refs := files[f].refs - 1)], extra - {f})
    ensures files[f].refs == 1 ==> Balanced(tabs, files - {f}, extra - {f})
  {
    assert FileOk(tabs, files, extra, f);
    if files[f].refs > 1 {
      var files' := files[f := files[f].(refs := files[f].refs - 1)];
      forall g | g in files' ensures FileOk(tabs, files', extra - {f}, g) { assert FileOk(tabs, files, extra, g); }
      forall t | 0 <= t < |tabs| ensures TableOk(tabs[t], files') { assert TableOk(tabs[t], files); }
    } else {
      var files' := files - {f};
      forall g | g in files' ensures FileOk(tabs, files', extra - {f}, g) { assert FileOk(tabs, files, extra, g); }
      forall t | 0 <= t < |tabs| ensures TableOk(tabs[t], files') {
        assert TableOk(tabs[t], files);
        forall i | 0 <= i < |tabs[t]| ensures tabs[t][i] != f { SlotSet(tabs, t, i, EMPTY, f); }
      }
    }
  }

  /** A new file held outside. */
  lemma CreateKeeps(tabs: seq<seq<int>>, files: map<nat, File>, extra: set<nat>, f: nat, kind: Kind)
    requires Balanced(tabs, files, extra) && f !in files
    ensures Balanced(tabs, files[f := File(1, kind)], extra + {f})
  {
    var files' := files[f := File(1, kind)];
    forall t, i | 0 <= t < |tabs| && 0 <= i < |tabs[t]| ensures tabs[t][i] != f { assert TableOk(tabs[t], files); }
    CountAllNone(tabs, f);
    forall g | g in files' ensures FileOk(tabs, files', extra + {f}, g) {
      if g != f { assert FileOk(tabs, files, extra, g); }
    }
    forall t | 0 <= t < |tabs| ensures TableOk(tabs[t], files') { assert TableOk(tabs[t], files); }
  }

  /** A file that no slot has held is discarded without a trace. */
  lemma DiscardKeeps(tabs: seq<seq<int>>, files: map<nat, File>, extra: set<nat>, f: nat)
    requires Balanced(tabs, files, extra) && f in extra && files[f].refs == 1
    ensures Balanced(tabs, files - {f}, extra - {f})
  {
    DropKeeps(tabs, files, extra, f);
  }

  /** The pipes after a file is gone: its end is closed, and the pipe is freed with its last end. */
  function PipesAfter(pipes: map<nat, Pipe>, kind: Kind): map<nat, Pipe> {
    match kind
    case Plain => pipes
    case ReadEnd(p) =>
      if p !in pipes || pipes[p].readers == 0 then pipes
      else if pipes[p].readers == 1 && pipes[p].writers == 0 then pipes - {p}
      else pipes[p := pipes[p].(readers := pipes[p].readers - 1)]
    case WriteEnd(p) =>
      if p !in pipes || pipes[p].writers == 0 then pipes
      else if pipes[p].writers == 1 && pipes[p].readers == 0 then pipes - {p}
      else pipes[p := pipes[p].(writers := pipes[p].writers - 1)]
  }

  lemma GoneKeepsPipes(files: map<nat, File>, pipes: map<nat, Pipe>, ends: map<nat, Ends>, f: nat)
    requires PipesOk(files, pipes, ends) && f in files
    ensures PipesOk(files - {f}, PipesAfter(pipes, files[f].kind), ends)
    ensures match files[f].kind
            case Plain => true
            case ReadEnd(p) => p in pipes && pipes[p].readers == 1
            case WriteEnd(p) => p in pipes && pipes[p].writers == 1
  {
    var files', pipes' := files - {f}, PipesAfter(pipes, files[f].kind);
    assert KindOk(files, ends, f);
    if files[f].kind.ReadEnd? || files[f].kind.WriteEnd? { assert PipeOk(files, pipes, ends, files[f].kind.pipe); }
    forall p | p in ends ensures PipeOk(files', pipes', ends, p) { assert PipeOk(files, pipes, ends, p); }
    forall g | g in files' ensures KindOk(files', ends, g) { assert KindOk(files, ends, g); }
  }

  /** Changing a count does not touch the pipes. */
  lemma RefsKeepPipes(files: map<nat, File>, pipes: map<nat, Pipe>, ends: map<nat, Ends>, f: nat, refs: nat)
    requires PipesOk(files, pipes, ends) && f in files
    ensures PipesOk(files[f := files[f].(refs := refs)], pipes, ends)
  {
    var files' := files[f := files[f].(refs := refs)];
    forall p | p in ends ensures PipeOk(files', pipes, ends, p) { assert PipeOk(files, pipes, ends, p); }
    forall g | g in files' ensures KindOk(files', ends, g) { assert KindOk(files, ends, g); }
  }

  lemma PlainKeepsPipes(files: map<nat, File>, pipes: map<nat, Pipe>, ends: map<nat, Ends>, f: nat)
    requires PipesOk(files, pipes, ends) && f !in files
    requires forall p :: p in ends ==> ends[p].reader != f && ends[p].writer != f
    ensures PipesOk(files[f := File(1, Plain)], pipes, ends)
  {
    var files' := files[f := File(1, Plain)];
    forall p | p in ends ensures PipeOk(files', pipes, ends, p) { assert PipeOk(files, pipes, ends, p); }
    forall g | g in files' ensures KindOk(files', ends, g) { if g != f { assert KindOk(files, ends, g); } }
  }

  /** A descriptor that holds a file. */
  predicate InUse(tab: seq<int>, fd: int) { 0 <= fd < |tab| && tab[fd] != EMPTY }

  /** The lowest empty slot from `start` on. */
  ghost predicate Lowest(tab: seq<int>, start: int, fd: int) {
    0 <= fd < |tab| && start <= fd && tab[fd] == EMPTY && forall i :: 0 <= i < fd && start <= i ==> tab[i] != EMPTY
  }

  ghost predicate FullFrom(tab: seq<int>, start: int) {
    forall i :: 0 <= i < |tab| && start <= i ==> tab[i] != EMPTY
  }

  /** The files once a reference to `f` is dropped. */
  ghost function Dropped(files: map<nat, File>, f: int): map<nat, File> {
    if f < 0 || f !in files then files
    else if files[f].refs > 1 then files[f := files[f].(refs := files[f].refs - 1)]
    else files - {f}
  }

  /** And the pipes: the last reference to an end closes it. */
  ghost function PipesDropped(files: map<nat, File>, pipes: map<nat, Pipe>, f: int): map<nat, Pipe> {
    if f < 0 || f !in files || files[f].refs > 1 then pipes else PipesAfter(pipes, files[f].kind)
  }

  /** And the log: the last reference runs the hook. */
  ghost function ClosesDropped(files: map<nat, File>, closes: map<nat, nat>, f: int): map<nat, nat> {
    if f < 0 || f !in files || files[f].refs > 1 then closes else closes[f := 1]
  }

  /** One slot was refilled: what it held is dropped, its flags are clear, and no other slot changed. */
  ghost predicate Replaced(tables: seq<seq<int>>, flags: seq<seq<nat>>, files: map<nat, File>, pipes: map<nat, Pipe>,
                           tables': seq<seq<int>>, flags': seq<seq<nat>>, pipes': map<nat, Pipe>, t: nat, fd: nat) {
    && t < |tables| && fd < |tables[t]| && t < |tables'| && fd < |tables'[t]| && t < |flags| && fd < |flags[t]|
    && tables' == tables[t := tables[t][fd := tables'[t][fd]]] && flags' == flags[t := flags[t][fd := 0]]
    && pipes' == PipesDropped(files, pipes, tables[t][fd])
  }

  /** No flags changed but perhaps those of an empty slot, which are clear now. */
  ghost predicate ClearedAtMost(tables: seq<seq<int>>, flags: seq<seq<nat>>, flags': seq<seq<nat>>, t: nat) {
    || flags' == flags
    || (&& t < |tables| && t < |flags|
        && exists fd ::
             0 <= fd < |flags[t]| && Lowest(tables[t], 0, fd) && flags' == flags[t := flags[t][fd := 0]])
  }

  /** Emptying a slot first makes no difference to refilling it. */
  lemma Refilled(tables: seq<seq<int>>, flags: seq<seq<nat>>, t: nat, fd: nat, f: int)
    requires t < |tables| && fd < |tables[t]| && t < |flags| && fd < |flags[t]|
    ensures var T, F := tables[t := tables[t][fd := EMPTY]], flags[t := flags[t][fd := 0]];
            T[t := T[t][fd := f]] == tables[t := tables[t][fd := f]] && F[t := F[t][fd := 0]] == F
  {
    assert tables[t][fd := EMPTY][fd := f] == tables[t][fd := f] && flags[t][fd := 0][fd := 0] == flags[t][fd := 0];
  }

  lemma DroppedNone(files: map<nat, File>, pipes: map<nat, Pipe>, closes: map<nat, nat>)
    ensures Dropped(files, EMPTY) == files && PipesDropped(files, pipes, EMPTY) == pipes
    ensures ClosesDropped(files, closes, EMPTY) == closes
  {
  }

  /** Making a file before dropping another comes to the same as making it after. */
  lemma DroppedNew(files: map<nat, File>, pipes: map<nat, Pipe>, closes: map<nat, nat>, g: nat, f: nat)
    requires g in files && f !in files
    ensures ClosesDropped(files[f := File(1, Plain)], closes[f := 0], g) == ClosesDropped(files, closes, g)[f := 0]
    ensures Dropped(files[f := File(1, Plain)], g) == Dropped(files, g)[f := File(1, Plain)]
    ensures PipesDropped(files[f := File(1, Plain)], pipes, g) == PipesDropped(files, pipes, g)
  {
  }

  class Kernel {
    var tables: seq<seq<int>>
    var flags: seq<seq<nat>>
    var files: map<nat, File>
    var pipes: map<nat, Pipe>
    var nextFile: nat
    var nextPipe: nat
    ghost var ends: map<nat, Ends>
    ghost var closes: map<nat, nat>
    ghost var frees: map<nat, nat>
    /** Every file that ever had a descriptor, and every pipe that did. */
    ghost var made: set<nat>
    ghost var madePipes: set<nat>

    /** The invariant while the files in `extra` are each held once outside the tables. */
    ghost predicate Held(extra: set<nat>)
      reads this
    {
      && Balanced(tables, files, extra) && PipesOk(files, pipes, ends)
      && LogOk(files, pipes, ends, closes, frees) && IdsOk(nextFile, nextPipe, ends, closes)
      && MadeOk(made, closes) && MadeOk(madePipes, frees)
      && |flags| == |tables| && forall t :: 0 <= t < |flags| ==> |flags[t]| == SLOTS
    }

    /** Each file's count is the number of slots holding it; files and pipes that are gone were closed and freed
        exactly once. */
    ghost predicate Valid()
      reads this
    {
      Held({})
    }

    constructor ()
      ensures Valid() && tables == [] && flags == [] && files == map[] && pipes == map[]
      ensures made == {} && madePipes == {}
    {
      tables, flags, files, pipes, nextFile, nextPipe := [], [], map[], map[], 0, 0;
      ends, closes, frees, made, madePipes := map[], map[], map[], {}, {};
    }

    /** A task with an empty table. */
    method NewTask() returns (t: nat)
      requires Valid()
      modifies this`tables, this`flags
      ensures Valid() && t == old(|tables|) && tables == old(tables) + [EmptyTable()]
      ensures flags == old(flags) + [NoFlags()] && |tables[t]| == |flags[t]| == 128
    {
      t := |tables|;
      EmptyTableKeeps(tables, files);
      tables := tables + [EmptyTable()];
      flags := flags + [NoFlags()];
    }

    /** Drops a reference held outside: the last one runs the close hook and frees the file. */
    method Release(f: nat, ghost extra: set<nat>)
      requires Held(extra) && f in extra
      modifies this`files, this`pipes, this`closes, this`frees
      ensures Held(extra - {f}) && f in old(files) && old(files)[f].refs >= 1
      ensures files == Dropped(old(files), f) && pipes == PipesDropped(old(files), old(pipes), f)
      ensures closes == ClosesDropped(old(files), old(closes), f) && closes.Keys == old(closes).Keys
      ensures frees.Keys == old(frees).Keys
    {
      hide MadeOk, Balanced, PipesOk, LogOk;
      DropKeeps(tables, files, extra, f);
      if files[f].refs > 1 {
        RefsKeepPipes(files, pipes, ends, f, files[f].refs - 1);
        RefsKeepLog(files, pipes, ends, closes, frees, f, files[f].refs - 1);
        files := files[f := files[f].(refs := files[f].refs - 1)];
        return;
      }
      GoneKeepsPipes(files, pipes, ends, f);
      GoneKeepsLog(files, pipes, ends, closes, frees, f);
      MadeMore(made, closes, f, 1);
      MadeFrees(madePipes, pipes, frees, files[f].kind);
      var kind := files[f].kind;
      frees := FreesAfter(pipes, frees, kind);
      closes := closes[f := closes[f] + 1];
      pipes := PipesAfter(pipes, kind);
      files := files - {f};
    }

    /** The file in a slot, or -1. */
    method Get(t: nat, fd: int) returns (f: int)
      requires Valid() && t < |tables|
      ensures |tables[t]| == SLOTS && f == (if 0 <= fd < SLOTS then tables[t][fd] else EMPTY)
      ensures f == EMPTY || (f >= 0 && f in files)
    {
      assert TableOk(tables[t], files);
      if fd < 0 || fd >= SLOTS {
        return EMPTY;
      }
      return tables[t][fd];
    }

    /** Empties a slot; its file is then held outside. */
    method Free(t: nat, fd: nat, ghost extra: set<nat>)
      requires Held(extra) && t < |tables| && fd < SLOTS && |tables[t]| == SLOTS && tables[t][fd] >= 0
      requires tables[t][fd] !in extra
      modifies this`tables, this`flags
      ensures Held(extra + {old(tables[t][fd])}) && tables == old(tables)[t := old(tables[t])[fd := EMPTY]]
      ensures flags == old(flags)[t := old(flags[t])[fd := 0]]
    {
      RemoveKeeps(tables, files, extra, t, fd);
      tables := tables[t := tables[t][fd := EMPTY]];
      flags := flags[t := flags[t][fd := 0]];
    }

    /** Puts a file held outside into the lowest empty slot from `start` on. */
    method AllocFrom(t: nat, f: nat, start: int, ghost extra: set<nat>) returns (fd: int)
      requires Held(extra) && f in extra && t < |tables|
      modifies this`tables, this`flags
      ensures |old(tables[t])| == SLOTS
      ensures fd < 0 ==> fd == -1 && Held(extra) && tables == old(tables) && flags == old(flags)
      ensures fd < 0 ==> FullFrom(old(tables[t]), start)
      ensures fd >= 0 ==>
        && Held(extra - {f}) && Lowest(old(tables[t]), start, fd)
        && tables == old(tables)[t := old(tables[t])[fd := f]] && flags == old(flags)[t := old(flags[t])[fd := 0]]
    {
      assert TableOk(tables[t], files);
      var i := if start < 0 then 0 else start;
      while i < SLOTS
        invariant 0 <= i && (start >= 0 ==> start <= i)
        invariant forall k :: 0 <= k < i && start <= k && k < SLOTS ==> tables[t][k] != EMPTY
      {
        if tables[t][i] == EMPTY {
          InstallKeeps(tables, files, extra, f, t, i);
          tables := tables[t := tables[t][i := f]];
          flags := flags[t := flags[t][i := 0]];
          return i;
        }
        i := i + 1;
      }
      return -1;
    }

    /** A new plain file, held outside. */
    method Create(ghost extra: set<nat>) returns (f: nat)
      requires Held(extra)
      modifies this`files, this`nextFile, this`closes
      ensures f !in old(files) && f !in extra && f !in old(closes) && f !in made && Held(extra + {f})
      ensures files == old(files)[f := File(1, Plain)] && closes == old(closes)[f := 0]
    {
      hide MadeOk;
      f := nextFile;
      MadeFresh(made, closes, f);
      MadeMore(made, closes, f, 0);
      CreateKeeps(tables, files, extra, f, Plain);
      PlainKeepsPipes(files, pipes, ends, f);
      files := files[f := File(1, Plain)];
      closes := closes[f := 0];
      nextFile := nextFile + 1;
    }

    /** Frees a plain file that never got a slot; no hook runs. */
    method Discard(f: nat, ghost extra: set<nat>)
      requires Held(extra) && f in extra && f !in made && files[f].refs == 1 && files[f].kind == Plain
      modifies this`files, this`closes
      ensures Held(extra - {f}) && files == old(files) - {f} && closes == old(closes) - {f}
    {
      hide MadeOk;
      MadeMore(made, closes, f, 0);
      DiscardKeeps(tables, files, extra, f);
      GoneKeepsPipes(files, pipes, ends, f);
      files := files - {f};
      closes := closes - {f};
    }

    /** A new plain file in the lowest free slot from `start` on, or no trace. */
    method Install(t: nat, start: nat) returns (fd: int)
      requires Valid() && t < |tables|
      modifies this`tables, this`flags, this`files, this`nextFile, this`closes, this`made
      ensures Valid() && |old(tables[t])| == SLOTS
      ensures fd < 0 ==> fd == -1 && FullFrom(old(tables[t]), start)
      ensures fd < 0 ==>
        && tables == old(tables) && flags == old(flags) && files == old(files) && closes == old(closes)
        && made == old(made)
      ensures fd >= 0 ==> Lowest(old(tables[t]), start, fd) && flags == old(flags)[t := old(flags[t])[fd := 0]]
      ensures fd >= 0 ==> exists f: nat ::
        && f !in old(closes) && tables == old(tables)[t := old(tables[t])[fd := f]]
        && files == old(files)[f := File(1, Plain)]
        && closes == old(closes)[f := 0] && made == old(made) + {f}
    {
      hide MadeOk, Balanced, PipesOk, LogOk, IdsOk;
      ghost var was := files;
      var f := Create({});
      assert {} + {f} == {f} && {f} - {f} == {};
      assert was[f := File(1, Plain)] - {f} == was && old(closes)[f := 0] - {f} == old(closes);
      fd := AllocFrom(t, f, start, {f});
      if fd < 0 {
        Discard(f, {f});
      } else {
        MadeMore(made, closes, f, 0);
        made := made + {f};
      }
    }

    /** Opens a file, once its path is resolved; `memory` says whether there is room for its record. */
    method Open(t: nat, memory: bool) returns (fd: int)
      requires Valid() && t < |tables|
      modifies this`tables, this`flags, this`files, this`nextFile, this`closes, this`made
      ensures Valid() && |old(tables[t])| == SLOTS
      ensures fd == -1 <==> !memory || FullFrom(old(tables[t]), 0)
      ensures fd == -1 ==>
        && tables == old(tables) && flags == old(flags) && files == old(files) && closes == old(closes)
        && made == old(made)
      ensures fd != -1 ==> Lowest(old(tables[t]), 0, fd) && flags == old(flags)[t := old(flags[t])[fd := 0]]
      ensures fd != -1 ==> exists f: nat ::
        && f !in old(closes) && tables == old(tables)[t := old(tables[t])[fd := f]]
        && files == old(files)[f := File(1, Plain)]
        && closes == old(closes)[f := 0] && made == old(made) + {f}
    {
      TableFacts(tables, files, t);
      if !memory {
        return -1;
      }
      fd := Install(t, 0);
    }

    /** Closes a descriptor: the slot is empty, and its file has a reference less. */
    method Close(t: nat, fd: int) returns (r: int)
      requires Valid() && t < |tables|
      modifies this`tables, this`flags, this`files, this`pipes, this`closes, this`frees
      ensures Valid() && |old(tables[t])| == SLOTS
      ensures r == -1 <==> !InUse(old(tables[t]), fd)
      ensures r == -1 ==>
        && tables == old(tables) && flags == old(flags) && files == old(files) && pipes == old(pipes)
        && closes == old(closes)
      ensures r != -1 ==>
        && r == 0 && tables == old(tables)[t := old(tables[t])[fd := EMPTY]]
        && flags == old(flags)[t := old(flags[t])[fd := 0]]
        && files == Dropped(old(files), old(tables[t])[fd])
        && pipes == PipesDropped(old(files), old(pipes), old(tables[t])[fd])
        && closes == ClosesDropped(old(files), old(closes), old(tables[t])[fd])
    {
      hide MadeOk, Balanced, PipesOk, LogOk, IdsOk;
      var f := Get(t, fd);
      if f == EMPTY {
        return -1;
      }
      assert {} + {f} == {f} && {f} - {f} == {};
      Free(t, fd, {});
      Release(f, {f});
      return 0;
    }

    /** Closes a used slot while other files are held outside. */
    method CloseSlot(t: nat, fd: nat, ghost extra: set<nat>)
      requires Held(extra) && t < |tables| && fd < SLOTS && |tables[t]| == SLOTS && tables[t][fd] >= 0
      requires tables[t][fd] !in extra
      modifies this`tables, this`flags, this`files, this`pipes, this`closes, this`frees
      ensures Held(extra) && tables == old(tables)[t := old(tables[t])[fd := EMPTY]]
      ensures closes.Keys == old(closes).Keys && frees.Keys == old(frees).Keys
      ensures flags == old(flags)[t := old(flags[t])[fd := 0]]
      ensures files == Dropped(old(files), old(tables[t][fd]))
      ensures pipes == PipesDropped(old(files), old(pipes), old(tables[t][fd]))
      ensures closes == ClosesDropped(old(files), old(closes), old(tables[t][fd]))
    {
      hide MadeOk, Balanced, PipesOk, LogOk, IdsOk;
      var f: nat := tables[t][fd];
      assert extra + {f} - {f} == extra;
      Free(t, fd, extra);
      Release(f, extra + {f});
    }

    /** The lowest empty slot from `start` on, or -1. */
    method LowestFree(t: nat, start: nat) returns (fd: int)
      requires t < |tables| && |tables[t]| == SLOTS
      ensures fd < 0 ==> fd == -1 && FullFrom(tables[t], start)
      ensures fd >= 0 ==> Lowest(tables[t], start, fd)
    {
      fd := start;
      while fd < SLOTS
        invariant start <= fd && forall i :: start <= i < fd && i < SLOTS ==> tables[t][i] != EMPTY
      {
        if tables[t][fd] == EMPTY {
          return;
        }
        fd := fd + 1;
      }
      fd := -1;
    }

    /** One more slot for a file that has some. */
    method Share(t: nat, fd: nat, f: nat)
      requires Valid() && t < |tables| && fd < SLOTS && |tables[t]| == SLOTS && tables[t][fd] == EMPTY && f in files
      modifies this`tables, this`flags, this`files
      ensures Valid() && tables == old(tables)[t := old(tables[t])[fd := f]]
      ensures files == Bumped(old(files), f) && flags == old(flags)[t := old(flags[t])[fd := 0]]
    {
      hide MadeOk, Balanced, PipesOk, LogOk;
      var files' := files[f := files[f].(refs := files[f].refs + 1)];
      RetainKeeps(tables, files, {}, f);
      assert {} + {f} - {f} == {};
      InstallKeeps(tables, files', {} + {f}, f, t, fd);
      RefsKeepPipes(files, pipes, ends, f, files[f].refs + 1);
      RefsKeepLog(files, pipes, ends, closes, frees, f, files[f].refs + 1);
      tables := tables[t := tables[t][fd := f]];
      flags := flags[t := flags[t][fd := 0]];
      files := files';
    }

    /** Duplicates a descriptor. An empty descriptor 0, 1 or 2 stands for the console and gets a file of its own. */
    method Dup(t: nat, fd: int, memory: bool) returns (newfd: int)
      requires Valid() && t < |tables|
      modifies this`tables, this`flags, this`files, this`nextFile, this`closes, this`made
      ensures Valid() && |old(tables[t])| == SLOTS
      ensures newfd == -1 <==>
        !(InUse(old(tables[t]), fd) || (0 <= fd <= 2 && memory)) || FullFrom(old(tables[t]), if fd <= 2 then 3 else 0)
      ensures newfd == -1 ==> tables == old(tables) && flags == old(flags) && files == old(files)
      ensures newfd == -1 || InUse(old(tables[t]), fd) ==> closes == old(closes) && made == old(made)
      ensures newfd != -1 ==>
        Lowest(old(tables[t]), if fd <= 2 then 3 else 0, newfd) && flags == old(flags)[t := old(flags[t])[newfd := 0]]
      ensures newfd != -1 && InUse(old(tables[t]), fd) ==>
        var f := old(tables[t])[fd];
        && f >= 0 && f in old(files) && tables == old(tables)[t := old(tables[t])[newfd := f]]
        && files == Bumped(old(files), f)
      ensures newfd != -1 && !InUse(old(tables[t]), fd) ==> exists f: nat ::
        && f !in old(closes) && tables == old(tables)[t := old(tables[t])[newfd := f]]
        && files == old(files)[f := File(1, Plain)]
        && closes == old(closes)[f := 0] && made == old(made) + {f}
    {
      hide MadeOk, Balanced, PipesOk, LogOk, IdsOk;
      var f := Get(t, fd);
      var start := if fd <= 2 then 3 else 0;
      if f == EMPTY {
        if fd < 0 || fd > 2 || !memory {
          return -1;
        }
        newfd := Install(t, start);
        return;
      }
      newfd := LowestFree(t, start);
      if newfd < 0 {
        return -1;
      }
      Share(t, newfd, f);
    }

    /** Makes a descriptor stand for another's file, closing what it held. */
    method Dup2(t: nat, oldfd: int, newfd: int, memory: bool) returns (r: int)
      requires Valid() && t < |tables|
      modifies this`tables, this`flags, this`files, this`pipes, this`nextFile, this`closes, this`frees, this`made
      ensures Valid() && |old(tables[t])| == SLOTS
      ensures r == -1 <==>
        !(0 <= newfd < SLOTS) || !(InUse(old(tables[t]), oldfd) || (0 <= oldfd <= 2 && (memory || oldfd == newfd)))
      ensures r == -1 || oldfd == newfd ==>
        && tables == old(tables) && flags == old(flags) && files == old(files) && pipes == old(pipes)
        && closes == old(closes) && made == old(made)
      ensures r != -1 ==> r == newfd
      ensures r != -1 && oldfd != newfd ==>
        Replaced(old(tables), old(flags), old(files), old(pipes), tables, flags, pipes, t, newfd)
      ensures r != -1 && oldfd != newfd && InUse(old(tables[t]), oldfd) ==>
        var f := old(tables[t])[oldfd];
        && f >= 0 && tables[t][newfd] == f && f in Dropped(old(files), old(tables[t])[newfd])
        && files == Bumped(Dropped(old(files), old(tables[t])[newfd]), f)
        && closes == ClosesDropped(old(files), old(closes), old(tables[t])[newfd]) && made == old(made)
      ensures r != -1 && oldfd != newfd && !InUse(old(tables[t]), oldfd) ==>
        var f := tables[t][newfd];
        && f >= 0 && f !in old(closes) && files == Dropped(old(files), old(tables[t])[newfd])[f := File(1, Plain)]
        && closes == ClosesDropped(old(files), old(closes), old(tables[t])[newfd])[f := 0] && made == old(made) + {f}
    {
      hide MadeOk, Balanced, PipesOk, LogOk, IdsOk;
      var f := Get(t, oldfd);
      if newfd < 0 || newfd >= SLOTS {
        return -1;
      }
      if oldfd == newfd {
        return if f != EMPTY || 0 <= oldfd <= 2 then newfd else -1;
      }
      if f == EMPTY {
        if oldfd < 0 || oldfd > 2 || !memory {
          return -1;
        }
        ConsoleAt(t, newfd);
        return newfd;
      }
      var g := Get(t, newfd);
      if g != EMPTY {
        CloseSlot(t, newfd, {});
        StillThere(tables, files, t, oldfd);
        Refilled(old(tables), old(flags), t, newfd, f);
      }
      Share(t, newfd, f);
      return newfd;
    }

    /** A new console file in a given slot, closing what the slot held. */
    method ConsoleAt(t: nat, fd: nat)
      requires Valid() && t < |tables| && fd < SLOTS
      modifies this`tables, this`flags, this`files, this`pipes, this`nextFile, this`closes, this`frees, this`made
      ensures Valid() && |old(tables[t])| == SLOTS
      ensures Replaced(old(tables), old(flags), old(files), old(pipes), tables, flags, pipes, t, fd)
      ensures var f := tables[t][fd];
        && f >= 0 && f !in old(closes) && files == Dropped(old(files), old(tables[t])[fd])[f := File(1, Plain)]
        && closes == ClosesDropped(old(files), old(closes), old(tables[t])[fd])[f := 0] && made == old(made) + {f}
    {
      hide MadeOk, Balanced, PipesOk, LogOk, IdsOk, Dropped, PipesDropped, ClosesDropped;
      var g := Get(t, fd);
      DroppedNone(files, pipes, closes);
      var f := Create({});
      assert {} + {f} == {f} && {f} - {f} == {};
      if g != EMPTY {
        CloseSlot(t, fd, {f});
        DroppedNew(old(files), old(pipes), old(closes), g, f);
        Refilled(old(tables), old(flags), t, fd, f);
      }
      InstallKeeps(tables, files, {f}, f, t, fd);
      tables := tables[t := tables[t][fd := f]];
      flags := flags[t := flags[t][fd := 0]];
      MadeMore(made, closes, f, 0);
      made := made + {f};
    }

    /** A child's table: a copy of its parent's, with every file in it retained. */
    method Fork(parent: nat) returns (child: nat)
      requires Valid() && parent < |tables|
      modifies this`tables, this`flags, this`files
      ensures Valid() && child == old(|tables|) && tables == old(tables) + [old(tables[parent])]
      ensures flags == old(flags) + [old(flags[parent])]
      ensures files.Keys == old(files.Keys) && forall f :: f in files ==>
        files[f] == old(files)[f].(refs := old(files)[f].refs + CountIn(old(tables[parent]), f))
    {
      hide MadeOk, Balanced, PipesOk, LogOk, IdsOk, Retaining;
      TableFacts(tables, files, parent);
      ghost var tabs, files0 := tables, files;
      child := |tables|;
      var tab := tables[parent];
      tables := tables + [tab];
      flags := flags + [flags[parent]];
      NoneRetained(tabs, files, tab);
      for i := 0 to SLOTS
        invariant files.Keys == files0.Keys && Retaining(tabs, files, tab, i)
        invariant forall f :: f in files ==> files[f].kind == files0[f].kind
        invariant PipesOk(files, pipes, ends) && LogOk(files, pipes, ends, closes, frees)
        invariant tables == tabs + [tab] && flags == old(flags) + [old(flags[parent])]
      {
        RetainOne(tabs, files, tab, i);
        if tab[i] != EMPTY {
          var f: nat := tab[i];
          RefsKeepPipes(files, pipes, ends, f, files[f].refs + 1);
          RefsKeepLog(files, pipes, ends, closes, frees, f, files[f].refs + 1);
          files := files[f := files[f].(refs := files[f].refs + 1)];
        }
      }
      AllRetained(tabs, files0, files, tab);
      ForkRefs(tabs, files0, files, tab);
    }

    /** Closes every descriptor of a task that ends. */
    method CloseAll(t: nat)
      requires Valid() && t < |tables|
      modifies this`tables, this`flags, this`files, this`pipes, this`closes, this`frees
      ensures Valid() && tables == old(tables)[t := EmptyTable()] && flags == old(flags)[t := NoFlags()]
      ensures closes.Keys == old(closes).Keys && frees.Keys == old(frees).Keys
    {
      hide Held, Dropped, PipesDropped, ClosesDropped;
      TableIs(t);
      for i := 0 to SLOTS
        invariant Valid() && |tables| == old(|tables|) == |flags| && |flags[t]| == SLOTS && |tables[t]| == SLOTS
        invariant tables == old(tables)[t := tables[t]] && flags == old(flags)[t := flags[t]]
        invariant closes.Keys == old(closes).Keys && frees.Keys == old(frees).Keys
        invariant forall k :: 0 <= k < i ==> tables[t][k] == EMPTY && flags[t][k] == 0
      {
        TableIs(t);
        var f := Get(t, i);
        if f == EMPTY {
          ClearFlag(t, i);
        } else {
          CloseSlot(t, i, {});
        }
      }
      assert tables[t] == EmptyTable() && flags[t] == NoFlags();
    }

    /** Sets a used descriptor's flags. */
    method SetFlags(t: nat, fd: int, value: nat) returns (r: int)
      requires Valid() && t < |tables|
      modifies this`flags
      ensures Valid() && (r == -1 <==> !(0 <= fd < SLOTS && |tables[t]| == SLOTS && tables[t][fd] != EMPTY))
      ensures r == -1 ==> flags == old(flags)
      ensures
        r != -1 ==> r == 0 && |old(flags[t])| == SLOTS && flags == old(flags)[t := WithFlag(old(flags[t]), fd, value)]
    {
      hide MadeOk, Balanced, PipesOk, LogOk, IdsOk;
      var f := Get(t, fd);
      if f == EMPTY {
        return -1;
      }
      flags := flags[t := WithFlag(flags[t], fd, value)];
      return 0;
    }

    /** Closes the descriptors marked close-on-exec, and no others. */
    method CloseOnExec(t: nat)
      requires Valid() && t < |tables|
      modifies this`tables, this`flags, this`files, this`pipes, this`closes, this`frees
      ensures Valid() && |tables| == old(|tables|) && |tables[t]| == SLOTS && |old(tables[t])| == SLOTS
      ensures tables == old(tables)[t := tables[t]] && flags == old(flags)[t := flags[t]]
      ensures closes.Keys == old(closes).Keys && frees.Keys == old(frees).Keys
      ensures
        forall k :: 0 <= k < SLOTS ==> tables[t][k] == if old(flags[t])[k] % 2 == 1 then EMPTY else old(tables[t])[k]
      ensures forall k :: 0 <= k < SLOTS && old(tables[t])[k] != EMPTY ==>
        flags[t][k] == if old(flags[t])[k] % 2 == 1 then 0 else old(flags[t])[k]
    {
      hide Held, Dropped, PipesDropped, ClosesDropped;
      TableIs(t);
      for i := 0 to SLOTS
        invariant Valid() && |tables| == old(|tables|) == |flags| && |flags[t]| == SLOTS && |tables[t]| == SLOTS
        invariant tables == old(tables)[t := tables[t]]
        invariant flags == old(flags)[t := flags[t]]
        invariant closes.Keys == old(closes).Keys && frees.Keys == old(frees).Keys
        invariant
          forall k :: 0 <= k < i ==> tables[t][k] == if old(flags[t])[k] % 2 == 1 then EMPTY else old(tables[t])[k]
        invariant forall k :: 0 <= k < i && old(tables[t])[k] != EMPTY ==>
          flags[t][k] == if old(flags[t])[k] % 2 == 1 then 0 else old(flags[t])[k]
        invariant forall k :: i <= k < SLOTS ==> tables[t][k] == old(tables[t])[k] && flags[t][k] == old(flags[t])[k]
      {
        TableIs(t);
        var f := Get(t, i);
        if f != EMPTY && flags[t][i] % 2 == 1 {
          CloseSlot(t, i, {});
        }
      }
    }

    /** A new pipe and its two end files, both held outside. */
    method CreatePipe() returns (p: nat, rf: nat, wf: nat)
      requires Valid()
      modifies this`files, this`pipes, this`nextFile, this`nextPipe, this`ends, this`closes, this`frees
      ensures rf != wf && rf !in old(closes) && wf !in old(closes) && p !in old(ends) && p !in old(pipes)
      ensures p !in old(frees)
      ensures rf !in old(files) && wf !in old(files) && rf !in made && wf !in made && p !in madePipes
      ensures Held({rf, wf})
      ensures files == old(files)[rf := File(1, ReadEnd(p))][wf := File(1, WriteEnd(p))]
      ensures pipes == old(pipes)[p := Pipe(1, 1)]
      ensures ends == old(ends)[p := Ends(rf, wf)] && closes == old(closes)[rf := 0][wf := 0]
      ensures frees == old(frees)[p := 0]
    {
      hide MadeOk, Balanced, PipesOk, LogOk, IdsOk;
      p, rf, wf := nextPipe, nextFile, nextFile + 1;
      NewIds(files, pipes, ends, closes, frees, nextFile, nextPipe);
      PipeMadeLog(made, madePipes, closes, frees, rf, wf, p);
      PipeMadeFiles(tables, files, rf, wf, p);
      PipeMadeKeeps(files, pipes, ends, p, rf, wf);
      files := files[rf := File(1, ReadEnd(p))][wf := File(1, WriteEnd(p))];
      pipes := pipes[p := Pipe(1, 1)];
      ends := ends[p := Ends(rf, wf)];
      closes := closes[rf := 0][wf := 0];
      frees := frees[p := 0];
      nextFile, nextPipe := nextFile + 2, nextPipe + 1;
    }

    /** Frees a pipe whose ends got no lasting slot; no hook runs. */
    method DiscardPipe(p: nat, rf: nat, wf: nat)
      requires Held({rf, wf}) && rf != wf && p in ends && ends[p] == Ends(rf, wf) && files[rf].refs == 1
      requires files[wf].refs == 1
      requires rf !in made && wf !in made && p !in madePipes
      modifies this`files, this`pipes, this`ends, this`closes, this`frees
      ensures Valid() && files == old(files) - {rf, wf} && pipes == old(pipes) - {p}
      ensures ends == old(ends) - {p} && closes == old(closes) - {rf, wf} && frees == old(frees) - {p}
    {
      hide MadeOk, Balanced, PipesOk, LogOk, IdsOk;
      MadeTwo(made, closes, rf, wf);
      MadeMore(madePipes, frees, p, 0);
      InExtra(tables, files, {rf, wf}, rf);
      InExtra(tables, files, {rf, wf}, wf);
      DiscardKeeps(tables, files, {rf, wf}, rf);
      assert {rf, wf} - {rf} == {wf} && {wf} - {wf} == {} && files - {rf} - {wf} == files - {rf, wf};
      DiscardKeeps(tables, files - {rf}, {wf}, wf);
      PipeGoneKeeps(files, pipes, ends, p);
      PipeGoneLog(files, pipes, ends, closes, frees, nextFile, nextPipe, p, rf, wf);
      files := files - {rf, wf};
      pipes := pipes - {p};
      ends := ends - {p};
      closes := closes - {rf, wf};
      frees := frees - {p};
    }

    /** The two ends of a new pipe take the lowest free slots, or neither takes one. */
    method PlaceEnds(t: nat, rf: nat, wf: nat) returns (ok: bool, rfd: int, wfd: int)
      requires Held({rf, wf}) && rf != wf && t < |tables|
      modifies this`tables, this`flags
      ensures |old(tables[t])| == SLOTS
      ensures !ok ==> Held({rf, wf}) && tables == old(tables) && ClearedAtMost(old(tables), old(flags), flags, t)
      ensures !ok ==> forall i, j :: 0 <= i < j < SLOTS && old(tables[t])[i] == EMPTY ==> old(tables[t])[j] != EMPTY
      ensures ok ==> Valid() && Lowest(old(tables[t]), 0, rfd) && Lowest(old(tables[t]), rfd + 1, wfd)
      ensures ok ==> tables == old(tables)[t := old(tables[t])[rfd := rf][wfd := wf]]
      ensures ok ==> flags == old(flags)[t := old(flags[t])[rfd := 0][wfd := 0]]
    {
      hide MadeOk, Balanced, PipesOk, LogOk, IdsOk;
      assert
        && {rf, wf} - {rf} == {wf} && {rf, wf} - {wf} == {rf} && {wf} - {wf} == {} && {wf} + {rf} == {rf, wf}
        && {rf} + {wf} == {rf, wf};
      rfd := AllocFrom(t, rf, 0, {rf, wf});
      if rfd < 0 {
        wfd := AllocFrom(t, wf, 0, {rf, wf});
        if wfd >= 0 {
          assert false;
        }
        return false, -1, -1;
      }
      ghost var tab, cleared := tables[t], flags;
      wfd := AllocFrom(t, wf, 0, {wf});
      if wfd < 0 {
        Free(t, rfd, {wf});
        assert tab[rfd := EMPTY] == old(tables[t]);
        assert cleared[t][rfd := 0] == cleared[t];
        return false, -1, -1;
      }
      assert forall i :: 0 <= i < SLOTS && i != rfd ==> tab[i] == old(tables[t])[i];
      assert wfd > rfd by { assert forall i :: 0 <= i <= rfd ==> tab[i] != EMPTY; }
      ok := true;
    }

    lemma TableIs(t: nat)
      requires Valid() && t < |tables|
      ensures |tables[t]| == SLOTS && |flags| == |tables| && |flags[t]| == SLOTS
    {
      TableFacts(tables, files, t);
    }

    method ClearFlag(t: nat, fd: nat)
      requires Valid() && t < |tables| && fd < SLOTS && |flags| == |tables| && |flags[t]| == SLOTS
      modifies this`flags
      ensures Valid() && flags == old(flags)[t := old(flags[t])[fd := 0]]
    {
      hide MadeOk, Balanced, PipesOk, LogOk, IdsOk;
      flags := flags[t := flags[t][fd := 0]];
    }

    /** A pipe and its ends that have descriptors go on record. */
    ghost method NotePipe(p: nat, rf: nat, wf: nat)
      requires Valid() && rf in closes && wf in closes && p in frees
      modifies this`made, this`madePipes
      ensures Valid() && made == old(made) + {rf, wf} && madePipes == old(madePipes) + {p}
    {
      hide MadeOk, Balanced, PipesOk, LogOk, IdsOk;
      MadeTwo(made, closes, rf, wf);
      MadeMore(madePipes, frees, p, 0);
      made, madePipes := made + {rf, wf}, madePipes + {p};
    }

    /** Makes a pipe: its read end in the lowest free slot and its write end in the next, or no trace.
        `memory` says whether there is room for all three records. */
    method MakePipe(t: nat, memory: bool) returns (r: int, rfd: int, wfd: int)
      requires Valid() && t < |tables|
      modifies this`tables, this`flags, this`files, this`pipes, this`nextFile, this`nextPipe
      modifies this`ends, this`closes, this`frees, this`made, this`madePipes
      ensures Valid() && |old(tables[t])| == SLOTS
      ensures r == -1 ==> tables == old(tables) && files == old(files) && pipes == old(pipes) && ends == old(ends)
      ensures r == -1 ==> ClearedAtMost(old(tables), old(flags), flags, t)
      ensures
        r == -1 ==> closes == old(closes) && frees == old(frees) && made == old(made) && madePipes == old(madePipes)
      ensures r == -1 ==>
        !memory || forall i, j :: 0 <= i < j < SLOTS && old(tables[t])[i] == EMPTY ==> old(tables[t])[j] != EMPTY
      ensures r != -1 ==>
        && r == 0 && memory && Lowest(old(tables[t]), 0, rfd) && Lowest(old(tables[t]), rfd + 1, wfd)
        && flags == old(flags)[t := old(flags[t])[rfd := 0][wfd := 0]]
        && exists p: nat, rf: nat, wf: nat ::
             && p !in old(pipes) && p !in old(frees) && rf !in old(closes) && wf !in old(closes) && rf != wf
             && tables == old(tables)[t := old(tables[t])[rfd := rf][wfd := wf]]
             && pipes == old(pipes)[p := Pipe(1, 1)]
             && files == old(files)[rf := File(1, ReadEnd(p))][wf := File(1, WriteEnd(p))]
             && ends == old(ends)[p := Ends(rf, wf)] && closes == old(closes)[rf := 0][wf := 0]
             && frees == old(frees)[p := 0]
             && made == old(made) + {rf, wf} && madePipes == old(madePipes) + {p}
    {
      hide Held, Lowest;
      TableIs(t);
      if !memory {
        return -1, -1, -1;
      }
      ghost var files0, pipes0, ends0, closes0, frees0 := files, pipes, ends, closes, frees;
      var p, rf, wf := CreatePipe();
      Undone(files0, pipes0, ends0, closes0, frees0, p, rf, wf);
      var ok;
      ok, rfd, wfd := PlaceEnds(t, rf, wf);
      if !ok {
        DiscardPipe(p, rf, wf);
        return -1, -1, -1;
      }
      NotePipe(p, rf, wf);
      r := 0;
    }
  }

  /** The next ids are new, and the books stay in order when a pipe takes them. */
  lemma NewIds(files: map<nat, File>, pipes: map<nat, Pipe>, ends: map<nat, Ends>, closes: map<nat, nat>,
               frees: map<nat, nat>, f: nat, p: nat)
    requires PipesOk(files, pipes, ends) && LogOk(files, pipes, ends, closes, frees) && IdsOk(f, p, ends, closes)
    ensures f !in files && f + 1 !in files && f !in closes && f + 1 !in closes && p !in pipes && p !in ends
    ensures p !in frees
    ensures forall q :: q in ends ==> ends[q].reader !in {f, f + 1} && ends[q].writer !in {f, f + 1}
    ensures LogOk(files[f := File(1, ReadEnd(p))][f + 1 := File(1, WriteEnd(p))], pipes[p := Pipe(1, 1)],
                  ends[p := Ends(f, f + 1)], closes[f := 0][f + 1 := 0], frees[p := 0])
    ensures IdsOk(f + 2, p + 1, ends[p := Ends(f, f + 1)], closes[f := 0][f + 1 := 0])
  {
  }

  lemma InExtra(tabs: seq<seq<int>>, files: map<nat, File>, extra: set<nat>, f: nat)
    requires Balanced(tabs, files, extra) && f in extra
    ensures f in files
  {
  }

  lemma PipeGoneLog(files: map<nat, File>, pipes: map<nat, Pipe>, ends: map<nat, Ends>, closes: map<nat, nat>,
                    frees: map<nat, nat>, nextFile: nat, nextPipe: nat, p: nat, rf: nat, wf: nat)
    requires LogOk(files, pipes, ends, closes, frees) && IdsOk(nextFile, nextPipe, ends, closes)
    ensures LogOk(files - {rf, wf}, pipes - {p}, ends - {p}, closes - {rf, wf}, frees - {p})
    ensures IdsOk(nextFile, nextPipe, ends - {p}, closes - {rf, wf})
  {
  }

  lemma HasSlot(tabs: seq<seq<int>>, files: map<nat, File>, f: nat)
    requires Balanced(tabs, files, {}) && f in files
    ensures CountAll(tabs, f) >= 1
  {
    assert FileOk(tabs, files, {}, f);
  }

  lemma Undone(files: map<nat, File>, pipes: map<nat, Pipe>, ends: map<nat, Ends>, closes: map<nat, nat>,
               frees: map<nat, nat>, p: nat, rf: nat, wf: nat)
    requires rf !in files && wf !in files && rf !in closes && wf !in closes && p !in pipes && p !in ends && p !in frees
    ensures files[rf := File(1, ReadEnd(p))][wf := File(1, WriteEnd(p))] - {rf, wf} == files
    ensures pipes[p := Pipe(1, 1)] - {p} == pipes && ends[p := Ends(rf, wf)] - {p} == ends
    ensures closes[rf := 0][wf := 0] - {rf, wf} == closes && frees[p := 0] - {p} == frees
  {
  }

  lemma PipeMadeLog(made: set<nat>, madePipes: set<nat>, closes: map<nat, nat>, frees: map<nat, nat>, rf: nat, wf: nat,
                    p: nat)
    requires MadeOk(made, closes) && MadeOk(madePipes, frees) && rf !in closes && wf !in closes && p !in frees
    ensures rf !in made && wf !in made && p !in madePipes
    ensures MadeOk(made, closes[rf := 0][wf := 0]) && MadeOk(madePipes, frees[p := 0])
  {
  }

  lemma PipeMadeFiles(tabs: seq<seq<int>>, files: map<nat, File>, rf: nat, wf: nat, p: nat)
    requires Balanced(tabs, files, {}) && rf !in files && wf !in files && rf != wf
    ensures Balanced(tabs, files[rf := File(1, ReadEnd(p))][wf := File(1, WriteEnd(p))], {rf, wf})
  {
    CreateKeeps(tabs, files, {}, rf, ReadEnd(p));
    CreateKeeps(tabs, files[rf := File(1, ReadEnd(p))], {} + {rf}, wf, WriteEnd(p));
    assert {} + {rf} + {wf} == {rf, wf};
  }

  lemma PipeMadeKeeps(files: map<nat, File>, pipes: map<nat, Pipe>, ends: map<nat, Ends>, p: nat, rf: nat, wf: nat)
    requires PipesOk(files, pipes, ends) && p !in ends && rf !in files && wf !in files && rf != wf
    requires forall q :: q in ends ==> ends[q].reader !in {rf, wf} && ends[q].writer !in {rf, wf}
    ensures PipesOk(files[rf := File(1, ReadEnd(p))][wf := File(1, WriteEnd(p))], pipes[p := Pipe(1, 1)],
                    ends[p := Ends(rf, wf)])
  {
    var files' := files[rf := File(1, ReadEnd(p))][wf := File(1, WriteEnd(p))];
    var pipes', ends' := pipes[p := Pipe(1, 1)], ends[p := Ends(rf, wf)];
    forall q | q in ends'
      ensures PipeOk(files', pipes', ends', q)
    {
      if q != p { assert PipeOk(files, pipes, ends, q); }
    }
    forall g | g in files' ensures KindOk(files', ends', g) { if g != rf && g != wf { assert KindOk(files, ends, g); } }
  }

  lemma PipeGoneKeeps(files: map<nat, File>, pipes: map<nat, Pipe>, ends: map<nat, Ends>, p: nat)
    requires PipesOk(files, pipes, ends) && p in ends && ends[p].reader in files && ends[p].writer in files
    ensures PipesOk(files - {ends[p].reader, ends[p].writer}, pipes - {p}, ends - {p})
  {
    var files', pipes', ends' := files - {ends[p].reader, ends[p].writer}, pipes - {p}, ends - {p};
    assert PipeOk(files, pipes, ends, p);
    forall q | q in ends' ensures PipeOk(files', pipes', ends', q) { assert PipeOk(files, pipes, ends, q); }
    forall g | g in files' ensures KindOk(files', ends', g) { assert KindOk(files, ends, g); }
  }

  /** When no slot is used any more, no file and no pipe is left; every file that ever had a descriptor had its hook
      run once, and every pipe was freed once. */
  lemma NothingLeft(k: Kernel)
    requires k.Valid() && forall t :: 0 <= t < |k.tables| ==> k.tables[t] == EmptyTable()
    ensures k.files == map[] && k.pipes == map[]
    ensures forall f :: f in k.made ==> f in k.closes && k.closes[f] == 1
    ensures forall p :: p in k.madePipes ==> p in k.frees && k.frees[p] == 1
  {
    forall f | f in k.files ensures false {
      HasSlot(k.tables, k.files, f);
      CountAllNone(k.tables, f);
    }
    forall p | p in k.pipes ensures false { assert PipeOk(k.files, k.pipes, k.ends, p); }
  }

  // ---- Whole runs ----

  lemma TableFacts(tabs: seq<seq<int>>, files: map<nat, File>, t: nat)
    requires Balanced(tabs, files, {}) && t < |tabs|
    ensures TableOk(tabs[t], files)
  {
  }

  lemma StillThere(tabs: seq<seq<int>>, files: map<nat, File>, t: nat, fd: nat)
    requires Balanced(tabs, files, {}) && t < |tabs| && fd < SLOTS && |tabs[t]| == SLOTS && tabs[t][fd] != EMPTY
    ensures tabs[t][fd] >= 0 && tabs[t][fd] in files
  {
    assert TableOk(tabs[t], files);
  }

  function Bumped(files: map<nat, File>, f: nat): map<nat, File>
    requires f in files
  {
    files[f := files[f].(refs := files[f].refs + 1)]
  }

  /** The first `n` slots of a copied table are counted. */
  ghost predicate Retaining(tabs: seq<seq<int>>, files: map<nat, File>, tab: seq<int>, n: nat)
    requires n <= |tab|
  {
    forall f {:trigger files[f]} ::
      f in files ==> files[f].refs == CountAll(tabs, f) + CountIn(tab[..n], f) && files[f].refs >= 1
  }

  lemma NoneRetained(tabs: seq<seq<int>>, files: map<nat, File>, tab: seq<int>)
    requires Balanced(tabs, files, {})
    ensures Retaining(tabs, files, tab, 0)
  {
    forall f | f in files ensures files[f].refs == CountAll(tabs, f) + CountIn(tab[..0], f) && files[f].refs >= 1 {
      assert FileOk(tabs, files, {}, f);
    }
  }

  lemma RetainOne(tabs: seq<seq<int>>, files: map<nat, File>, tab: seq<int>, i: nat)
    requires i < |tab| && Retaining(tabs, files, tab, i) && (tab[i] == EMPTY || (tab[i] >= 0 && tab[i] in files))
    ensures tab[i] == EMPTY ==> Retaining(tabs, files, tab, i + 1)
    ensures tab[i] != EMPTY ==> Retaining(tabs, Bumped(files, tab[i]), tab, i + 1)
  {
    assert tab[..i + 1][..i] == tab[..i];
  }

  lemma ForkRefs(tabs: seq<seq<int>>, files0: map<nat, File>, files: map<nat, File>, tab: seq<int>)
    requires Balanced(tabs, files0, {}) && files.Keys == files0.Keys && Retaining(tabs, files, tab, |tab|)
    requires forall f :: f in files ==> files[f].kind == files0[f].kind
    ensures forall f :: f in files ==> files[f] == files0[f].(refs := files0[f].refs + CountIn(tab, f))
  {
    assert tab[..|tab|] == tab;
    forall f | f in files ensures files[f] == files0[f].(refs := files0[f].refs + CountIn(tab, f)) {
      assert FileOk(tabs, files0, {}, f);
    }
  }

  lemma AllRetained(tabs: seq<seq<int>>, files0: map<nat, File>, files: map<nat, File>, tab: seq<int>)
    requires Balanced(tabs, files0, {}) && files.Keys == files0.Keys && TableOk(tab, files0)
    requires Retaining(tabs, files, tab, |tab|)
    ensures Balanced(tabs + [tab], files, {})
  {
    assert tab[..|tab|] == tab;
    forall g | g in files ensures FileOk(tabs + [tab], files, {}, g) { CountAllMore(tabs, tab, g); }
    forall t | 0 <= t < |tabs + [tab]|
      ensures TableOk((tabs + [tab])[t], files)
    {
      if t < |tabs| { assert TableOk(tabs[t], files0); }
    }
  }

  function EmptyTable(): seq<int> { seq(SLOTS, _ => EMPTY) }

  function WithFlag(flags: seq<nat>, fd: nat, value: nat): (r: seq<nat>)
    requires fd < |flags|
    ensures |r| == |flags| && forall i :: 0 <= i < |r| ==> r[i] == if i == fd then value else flags[i]
  {
    flags[fd := value]
  }

  function NoFlags(): seq<nat> { seq(SLOTS, _ => 0) }

  lemma EmptyTableKeeps(tabs: seq<seq<int>>, files: map<nat, File>)
    requires Balanced(tabs, files, {})
    ensures Balanced(tabs + [EmptyTable()], files, {})
  {
    var tabs' := tabs + [EmptyTable()];
    forall g | g in files ensures FileOk(tabs', files, {}, g) {
      assert FileOk(tabs, files, {}, g);
      CountInNone(EmptyTable(), g);
      CountAllMore(tabs, EmptyTable(), g);
    }
    forall t | 0 <= t < |tabs'| ensures TableOk(tabs'[t], files) { if t < |tabs| { assert TableOk(tabs[t], files); } }
  }

  /** The times each pipe was freed, after a file of this kind is gone. */
  ghost function FreesAfter(pipes: map<nat, Pipe>, frees: map<nat, nat>, kind: Kind): map<nat, nat> {
    if kind.Plain? || kind.pipe !in frees || kind.pipe !in pipes || kind.pipe in PipesAfter(pipes, kind) then frees
    else frees[kind.pipe := frees[kind.pipe] + 1]
  }

  lemma MadeFrees(made: set<nat>, pipes: map<nat, Pipe>, frees: map<nat, nat>, kind: Kind)
    requires MadeOk(made, frees)
    ensures MadeOk(made, FreesAfter(pipes, frees, kind)) && FreesAfter(pipes, frees, kind).Keys == frees.Keys
  {
  }

  lemma RefsKeepLog(files: map<nat, File>, pipes: map<nat, Pipe>, ends: map<nat, Ends>, closes: map<nat, nat>,
                    frees: map<nat, nat>, f: nat, refs: nat)
    requires LogOk(files, pipes, ends, closes, frees) && f in files
    ensures LogOk(files[f := files[f].(refs := refs)], pipes, ends, closes, frees)
  {
  }

  lemma GoneKeepsLog(files: map<nat, File>, pipes: map<nat, Pipe>, ends: map<nat, Ends>, closes: map<nat, nat>,
                     frees: map<nat, nat>, f: nat)
    requires PipesOk(files, pipes, ends) && LogOk(files, pipes, ends, closes, frees) && f in files
    ensures f in closes && closes[f] == 0
    ensures LogOk(files - {f}, PipesAfter(pipes, files[f].kind), ends, closes[f := closes[f] + 1],
                  FreesAfter(pipes, frees, files[f].kind))
  {
    assert KindOk(files, ends, f);
  }
}
