/** What the processor makes of the flags on the way to a page (src/mem/vmm.c; Intel SDM volume 3A, section 4.6): a
    user access needs the USER bit, and a write the WRITE bit, in all four entries. */
module PageRights {
  import opened CowMemory
  import opened PageTables
  import B = Bits

  /** VMM_FLAG_USER is bit 2 of an entry. */
  predicate UserMode(e: Pte) { e.rest / 4 % 2 == 1 }

  /** The low twelve bits keep it. */
  lemma LowFlags(e: Pte)
    ensures UserMode(e.(rest := e.rest % 4096)) <==> UserMode(e)
  {
    var q, m := e.rest / 4096, e.rest % 4096;
    var h := m / 4;
    B.DivIs(e.rest, 4, 1024 * q + h, m % 4);
    B.DivIs(1024 * q + h, 2, 512 * q + h / 2, h % 2);
  }

  /** The entry of the level-`level` table on the way to a page. */
  ghost function WayEntry(T: Tables, sh: Shape, k: Key, level: nat): Entry
    requires 1 <= level <= 4
  {
    var p := PathPos(k, level);
    if p in sh.at && sh.at[p] in T && |T[sh.at[p]]| == ENTRIES then T[sh.at[p]][Index(k.vpn, level)] else None
  }

  // ---- what mapping a page does to the way

  /** Entries on the way stay as they were; new ones are writable, and open to user mode exactly if asked for. */
  ghost predicate WayMade(T: Tables, sh: Shape, T': Tables, sh': Shape, k: Key, user: bool) {
    forall level {:trigger WayEntry(T, sh, k, level)} {:trigger WayEntry(T', sh', k, level)} :: 2 <= level <= 4 ==>
      var e, e' := WayEntry(T, sh, k, level), WayEntry(T', sh', k, level);
      if e.Some? then e' == e else e'.Some? ==> e'.value.write && (UserMode(e'.value) <==> user)
  }

  lemma WaySame(T: Tables, sh: Shape, k: Key, user: bool)
    ensures WayMade(T, sh, T, sh, k, user)
  {
  }

  lemma WayMore(T: Tables, sh: Shape, T1: Tables, sh1: Shape, T2: Tables, sh2: Shape, k: Key, user: bool)
    requires WayMade(T, sh, T1, sh1, k, user) && WayMade(T1, sh1, T2, sh2, k, user)
    ensures WayMade(T, sh, T2, sh2, k, user)
  {
    forall level | 2 <= level <= 4
      ensures var e, e' := WayEntry(T, sh, k, level), WayEntry(T2, sh2, k, level);
              if e.Some? then e' == e else e'.Some? ==> e'.value.write && (UserMode(e'.value) <==> user)
    {
      var e1 := WayEntry(T1, sh1, k, level);
    }
  }

  /** A table hung into the slot on the way is the only change to the way. */
  lemma WayLinked(T: Tables, sh: Shape, spaces: set<nat>, k: Key, level: nat, e: Pte, user: bool)
    requires TablesOk(T, sh, spaces) && 2 <= level <= 4 && PathPos(k, level) in sh.at && k.vpn < USER_PAGES
    requires e.frame !in T && e.write && (UserMode(e) <==> user)
    requires var p := PathPos(k, level);
      p in sh.at && sh.at[p] in T && Index(k.vpn, level) < |T[sh.at[p]]| && T[sh.at[p]][Index(k.vpn, level)].None?
    ensures var p, i := PathPos(k, level), Index(k.vpn, level);
            WayMade(T, sh, LinkTables(T, sh.at[p], i, e), LinkShape(sh, p, i, e.frame), k, user)
  {
    var p, i := PathPos(k, level), Index(k.vpn, level);
    var U, sg := LinkTables(T, sh.at[p], i, e), LinkShape(sh, p, i, e.frame);
    At(T, sh, spaces, p);
    UserIndex(k.vpn, level);
    PathChild(k, level);
    assert LinkOk(T, sh, p, i);
    hide Span;
    forall l {:trigger WayEntry(T, sh, k, l)} {:trigger WayEntry(U, sg, k, l)} | 1 <= l <= 4 && l != level
      ensures WayEntry(U, sg, k, l) == WayEntry(T, sh, k, l)
    {
      if PathPos(k, l) in sh.at { At(T, sh, spaces, PathPos(k, l)); }
    }
  }

  /** Writing a page-table entry leaves the way to it. */
  lemma WayKept(T: Tables, sh: Shape, spaces: set<nat>, k: Key, e: Entry, user: bool)
    requires TablesOk(T, sh, spaces) && PathPos(k, 1) in sh.at && PosOk(T, sh, spaces, PathPos(k, 1))
    ensures WayMade(T, sh, SetEntry(T, sh.at[PathPos(k, 1)], k.vpn % 512, e), sh, k, user)
  {
    var U := SetEntry(T, sh.at[PathPos(k, 1)], k.vpn % 512, e);
    forall l {:trigger WayEntry(T, sh, k, l)} {:trigger WayEntry(U, sh, k, l)} | 2 <= l <= 4
      ensures WayEntry(U, sh, k, l) == WayEntry(T, sh, k, l)
    {
      if PathPos(k, l) in sh.at { At(T, sh, spaces, PathPos(k, l)); }
    }
  }

  // ---- all ways of all spaces

  ghost predicate SlotOpen(T: Tables, sh: Shape, p: Pos, i: nat, user: bool) {
    p in sh.at && sh.at[p] in T && i < |T[sh.at[p]]| && T[sh.at[p]][i].Some? ==>
      var e := T[sh.at[p]][i].value;
      (p.level >= 2 ==> e.write) && (user ==> UserMode(e))
  }

  /** Entries that point to tables are writable and, with `user`, all entries are open to user mode. */
  ghost predicate Ways(T: Tables, sh: Shape, user: bool) {
    forall p, i {:trigger SlotOpen(T, sh, p, i, user)} :: p in sh.at && 0 <= i < Fanout(p.level) ==>
      SlotOpen(T, sh, p, i, user)
  }

  lemma WaysLinked(T: Tables, sh: Shape, spaces: set<nat>, p: Pos, i: nat, e: Pte, user: bool)
    requires TablesOk(T, sh, spaces) && Ways(T, sh, user) && p in sh.at && p.level >= 2
    requires sh.at[p] in T && i < |T[sh.at[p]]| && e.frame !in T && e.write && (user ==> UserMode(e))
    ensures Ways(LinkTables(T, sh.at[p], i, e), LinkShape(sh, p, i, e.frame), user)
  {
    var U, sg := LinkTables(T, sh.at[p], i, e), LinkShape(sh, p, i, e.frame);
    At(T, sh, spaces, p);
    forall q, j {:trigger SlotOpen(U, sg, q, j, user)} | q in sg.at && 0 <= j < Fanout(q.level)
      ensures SlotOpen(U, sg, q, j, user)
    {
      if q != Child(p, i) {
        At(T, sh, spaces, q);
        assert SlotOpen(T, sh, q, j, user);
      }
    }
  }

  lemma WaysSet(T: Tables, sh: Shape, spaces: set<nat>, k: Key, e: Entry, user: bool)
    requires TablesOk(T, sh, spaces) && Ways(T, sh, user) && PathPos(k, 1) in sh.at
    requires PosOk(T, sh, spaces, PathPos(k, 1)) && (user && e.Some? ==> UserMode(e.value))
    ensures Ways(SetEntry(T, sh.at[PathPos(k, 1)], k.vpn % 512, e), sh, user)
  {
    var U := SetEntry(T, sh.at[PathPos(k, 1)], k.vpn % 512, e);
    forall q, j {:trigger SlotOpen(U, sh, q, j, user)} | q in sh.at && 0 <= j < Fanout(q.level)
      ensures SlotOpen(U, sh, q, j, user)
    {
      At(T, sh, spaces, q);
      assert SlotOpen(T, sh, q, j, user);
    }
  }

  lemma WaysRoot(T: Tables, sh: Shape, spaces: set<nat>, r: nat, root: Table, user: bool)
    requires TablesOk(T, sh, spaces) && Ways(T, sh, user) && r !in T
    requires |root| == ENTRIES && forall i :: 0 <= i < 256 ==> root[i].None?
    ensures Ways(T[r := root], AddRoot(sh, r), user)
  {
    var U, sg := T[r := root], AddRoot(sh, r);
    forall q, j {:trigger SlotOpen(U, sg, q, j, user)} | q in sg.at && 0 <= j < Fanout(q.level)
      ensures SlotOpen(U, sg, q, j, user)
    {
      if q != Pos(r, 4, 0) {
        At(T, sh, spaces, q);
        assert SlotOpen(T, sh, q, j, user);
      }
    }
  }

  /** Fewer tables, and fewer places, have no entries that were not there. */
  lemma WaysFewer(T: Tables, sh: Shape, U: Tables, sg: Shape, user: bool)
    requires Ways(T, sh, user) && (forall t :: t in U ==> t in T && U[t] == T[t])
    requires forall p :: p in sg.at ==> p in sh.at && sg.at[p] == sh.at[p]
    ensures Ways(U, sg, user)
  {
    forall q, j {:trigger SlotOpen(U, sg, q, j, user)} | q in sg.at && 0 <= j < Fanout(q.level)
      ensures SlotOpen(U, sg, q, j, user)
    {
      assert SlotOpen(T, sh, q, j, user);
    }
  }

  // ---- accesses

  ghost predicate Lets(e: Entry, write: bool) { e.Some? && UserMode(e.value) && (write ==> e.value.write) }

  /** The entries on the way to a page, from the given level down, all let the access through. */
  ghost predicate Open(T: Tables, sh: Shape, k: Key, level: nat, write: bool)
    requires level <= 4
  {
    forall l {:trigger WayEntry(T, sh, k, l)} :: 1 <= l <= level ==> Lets(WayEntry(T, sh, k, l), write)
  }

  /** A user access, as the processor walks the tables: the entry of the page, or a fault. */
  function Access(T: Tables, ghost sh: Shape, ghost spaces: set<nat>, ghost space: nat, t: nat, level: nat, vpn: nat,
                  write: bool): (r: Entry)
    requires TablesOk(T, sh, spaces) && vpn < USER_PAGES && 1 <= level <= 4
    requires PathPos(Key(space, vpn), level) in sh.at && t == sh.at[PathPos(Key(space, vpn), level)]
    ensures r == if Open(T, sh, Key(space, vpn), level, write) then Lookup(T, sh, Key(space, vpn)) else None
    decreases level
  {
    ghost var k := Key(space, vpn);
    assert PosOk(T, sh, spaces, PathPos(k, level));
    assert WayEntry(T, sh, k, level) == T[t][Index(vpn, level)];
    match T[t][Index(vpn, level)]
    case None => None
    case Some(e) =>
      if !UserMode(e) || (write && !e.write) then None
      else if level == 1 then
        assert Open(T, sh, k, 1, write) && Index(vpn, 1) == vpn % 512;
        Some(e)
      else
        assert LinkOk(T, sh, PathPos(k, level), Index(vpn, level)) by { UserIndex(vpn, level); }
        PathChild(k, level);
        OpenStep(T, sh, k, level, write);
        Access(T, sh, spaces, space, e.frame, level - 1, vpn, write)
  }

  lemma OpenEnds(T: Tables, sh: Shape, k: Key, write: bool)
    ensures Open(T, sh, k, 4, write) ==> Lookup(T, sh, k).Some? && (write ==> Lookup(T, sh, k).value.write)
  {
    assert WayEntry(T, sh, k, 1) == Lookup(T, sh, k) by { SpanZero(); }
  }

  lemma OpenStep(T: Tables, sh: Shape, k: Key, level: nat, write: bool)
    requires 2 <= level <= 4 && Lets(WayEntry(T, sh, k, level), write)
    ensures Open(T, sh, k, level, write) <==> Open(T, sh, k, level - 1, write)
  {
  }

  /** Where every entry is open to user mode, a page that is mapped can be read, and written if its own entry says
      so. */
  lemma OpenMeans(T: Tables, sh: Shape, spaces: set<nat>, k: Key, write: bool)
    requires TablesOk(T, sh, spaces) && Ways(T, sh, true) && k.vpn < USER_PAGES
    ensures Open(T, sh, k, 4, write) <==> Lookup(T, sh, k).Some? && (write ==> Lookup(T, sh, k).value.write)
  {
    assert WayEntry(T, sh, k, 1) == Lookup(T, sh, k) by { SpanZero(); }
    if Lookup(T, sh, k).Some? {
      forall l {:trigger WayEntry(T, sh, k, l)} | 1 <= l <= 4
        ensures WayEntry(T, sh, k, l).Some? && UserMode(WayEntry(T, sh, k, l).value)
        ensures l >= 2 ==> WayEntry(T, sh, k, l).value.write
      {
        OnTheWay(T, sh, spaces, k, l);
      }
    }
  }

  /** After a page is mapped, user accesses get through exactly if its entry is open to user mode and every entry on the
      way that was there before is. */
  lemma MappedOpen(T: Tables, sh: Shape, T': Tables, sh': Shape, spaces: set<nat>, k: Key, pte: Pte, write: bool)
    requires WayMade(T, sh, T', sh', k, UserMode(pte)) && TablesOk(T', sh', spaces) && Ways(T', sh', false)
    requires k.vpn < USER_PAGES && Lookup(T', sh', k) == Some(pte)
    ensures Open(T', sh', k, 4, write) <==>
      && UserMode(pte) && (write ==> pte.write)
      && forall l {:trigger WayEntry(T, sh, k, l)} :: 2 <= l <= 4 && WayEntry(T, sh, k, l).Some? ==>
           UserMode(WayEntry(T, sh, k, l).value)
  {
    assert WayEntry(T', sh', k, 1) == Some(pte) by { SpanZero(); }
    forall l {:trigger WayEntry(T', sh', k, l)} | 2 <= l <= 4
      ensures WayEntry(T', sh', k, l).Some? && WayEntry(T', sh', k, l).value.write
    {
      OnTheWay(T', sh', spaces, k, l);
    }
    hide TablesOk, Ways;
    if Open(T', sh', k, 4, write) {
      forall l {:trigger WayEntry(T, sh, k, l)} | 2 <= l <= 4 && WayEntry(T, sh, k, l).Some?
        ensures UserMode(WayEntry(T, sh, k, l).value)
      {
        assert Lets(WayEntry(T', sh', k, l), write);
      }
    }
  }

  /** All entries on the way to a mapped page are there. */
  lemma OnTheWay(T: Tables, sh: Shape, spaces: set<nat>, k: Key, l: nat)
    requires TablesOk(T, sh, spaces) && k.vpn < USER_PAGES && 1 <= l <= 4 && Lookup(T, sh, k).Some?
    ensures WayEntry(T, sh, k, l).Some? && PathPos(k, l) in sh.at
    ensures forall user :: Ways(T, sh, user) ==> SlotOpen(T, sh, PathPos(k, l), Index(k.vpn, l), user)
    ensures sh.at[PathPos(k, l)] in T && |T[sh.at[PathPos(k, l)]]| == ENTRIES
  {
    UserIndex(k.vpn, l);
    if l == 1 {
      At(T, sh, spaces, PathPos(k, 1));
      SpanZero();
    } else {
      PathUp(T, sh, spaces, k, 1, l);
      PathUp(T, sh, spaces, k, 1, l - 1);
      At(T, sh, spaces, PathPos(k, l));
      PathChild(k, l);
      assert LinkOk(T, sh, PathPos(k, l), Index(k.vpn, l));
    }
  }
}
