/** The physical memory manager (src/mem/pmm.c): page allocation out of the cell
    tree, per-page reference counts, and the books (`totalMem`, `freeMem`). */
module PhysicalMemory {
  import Bits
  import opened CellTree
  import opened Stocks

  const MAX_PHYS_PAGES: nat := 1024 * 1024
  const U32: nat := 0x1_0000_0000
  const U64: nat := 0x1_0000_0000_0000_0000

  datatype Zone = Dma | Dma32 | Normal

  function ZoneLimit(z: Zone): nat {
    match z
    case Dma => 0x100_0000
    case Dma32 => 0x1_0000_0000
    case Normal => U64 - 1
  }

  // ---------------------------------------------------------------- search

  predicate Fits(c: Cell, minSize: nat, zone: Zone, strict: bool) {
    c.state == Free && c.size >= minSize && (strict ==> c.base + minSize <= ZoneLimit(zone))
  }

  /** First free live cell below `idx`, in address order, that fits. */
  function FindFree(cs: seq<Cell>, ghost tree: set<nat>, idx: nat, minSize: nat, zone: Zone, strict: bool): (r: nat)
    requires WellFormed(cs, tree) && idx in tree
    ensures r == NONE || (r in tree && Fits(cs[r], minSize, zone, strict))
    decreases |cs| - idx
  {
    assert NodeOk(cs, tree, idx);
    if cs[idx].state == Free then
      if Fits(cs[idx], minSize, zone, strict) then idx else NONE
    else if cs[idx].state == Split then
      var r0 := FindFree(cs, tree, cs[idx].children[0], minSize, zone, strict);
      if r0 != NONE then r0 else
        var r1 := FindFree(cs, tree, cs[idx].children[1], minSize, zone, strict);
        if r1 != NONE then r1 else
          var r2 := FindFree(cs, tree, cs[idx].children[2], minSize, zone, strict);
          if r2 != NONE then r2 else FindFree(cs, tree, cs[idx].children[3], minSize, zone, strict)
    else NONE
  }

  ghost predicate Below(cs: seq<Cell>, tree: set<nat>, i: nat, l: nat)
    requires WellFormed(cs, tree) && l in tree
    decreases l
  {
    assert NodeOk(cs, tree, l);
    l == i || (!cs[l].IsRoot() && Below(cs, tree, i, cs[l].parent))
  }

  lemma {:induction false} BelowRoot(cs: seq<Cell>, tree: set<nat>, l: nat)
    requires WellFormed(cs, tree) && l in tree
    ensures Below(cs, tree, RootOf(cs, tree, l), l)
  {
    assert NodeOk(cs, tree, l);
    if !cs[l].IsRoot() { BelowRoot(cs, tree, cs[l].parent); }
  }

  lemma {:induction false} BelowQuarter(cs: seq<Cell>, tree: set<nat>, i: nat, l: nat) returns (k: nat)
    requires WellFormed(cs, tree) && i in tree && l in tree && l != i && Below(cs, tree, i, l)
    ensures cs[i].state == Split && k < 4 && Below(cs, tree, cs[i].children[k], l)
    decreases l
  {
    assert NodeOk(cs, tree, l);
    if cs[l].parent == i {
      k :| 0 <= k < 4 && cs[i].children[k] == l;
    } else {
      k := BelowQuarter(cs, tree, i, cs[l].parent);
    }
  }

  /** The search misses nothing: when it comes back empty, no cell below `idx` fits. */
  lemma {:induction false} FindFreeComplete(cs: seq<Cell>, tree: set<nat>, idx: nat, minSize: nat, zone: Zone,
                                            strict: bool, l: nat)
    requires WellFormed(cs, tree) && idx in tree && l in tree && Below(cs, tree, idx, l)
    requires FindFree(cs, tree, idx, minSize, zone, strict) == NONE
    ensures !Fits(cs[l], minSize, zone, strict)
    decreases |cs| - idx
  {
    assert NodeOk(cs, tree, idx);
    if l != idx {
      var k := BelowQuarter(cs, tree, idx, l);
      assert ChildOk(cs, tree, idx, k);
      assert FindFree(cs, tree, cs[idx].children[k], minSize, zone, strict) == NONE;
      FindFreeComplete(cs, tree, cs[idx].children[k], minSize, zone, strict, l);
    }
  }

  /** The lowest fitting cell of a root. */
  lemma FoundFirst(cs: seq<Cell>, tree: set<nat>, root: nat, minSize: nat, zone: Zone, strict: bool)
    requires WellFormed(cs, tree) && root in tree && cs[root].IsRoot()
    requires FindFree(cs, tree, root, minSize, zone, strict) != NONE
    ensures var f := FindFree(cs, tree, root, minSize, zone, strict);
            RootOf(cs, tree, f) == root && cs[root].Contains(cs[f].base) &&
            forall l :: l in tree && RootOf(cs, tree, l) == root && Fits(cs[l], minSize, zone, strict) ==>
              cs[f].base <= cs[l].base
  {
    hide FindFree;
    var f := FindFree(cs, tree, root, minSize, zone, strict);
    FindFreeBelow(cs, tree, root, minSize, zone, strict);
    RootAbove(cs, tree, root, f);
    BelowWithin(cs, tree, root, f);
    assert NodeOk(cs, tree, f);
    CellSizeIsPages(cs[f].size);
    forall l | l in tree && RootOf(cs, tree, l) == root && Fits(cs[l], minSize, zone, strict)
      ensures cs[f].base <= cs[l].base
    {
      BelowRoot(cs, tree, l);
      FindFreeFirst(cs, tree, root, minSize, zone, strict, l);
    }
  }

  lemma {:induction false} RootAbove(cs: seq<Cell>, tree: set<nat>, root: nat, l: nat)
    requires WellFormed(cs, tree) && root in tree && cs[root].IsRoot() && l in tree && Below(cs, tree, root, l)
    ensures RootOf(cs, tree, l) == root
    decreases l
  {
    assert NodeOk(cs, tree, l);
    if l != root { RootAbove(cs, tree, root, cs[l].parent); }
  }

  lemma {:induction false} BelowTrans(cs: seq<Cell>, tree: set<nat>, i: nat, j: nat, l: nat)
    requires WellFormed(cs, tree) && j in tree && l in tree && Below(cs, tree, i, j) && Below(cs, tree, j, l)
    ensures Below(cs, tree, i, l)
    decreases l
  {
    assert NodeOk(cs, tree, l);
    if l != j { BelowTrans(cs, tree, i, j, cs[l].parent); }
  }

  lemma {:induction false} BelowWithin(cs: seq<Cell>, tree: set<nat>, i: nat, l: nat)
    requires WellFormed(cs, tree) && i in tree && l in tree && Below(cs, tree, i, l)
    ensures cs[i].base <= cs[l].base && cs[l].base + cs[l].size <= cs[i].base + cs[i].size
    decreases l
  {
    assert NodeOk(cs, tree, l);
    if l != i {
      var p := cs[l].parent;
      BelowWithin(cs, tree, i, p);
      assert NodeOk(cs, tree, p);
      var k :| 0 <= k < 4 && cs[p].children[k] == l;
      assert ChildOk(cs, tree, p, k);
      QuarterWithin(cs[p].size, k);
    }
  }

  lemma QuarterWithin(size: nat, k: nat)
    requires k < 4
    ensures k * (size / 4) + size / 4 <= size
  {
  }

  lemma {:induction false} FindFreeBelow(cs: seq<Cell>, tree: set<nat>, idx: nat, minSize: nat, zone: Zone,
                                         strict: bool)
    requires WellFormed(cs, tree) && idx in tree && FindFree(cs, tree, idx, minSize, zone, strict) != NONE
    ensures Below(cs, tree, idx, FindFree(cs, tree, idx, minSize, zone, strict))
    decreases |cs| - idx
  {
    assert NodeOk(cs, tree, idx);
    if cs[idx].state == Split {
      var k := Serving(cs, tree, idx, minSize, zone, strict);
      var c := cs[idx].children[k];
      assert NodeOk(cs, tree, c);
      FindFreeBelow(cs, tree, c, minSize, zone, strict);
      assert Below(cs, tree, idx, c);
      BelowTrans(cs, tree, idx, c, FindFree(cs, tree, idx, minSize, zone, strict));
    }
  }

  /** The quarter that the search finds its cell in: the first in which there is one. */
  lemma Serving(cs: seq<Cell>, tree: set<nat>, idx: nat, minSize: nat, zone: Zone, strict: bool) returns (k: nat)
    requires WellFormed(cs, tree) && idx in tree && cs[idx].state == Split
    requires FindFree(cs, tree, idx, minSize, zone, strict) != NONE
    ensures k < 4 && ChildOk(cs, tree, idx, k)
    ensures FindFree(cs, tree, cs[idx].children[k], minSize, zone, strict) ==
      FindFree(cs, tree, idx, minSize, zone, strict)
    ensures forall j :: 0 <= j < k ==>
      ChildOk(cs, tree, idx, j) && FindFree(cs, tree, cs[idx].children[j], minSize, zone, strict) == NONE
  {
    assert NodeOk(cs, tree, idx);
    var kids := cs[idx].children;
    if FindFree(cs, tree, kids[0], minSize, zone, strict) != NONE { return 0; }
    if FindFree(cs, tree, kids[1], minSize, zone, strict) != NONE { return 1; }
    if FindFree(cs, tree, kids[2], minSize, zone, strict) != NONE { return 2; }
    return 3;
  }

  /** The cell found is the lowest below `idx` that fits. */
  lemma {:induction false} FindFreeFirst(cs: seq<Cell>, tree: set<nat>, idx: nat, minSize: nat, zone: Zone,
                                         strict: bool, l: nat)
    requires WellFormed(cs, tree) && idx in tree && l in tree && Below(cs, tree, idx, l)
    requires FindFree(cs, tree, idx, minSize, zone, strict) != NONE && Fits(cs[l], minSize, zone, strict)
    ensures cs[FindFree(cs, tree, idx, minSize, zone, strict)].base <= cs[l].base
    decreases |cs| - idx
  {
    assert NodeOk(cs, tree, idx);
    if l != idx {
      hide FindFree, IsCellSize;
      var j := BelowQuarter(cs, tree, idx, l);
      var k := Serving(cs, tree, idx, minSize, zone, strict);
      var c, d := cs[idx].children[k], cs[idx].children[j];
      assert ChildOk(cs, tree, idx, j);
      if j == k {
        FindFreeFirst(cs, tree, c, minSize, zone, strict, l);
      } else if j < k {
        FindFreeComplete(cs, tree, d, minSize, zone, strict, l);
      } else {
        FindFreeBelow(cs, tree, c, minSize, zone, strict);
        BelowWithin(cs, tree, c, FindFree(cs, tree, c, minSize, zone, strict));
        BelowWithin(cs, tree, d, l);
        Bits.MulLess(k, j, cs[idx].size / 4);
      }
    }
  }

  /** The cell at `base` is the first that fits: none does in the roots visited before its own, and none lower in it. */
  ghost predicate FirstFit(cs: seq<Cell>, tree: set<nat>, start: nat, minSize: nat, zone: Zone, strict: bool,
                           base: nat)
    requires WellFormed(cs, tree)
  {
    exists i: nat, f: nat :: FirstAt(cs, tree, start, minSize, zone, strict, i, f) && cs[f].base == base
  }

  ghost predicate FirstAt(cs: seq<Cell>, tree: set<nat>, start: nat, minSize: nat, zone: Zone, strict: bool, i: nat,
                          f: nat)
    requires WellFormed(cs, tree)
  {
    && i < |cs| && f in tree && Fits(cs[f], minSize, zone, strict) && RootOf(cs, tree, f) == Turn(start, i, |cs|)
    && NoneBefore(cs, tree, start, minSize, zone, strict, i)
    && forall l :: l in tree && RootOf(cs, tree, l) == RootOf(cs, tree, f) && Fits(cs[l], minSize, zone, strict) ==>
         cs[f].base <= cs[l].base
  }

  /** No cell fits of the roots that the scan visits in its first `i` stops. */
  ghost predicate NoneBefore(cs: seq<Cell>, tree: set<nat>, start: nat, minSize: nat, zone: Zone, strict: bool, i: nat)
    requires WellFormed(cs, tree) && i <= |cs|
  {
    forall j, l :: 0 <= j < i && l in tree && RootOf(cs, tree, l) == Turn(start, j, |cs|) ==>
      !Fits(cs[l], minSize, zone, strict)
  }

  lemma NoneHere(cs: seq<Cell>, tree: set<nat>, start: nat, minSize: nat, zone: Zone, strict: bool, i: nat)
    requires WellFormed(cs, tree) && i < |cs| && NoneBefore(cs, tree, start, minSize, zone, strict, i)
    requires var idx := Turn(start, i, |cs|);
      idx in tree && cs[idx].IsRoot() ==> FindFree(cs, tree, idx, minSize, zone, strict) == NONE
    ensures NoneBefore(cs, tree, start, minSize, zone, strict, i + 1)
  {
    var idx := Turn(start, i, |cs|);
    forall l | l in tree && RootOf(cs, tree, l) == idx ensures !Fits(cs[l], minSize, zone, strict) {
      BelowRoot(cs, tree, l);
      FindFreeComplete(cs, tree, idx, minSize, zone, strict, l);
    }
  }

  lemma NoneYet(cs: seq<Cell>, tree: set<nat>, start: nat, minSize: nat, zone: Zone, strict: bool)
    requires WellFormed(cs, tree)
    ensures NoneBefore(cs, tree, start, minSize, zone, strict, 0)
  {
  }

  lemma NoneAnywhere(cs: seq<Cell>, tree: set<nat>, start: nat, minSize: nat, zone: Zone, strict: bool)
    requires WellFormed(cs, tree) && (start < |cs| || start == 0)
    requires NoneBefore(cs, tree, start, minSize, zone, strict, |cs|)
    ensures NoFit(cs, tree, minSize, zone, strict)
  {
    forall l | l in tree ensures !Fits(cs[l], minSize, zone, strict) {
      var j := TurnReaches(start, RootOf(cs, tree, l), |cs|);
    }
  }

  ghost predicate NoFit(cs: seq<Cell>, tree: set<nat>, minSize: nat, zone: Zone, strict: bool) {
    forall l :: l in tree && l < |cs| ==> !Fits(cs[l], minSize, zone, strict)
  }

  /** A strict search for the first two zones keeps the request below 16 MB, or below 4 GB. */
  lemma ZonesMean(cs: seq<Cell>, tree: set<nat>, minSize: nat)
    ensures NoFit(cs, tree, minSize, Dma, true) <==>
      forall i :: i in tree && i < |cs| && cs[i].state == Free && cs[i].size >= minSize ==>
        cs[i].base + minSize > 16 * 1024 * 1024
    ensures NoFit(cs, tree, minSize, Dma32, true) <==>
      forall i :: i in tree && i < |cs| && cs[i].state == Free && cs[i].size >= minSize ==>
        cs[i].base + minSize > 4 * 1024 * 1024 * 1024
  {
  }

  lemma NoFitMeans(cs: seq<Cell>, tree: set<nat>, minSize: nat, zone: Zone)
    ensures NoFit(cs, tree, minSize, zone, false) <==>
      forall i :: i in tree && i < |cs| && cs[i].state == Free ==> cs[i].size < minSize
  {
  }

  // ------------------------------------------------------------ used cells

  /** `used` sends the base of every used cell to its index. */
  ghost predicate UsedIndex(cs: seq<Cell>, used: map<nat, nat>) {
    && (forall b :: b in used ==> used[b] < |cs| && cs[used[b]].state == Used && cs[used[b]].base == b)
    && (forall i :: 0 <= i < |cs| && cs[i].state == Used ==> cs[i].base in used && used[cs[i].base] == i)
  }

  ghost function Sizes(cs: seq<Cell>, used: map<nat, nat>): map<nat, nat>
    requires UsedIndex(cs, used)
  {
    map b | b in used :: cs[used[b]].size
  }

  ghost predicate SameUsed(cs: seq<Cell>, ds: seq<Cell>) {
    && |cs| <= |ds|
    && (forall i :: 0 <= i < |cs| && (cs[i].state == Used || ds[i].state == Used) ==> ds[i] == cs[i])
    && (forall i :: |cs| <= i < |ds| ==> ds[i].state != Used)
  }

  /** Cells keep their place, and no root is added. */
  ghost predicate SameRoots(cs: seq<Cell>, ds: seq<Cell>) {
    && |cs| <= |ds|
    && (forall i ::
          0 <= i < |cs| ==> ds[i].base == cs[i].base && ds[i].size == cs[i].size && ds[i].parent == cs[i].parent)
    && (forall i :: |cs| <= i < |ds| ==> !ds[i].IsRoot())
  }

  lemma SameRootsTrans(cs: seq<Cell>, ds: seq<Cell>, es: seq<Cell>)
    requires SameRoots(cs, ds) && SameRoots(ds, es)
    ensures SameRoots(cs, es)
  {
  }

  /** All memory handed to the allocator lies below `limit`. */
  ghost predicate RootsWithin(cs: seq<Cell>, limit: nat) {
    forall i :: 0 <= i < |cs| && cs[i].IsRoot() ==> cs[i].base + cs[i].size <= limit
  }

  lemma LeafWithin(cs: seq<Cell>, tree: set<nat>, i: nat, limit: nat)
    requires WellFormed(cs, tree) && RootsWithin(cs, limit) && IsLeaf(cs, tree, i)
    ensures cs[i].base + cs[i].size <= limit
  {
    assert NodeOk(cs, tree, i);
    CellSizeIsPages(cs[i].size);
    DescentMeets(cs, tree, i, cs[i].base + cs[i].size - 1);
  }

  /** A described cell can be quartered ten times at most. */
  lemma LeafDepth(cs: seq<Cell>, tree: set<nat>, i: nat)
    requires WellFormed(cs, tree) && RootsWithin(cs, MAX_PHYS_PAGES * PAGE_SIZE) && IsLeaf(cs, tree, i)
    ensures Depth(cs[i].size) <= 10
  {
    LeafWithin(cs, tree, i, MAX_PHYS_PAGES * PAGE_SIZE);
    DepthMono(cs[i].size, MAX_PHYS_PAGES * PAGE_SIZE);
    assert Depth(0x1_0000_0000) == 10 by {
      assert Depth(0x100_0000) == 6 by { assert Depth(0x1_0000) == 2; }
    }
  }

  lemma SameUsedIndex(cs: seq<Cell>, ds: seq<Cell>, used: map<nat, nat>)
    requires UsedIndex(cs, used) && SameUsed(cs, ds)
    ensures UsedIndex(ds, used) && Sizes(ds, used) == Sizes(cs, used)
  {
  }

  lemma FourQuartersSplit(cs: seq<Cell>, idx: nat, kids: seq<nat>, quarters: seq<Cell>)
    requires idx < |cs| <= CELL_POOL_SIZE && cs[idx].state == Free && |kids| == 4 && |quarters| == 4
    requires forall k :: 0 <= k < 4 ==> kids[k] == |cs| + k && quarters[k] == Quarter(cs[idx], idx, k)
    ensures
      OrphanCells(cs, idx, kids, quarters)[idx := cs[idx].(state := Split, children := kids)] == SplitCells(cs, idx)
    ensures SameUsed(cs, SplitCells(cs, idx)) && SameRoots(cs, SplitCells(cs, idx))
  {
    assert kids == [|cs|, |cs| + 1, |cs| + 2, |cs| + 3];
  }

  /** Giving a used cell back takes it off the list, and only it. */
  lemma UnlistUsed(cs: seq<Cell>, used: map<nat, nat>, i: nat)
    requires UsedIndex(cs, used) && i < |cs| && cs[i].state == Used
    ensures var ds, b := cs[i := cs[i].(state := Free)], cs[i].base;
            b in Sizes(cs, used) && Sizes(cs, used)[b] == cs[i].size &&
            UsedIndex(ds, used - {b}) && Sizes(ds, used - {b}) == Sizes(cs, used) - {b} &&
            MapSum(Sizes(ds, used - {b})) + cs[i].size == MapSum(Sizes(cs, used)) && SameRoots(cs, ds)
  {
    var ds, b, m := cs[i := cs[i].(state := Free)], cs[i].base, Sizes(cs, used);
    assert Sizes(ds, used - {b}) == m - {b};
    assert (m - {b})[b := m[b]] == m;
    MapSumAdd(m - {b}, b, m[b]);
  }

  /** Taking a free cell into use puts it on the list, and only it. */
  lemma ListUsed(cs: seq<Cell>, used: map<nat, nat>, i: nat)
    requires UsedIndex(cs, used) && i < |cs| && cs[i].state == Free && cs[i].base !in used
    ensures var ds, b := cs[i := cs[i].(state := Used)], cs[i].base;
            UsedIndex(ds, used[b := i]) && Sizes(ds, used[b := i]) == Sizes(cs, used)[b := cs[i].size] &&
            MapSum(Sizes(ds, used[b := i])) == MapSum(Sizes(cs, used)) + cs[i].size && SameRoots(cs, ds)
  {
    var ds, b := cs[i := cs[i].(state := Used)], cs[i].base;
    assert Sizes(ds, used[b := i]) == Sizes(cs, used)[b := cs[i].size];
    MapSumAdd(Sizes(cs, used), b, cs[i].size);
  }

  /** A used cell is live. */
  lemma UsedIsLeaf(cs: seq<Cell>, tree: set<nat>, i: nat)
    requires WellFormed(cs, tree) && i < |cs| && cs[i].state == Used
    ensures IsLeaf(cs, tree, i)
  {
  }

  /** A free live cell does not start where a used one does. */
  lemma FreshBase(cs: seq<Cell>, tree: set<nat>, used: map<nat, nat>, i: nat)
    requires WellFormed(cs, tree) && UsedIndex(cs, used) && IsLeaf(cs, tree, i) && cs[i].state == Free
    ensures cs[i].base !in used && cs[i].base > 0
  {
    assert NodeOk(cs, tree, i);
    CellSizeIsPages(cs[i].size);
    if cs[i].base in used {
      var j := used[cs[i].base];
      UsedIsLeaf(cs, tree, j);
      assert NodeOk(cs, tree, j);
      CellSizeIsPages(cs[j].size);
      SameLeaf(cs, tree, i, j, cs[i].base);
    }
  }

  ghost function MapSum(m: map<nat, nat>): nat {
    if m == map[] then 0 else
      var b :| b in m;
      m[b] + MapSum(m - {b})
  }

  lemma {:induction false} MapSumAdd(m: map<nat, nat>, b: nat, s: nat)
    requires b !in m
    ensures MapSum(m[b := s]) == MapSum(m) + s
  {
    var m1 := m[b := s];
    var c :| c in m1 && MapSum(m1) == m1[c] + MapSum(m1 - {c});
    if c == b {
      assert m1 - {b} == m;
    } else {
      assert m1 - {c} == (m - {c})[b := s];
      MapSumAdd(m - {c}, b, s);
      assert (m - {c})[c := m[c]] == m;
      MapSumAdd(m - {c}, c, m[c]);
    }
  }

  // ----------------------------------------------------------- the manager

  class Pmm {
    var cells: seq<Cell>
    var totalMem: nat
    var freeMem: nat
    var lastUsed: nat
    /** page_array[pfn].refcount, a 32-bit counter. */
    var refs: seq<nat>
    /** The live cells. */
    ghost var tree: set<nat>
    /** Base of every used cell, with its index. */
    ghost var used: map<nat, nat>

    ghost predicate Valid()
      reads this
    {
      ValidBut(NONE)
    }

    /** Valid, except that cell `p` may have four free quarters left to merge. */
    ghost predicate ValidBut(p: nat)
      reads this
    {
      && WellFormed(cells, tree) && MergedExcept(cells, tree, p) && UsedIndex(cells, used)
      && freeMem == FreeBytes(cells, tree)
      && totalMem == freeMem + MapSum(Sizes(cells, used))
      && (lastUsed < |cells| || lastUsed == 0)
      && |refs| == MAX_PHYS_PAGES && CountsOk(refs)
    }

    /** What the allocator's clients see: the base and size of every allocation. */
    ghost function Live(): map<nat, nat>
      requires Valid()
      reads this
    {
      Sizes(cells, used)
    }

    constructor ()
      ensures Valid() && Live() == map[] && totalMem == 0 && cells == []
    {
      cells, totalMem, freeMem, lastUsed := [], 0, 0, 0;
      refs := seq(MAX_PHYS_PAGES, _ => 0);
      tree, used := {}, map[];
    }

    /** The loop of cell_split: appends the quarters, as far as pool nodes last. */
    method AppendQuarters(idx: nat) returns (ok: bool, ghost quarters: seq<Cell>)
      requires idx < |cells| <= CELL_POOL_SIZE && |cells[idx].children| == 4
      modifies this`cells
      ensures idx < |cells| && |quarters| <= 4 && |cells[idx].children| == 4 && |cells| <= CELL_POOL_SIZE
      ensures forall k :: 0 <= k < |quarters| ==> quarters[k] == Quarter(old(cells)[idx], idx, k)
      ensures cells == OrphanCells(old(cells), idx, cells[idx].children, quarters)
      ensures ok ==> |quarters| == 4 && forall k :: 0 <= k < 4 ==> cells[idx].children[k] == |old(cells)| + k
      ensures !ok ==> |cells| == CELL_POOL_SIZE
    {
      var c := cells[idx];
      var childSize := c.size / 4;
      ghost var cs := cells;
      quarters := [];
      for i := 0 to 4
        invariant |quarters| == i && |cs| + i <= CELL_POOL_SIZE
        invariant |cells| == |cs| + i && |cells[idx].children| == 4
        invariant forall k :: 0 <= k < i ==> cells[idx].children[k] == |cs| + k && quarters[k] == Quarter(c, idx, k)
        invariant cells == OrphanCells(cs, idx, cells[idx].children, quarters)
      {
        if |cells| >= CELL_POOL_SIZE { return false, quarters; }
        var child := |cells|;
        cells := cells + [Cell(c.base + i * childSize, childSize, Free, idx, NO_CHILDREN)];
        cells := cells[idx := cells[idx].(children := cells[idx].children[i := child])];
        quarters := quarters + [Quarter(c, idx, i)];
      }
      return true, quarters;
    }

    /** Quarters a free cell.  When the node pool runs out half-way, the nodes made so far are lost and the cell
        stays whole. */
    method CellSplit(idx: nat) returns (ok: bool)
      requires WellFormed(cells, tree) && idx in tree && MergedExcept(cells, tree, cells[idx].parent)
      modifies this`cells, this`tree
      ensures WellFormed(cells, tree) && FreeBytes(cells, tree) == old(FreeBytes(cells, tree))
      ensures SameUsed(old(cells), cells) && SameRoots(old(cells), cells)
      ensures ok ==>
        && old(cells[idx].state == Free) && cells == SplitCells(old(cells), idx) && MergedExcept(cells, tree, idx)
        && tree == SplitTree(old(cells), old(tree))
      ensures !ok ==> tree == old(tree) && cells[idx] == old(cells[idx]).(children := cells[idx].children) &&
                      MergedExcept(cells, tree, cells[idx].parent)
      ensures !ok && old(cells[idx].state == Free && cells[idx].size >= 4 * PAGE_SIZE) ==> |cells| == CELL_POOL_SIZE
      ensures |old(cells)| <= |cells| <= |old(cells)| + 4
    {
      if cells[idx].state != Free || cells[idx].size < 4 * PAGE_SIZE { return false; }
      hide NodeOk;
      hide MergedExcept;
      hide FreeBytes;
      ghost var cs := cells;
      ghost var quarters;
      ok, quarters := AppendQuarters(idx);
      if !ok {
        OrphanKeepsShape(cs, tree, idx, cells[idx].children, quarters);
        hide WellFormed;
      } else {
        SplitKeepsShape(cs, tree, idx);
        SplitKeepsFreeBytes(cs, tree, idx);
        SplitKeepsMerged(cs, tree, idx);
        hide WellFormed;
        cells := cells[idx := cells[idx].(state := Split)];
        tree := SplitTree(cs, tree);
        FourQuartersSplit(cs, idx, cells[idx].children, quarters);
      }
    }

    /** The rewriting half of cell_try_merge: four free quarters become one free cell. */
    method MergeQuarters(p: nat)
      requires WellFormed(cells, tree) && p in tree && cells[p].state == Split && AllChildrenFree(cells, p)
      modifies this`cells
      ensures cells == MergeCells(old(cells), p)
    {
      hide MergeCells, WellFormed, MergeProgress;
      ghost var cs := cells;
      QuartersDiffer(cs, tree, p);
      MergeCellsAt(cs, tree, p);
      ProgressStart(cs, p);
      for i := 0 to 4
        invariant cells == MergeProgress(cs, p, i)
      {
        ProgressStep(cs, p, i);
        var c := cells[p].children[i];
        cells := cells[c := cells[c].(state := Reserved)];
        cells := cells[p := cells[p].(children := cells[p].children[i := NONE])];
      }
      ProgressDone(cs, p, MergeCells(cs, p));
      cells := cells[p := cells[p].(state := Free)];
    }

    /** Joins four free quarters into their parent, and goes on from there. */
    method CellTryMerge(idx: nat)
      requires WellFormed(cells, tree) && idx in tree && MergedExcept(cells, tree, cells[idx].parent)
      modifies this`cells, this`tree
      ensures WellFormed(cells, tree) && FullyMerged(cells, tree)
      ensures FreeBytes(cells, tree) == old(FreeBytes(cells, tree))
      ensures SameUsed(old(cells), cells) && SameRoots(old(cells), cells) && |cells| == |old(cells)|
      decreases idx
    {
      hide MergeCells;
      hide FreeBytes;
      if cells[idx].parent == NONE { return; }
      assert NodeOk(cells, tree, idx);
      var p := cells[idx].parent;
      assert NodeOk(cells, tree, p);
      for i := 0 to 4
        invariant forall k :: 0 <= k < i ==> cells[cells[p].children[k]].state == Free
      {
        if cells[cells[p].children[i]].state != Free {
          return;
        }
      }
      ghost var cs := cells;
      MergeCellsAt(cs, tree, p);
      MergeKeepsShape(cs, tree, p);
      MergeKeepsFreeBytes(cs, tree, p);
      MergeKeepsMerged(cs, tree, p);
      MergeQuarters(p);
      tree := MergeTree(cs, tree, p);
      assert SameUsed(cs, cells);
      CellTryMerge(p);
    }

    /** Sets the reference count of every page of an allocation. */
    method SetRefs(base: nat, size: nat, v: nat)
      requires |refs| == MAX_PHYS_PAGES && v < U32
      modifies this`refs
      ensures |refs| == MAX_PHYS_PAGES && (old(CountsOk(refs)) ==> CountsOk(refs))
      ensures RefsSet(old(refs), refs, base, size, v)
    {
      var start, pages := base / PAGE_SIZE, size / PAGE_SIZE;
      var p := 0;
      while p < pages && start + p < MAX_PHYS_PAGES
        invariant 0 <= p <= pages && |refs| == MAX_PHYS_PAGES
        invariant forall x :: 0 <= x < |refs| ==> refs[x] == if start <= x < start + p then v else old(refs)[x]
      {
        refs := refs[start + p := v];
        p := p + 1;
      }
    }

    /** Splits a free cell until a quarter of it would be too small, and takes the first quarter. */
    method TakeCell(at: nat, req: nat) returns (found: nat)
      requires WellFormed(cells, tree) && FullyMerged(cells, tree) && UsedIndex(cells, used)
      requires at in tree && cells[at].state == Free && cells[at].size >= req
      modifies this`cells, this`tree, this`used
      ensures WellFormed(cells, tree) && FullyMerged(cells, tree) && UsedIndex(cells, used)
      ensures found < |cells| && cells[found].base == old(cells[at].base)
      ensures cells[found].base > 0 && cells[found].base % PAGE_SIZE == 0
      ensures cells[found].base !in old(Sizes(cells, used)) && used == old(used)[cells[found].base := found]
      ensures Sizes(cells, used) == old(Sizes(cells, used))[cells[found].base := cells[found].size]
      ensures FreeBytes(cells, tree) + cells[found].size == old(FreeBytes(cells, tree))
      ensures MapSum(Sizes(cells, used)) == old(MapSum(Sizes(cells, used))) + cells[found].size
      ensures cells[found].size >= req && IsCellSize(cells[found].size)
      ensures SameRoots(old(cells), cells) && |old(cells)| <= |cells| <= |old(cells)| + 4 * Depth(old(cells[at].size))
      ensures |cells| < CELL_POOL_SIZE ==> cells[found].size == PAGE_SIZE || cells[found].size < 4 * req
    {
      found := at;
      var whole := true;
      assert SameRoots(cells, cells);
      hide SameRoots;
      while whole && cells[found].size / 4 >= req && cells[found].size >= 4 * PAGE_SIZE
        invariant WellFormed(cells, tree) && UsedIndex(cells, used) && used == old(used)
        invariant Sizes(cells, used) == old(Sizes(cells, used))
        invariant FreeBytes(cells, tree) == old(FreeBytes(cells, tree))
        invariant found in tree && cells[found].state == Free && MergedExcept(cells, tree, cells[found].parent)
        invariant cells[found].base == old(cells[at].base) && cells[found].size >= req
        invariant SameRoots(old(cells), cells) && |cells| >= |old(cells)| && (!whole ==> |cells| == CELL_POOL_SIZE)
        invariant
          |cells| + (if whole then 4 * Depth(cells[found].size) else 0) <= |old(cells)| + 4 * Depth(old(cells[at].size))
        decreases whole, cells[found].size
      {
        assert NodeOk(cells, tree, found);
        label split:
        whole := CellSplit(found);
        SameUsedIndex(old@split(cells), cells, used);
        SameRootsTrans(old(cells), old@split(cells), cells);
        if whole {
          SplitCellsAt(old@split(cells), found);
          found := cells[found].children[0];
        }
      }
      assert NodeOk(cells, tree, found);
      CellSizeIsPages(cells[found].size);
      FreshBase(cells, tree, used, found);
      assert |cells| >= |old(cells)|;
      label mark:
      MarkUsed(found);
      SameRootsTrans(old(cells), old@mark(cells), cells);
    }

    /** Takes a free leaf. */
    method MarkUsed(found: nat)
      requires WellFormed(cells, tree) && UsedIndex(cells, used) && found in tree && cells[found].state == Free
      requires MergedExcept(cells, tree, cells[found].parent) && cells[found].base !in used
      modifies this`cells, this`used
      ensures WellFormed(cells, tree) && FullyMerged(cells, tree) && UsedIndex(cells, used)
      ensures cells == old(cells)[found := old(cells)[found].(state := Used)] && SameRoots(old(cells), cells)
      ensures used == old(used)[cells[found].base := found]
      ensures Sizes(cells, used) == old(Sizes(cells, used))[cells[found].base := cells[found].size]
      ensures FreeBytes(cells, tree) + cells[found].size == old(FreeBytes(cells, tree))
      ensures MapSum(Sizes(cells, used)) == old(MapSum(Sizes(cells, used))) + cells[found].size
    {
      RestateKeepsShape(cells, tree, found, Used);
      ListUsed(cells, used, found);
      hide WellFormed;
      hide MergedExcept;
      hide FreeBytes;
      hide UsedIndex;
      hide Sizes;
      hide MapSum;
      cells := cells[found := cells[found].(state := Used)];
      used := used[cells[found].base := found];
    }

    /** The scan over the roots, starting at the last one used: the first cell that fits. */
    method SearchRoots(req: nat, zone: Zone, strict: bool) returns (found: nat, root: nat)
      requires Valid()
      ensures found != NONE ==> IsLeaf(cells, tree, found) && Fits(cells[found], req, zone, strict) && root < |cells|
      ensures found != NONE ==> !NoFit(cells, tree, req, zone, false) && !NoFit(cells, tree, req, zone, strict)
      ensures found != NONE ==> FirstFit(cells, tree, lastUsed, req, zone, strict, cells[found].base)
      ensures found != NONE ==> cells[root].IsRoot() && cells[root].Contains(cells[found].base)
      ensures found == NONE ==> NoFit(cells, tree, req, zone, strict)
    {
      var n := |cells|;
      hide NoneBefore, FindFree, UsedIndex, MergedExcept, FreeBytes, MapSum, Sizes;
      assert NoneBefore(cells, tree, lastUsed, req, zone, strict, 0) by {
        NoneYet(cells, tree, lastUsed, req, zone, strict);
      }
      for i := 0 to n
        invariant NoneBefore(cells, tree, lastUsed, req, zone, strict, i)
      {
        var idx := Turn(lastUsed, i, n);
        if cells[idx].parent == NONE {
          var r := FindFree(cells, tree, idx, req, zone, strict);
          if r != NONE {
            FoundFirst(cells, tree, idx, req, zone, strict);
            assert FirstAt(cells, tree, lastUsed, req, zone, strict, i, r);
            return r, idx;
          }
        }
        NoneHere(cells, tree, lastUsed, req, zone, strict, i);
      }
      NoneAnywhere(cells, tree, lastUsed, req, zone, strict);
      found, root := NONE, 0;
    }

    /** pmm_alloc_pages_internal.  The request is counted in 64-bit bytes. */
    method AllocPages(count: nat, zone: Zone, strict: bool) returns (result: nat)
      requires Valid() && count < U64
      modifies this
      ensures Valid() && totalMem == old(totalMem)
      ensures result == 0 ==> unchanged(this) && NoFit(cells, tree, RequestBytes(count), zone, false)
      ensures result != 0 ==>
        && result !in old(Live()) && result in Live()
        && Live() == old(Live())[result := Live()[result]]
        && freeMem + Live()[result] == old(freeMem)
        && SameRoots(old(cells), cells) && |cells| >= |old(cells)|
        && IsCellSize(Live()[result]) && result % PAGE_SIZE == 0
        && Live()[result] >= RequestBytes(count)
        && (|cells| < CELL_POOL_SIZE ==> Live()[result] == PAGE_SIZE || Live()[result] < 4 * RequestBytes(count))
        && RefsSet(old(refs), refs, result, Live()[result], 1)
      ensures result != 0 ==> !NoFit(old(cells), old(tree), RequestBytes(count), zone, false)
      ensures result != 0 ==>
        lastUsed < |old(cells)| && old(cells)[lastUsed].IsRoot() && old(cells)[lastUsed].Contains(result)
      ensures result != 0 ==>
        FirstFit(old(cells), old(tree), old(lastUsed), RequestBytes(count), zone,
                 strict && !NoFit(old(cells), old(tree), RequestBytes(count), zone, true), result)
      ensures result != 0 && strict && !NoFit(old(cells), old(tree), RequestBytes(count), zone, true) ==>
        result + RequestBytes(count) <= ZoneLimit(zone)
      ensures result != 0 && old(AllDescribed()) ==> |cells| <= |old(cells)| + 40
      ensures count < 0x10_0000_0000_0000 ==>
        (result == 0 <==> forall i :: i in old(tree) && i < |old(cells)| && old(cells)[i].state == Free ==>
           old(cells)[i].size < count * 4096)
      ensures result != 0 && count < 0x10_0000_0000_0000 ==>
        && Live()[result] >= count * 4096
        && (|cells| < 16384 ==> Live()[result] == 4096 || Live()[result] < 4 * count * 4096)
      decreases strict
    {
      RequestHonoured(count);
      NoFitMeans(cells, tree, RequestBytes(count), zone);
      hide WellFormed;
      hide MergedExcept;
      hide FreeBytes;
      hide IsCellSize;
      hide RefsSet;
      hide CountsOk;
      hide SameRoots;
      hide UsedIndex;
      hide MapSum;
      hide Sizes;
      hide NoFit;
      hide FirstFit;
      var req := RequestBytes(count);
      var found, root := SearchRoots(req, zone, strict);
      if found != NONE {
        if AllDescribed() { LeafDepth(cells, tree, found); }
        var cell := TakeCell(found, req);
        freeMem := freeMem - cells[cell].size;
        lastUsed := root;
        result := cells[cell].base;
        SetRefs(result, cells[cell].size, 1);
      } else if strict {
        result := AllocPages(count, zone, false);
      } else {
        result := 0;
      }
    }

    /** pmm_free_pages: drops one reference, and gives the cell back when that was the last. */
    method FreePages(phys: nat)
      requires Valid()
      modifies this
      ensures Valid() && totalMem == old(totalMem) && SameRoots(old(cells), cells)
      ensures Returned(old(Left()), Left())
      ensures phys !in old(Live()) ==> unchanged(this)
      ensures phys in old(Live()) && Shared(old(refs), phys) ==>
        && Live() == old(Live()) && freeMem == old(freeMem)
        && refs == old(refs)[phys / PAGE_SIZE := old(refs)[phys / PAGE_SIZE] - 1]
      ensures phys in old(Live()) && !Shared(old(refs), phys) ==>
        Live() == old(Live()) - {phys} && freeMem == old(freeMem) + old(Live())[phys] &&
        RefsSet(old(refs), refs, phys, old(Live())[phys], 0)
    {
      var i := 0;
      while i < |cells|
        invariant 0 <= i <= |cells|
        invariant forall j :: 0 <= j < i ==> !(cells[j].base == phys && cells[j].state == Used)
      {
        if cells[i].base == phys && cells[i].state == Used {
          var pfn := phys / PAGE_SIZE;
          if pfn < MAX_PHYS_PAGES && refs[pfn] > 1 {
            SetRef(pfn, refs[pfn] - 1);
            return;
          }
          GiveBack(i);
          return;
        }
        i := i + 1;
      }
    }

    /** The last reference is gone: the cell is free again, and merged as far as it goes. */
    method GiveBack(i: nat)
      requires Valid() && i < |cells| && cells[i].state == Used
      modifies this
      ensures Valid() && totalMem == old(totalMem) && SameRoots(old(cells), cells)
      ensures Returned(old(Left()), Left())
      ensures old(cells)[i].base in old(Live())
      ensures var phys := old(cells)[i].base;
        Live() == old(Live()) - {phys} && freeMem == old(freeMem) + old(Live())[phys] &&
        RefsSet(old(refs), refs, phys, old(Live())[phys], 0)
    {
      hide WellFormed;
      hide MergedExcept;
      hide UsedIndex;
      hide FreeBytes;
      hide SameUsed;
      hide SameRoots;
      hide RefsSet;
      hide Sizes;
      hide MapSum;
      hide CountsOk;
      MarkFree(i);
      label merge:
      CellTryMerge(i);
      SameUsedIndex(old@merge(cells), cells, used);
      SameRootsTrans(old(cells), old@merge(cells), cells);
    }

    /** Frees a used leaf, before merging. */
    method MarkFree(i: nat)
      requires Valid() && i < |cells| && cells[i].state == Used
      modifies this`cells, this`used, this`freeMem, this`refs
      ensures i < |cells| == |old(cells)| && ValidBut(cells[i].parent) && i in tree
      ensures SameRoots(old(cells), cells)
      ensures old(cells)[i].base in old(Live()) && old(Live())[old(cells)[i].base] == old(cells)[i].size
      ensures Sizes(cells, used) == old(Live()) - {old(cells)[i].base}
      ensures freeMem == old(freeMem) + old(cells)[i].size
      ensures RefsSet(old(refs), refs, old(cells)[i].base, old(cells)[i].size, 0)
    {
      hide WellFormed;
      hide MergedExcept;
      hide FreeBytes;
      hide RefsSet;
      hide CountsOk;
      hide UsedIndex;
      hide Sizes;
      hide MapSum;
      hide SameRoots;
      var phys, size := cells[i].base, cells[i].size;
      UsedIsLeaf(cells, tree, i);
      RestateKeepsShape(cells, tree, i, Free);
      UnlistUsed(cells, used, i);
      cells := cells[i := cells[i].(state := Free)];
      used := used - {phys};
      freeMem := freeMem + size;
      SetRefs(phys, size, 0);
    }

    /** pmm_page_ref: a 32-bit counter, untouched for pages that have no descriptor. */
    method PageRef(phys: nat)
      requires Valid()
      modifies this`refs
      ensures Valid() && Live() == old(Live())
      ensures refs == if phys / PAGE_SIZE < MAX_PHYS_PAGES
                      then old(refs)[phys / PAGE_SIZE := (old(refs)[phys / PAGE_SIZE] + 1) % U32] else old(refs)
    {
      var pfn := phys / PAGE_SIZE;
      if pfn < MAX_PHYS_PAGES { SetRef(pfn, (refs[pfn] + 1) % U32); }
    }

    /** Rewrites one reference count. */
    method SetRef(pfn: nat, v: nat)
      requires Valid() && pfn < MAX_PHYS_PAGES && v < U32
      modifies this`refs
      ensures Valid() && Live() == old(Live()) && |refs| == MAX_PHYS_PAGES && refs == old(refs)[pfn := v]
    {
      refs := refs[pfn := v];
    }

    /** pmm_page_unref: a 32-bit decrement.  The reference that brings it to zero frees the cell. */
    method PageUnref(phys: nat) returns (freed: bool)
      requires Valid()
      modifies this
      ensures Valid() && totalMem == old(totalMem) && SameRoots(old(cells), cells)
      ensures Returned(old(Left()), Left())
      ensures phys / PAGE_SIZE >= MAX_PHYS_PAGES ==> !freed && unchanged(this)
      ensures phys / PAGE_SIZE < MAX_PHYS_PAGES ==> (freed <==> old(refs)[phys / PAGE_SIZE] == 1)
      ensures phys / PAGE_SIZE < MAX_PHYS_PAGES && !(freed && phys in old(Live())) ==>
        Live() == old(Live()) && freeMem == old(freeMem) &&
        refs == old(refs)[phys / PAGE_SIZE := Dec32(old(refs)[phys / PAGE_SIZE])]
      ensures freed && phys in old(Live()) ==>
        Live() == old(Live()) - {phys} && freeMem == old(freeMem) + old(Live())[phys] &&
        RefsSet(old(refs), refs, phys, old(Live())[phys], 0)
    {
      var pfn := phys / PAGE_SIZE;
      if pfn >= MAX_PHYS_PAGES { return false; }
      if phys in old(Live()) { LiveSize(phys); }
      hide WellFormed;
      hide MergedExcept;
      hide UsedIndex;
      hide FreeBytes;
      assert refs[pfn] < U32;
      hide RefsSet;
      hide CountsOk;
      hide MapSum;
      hide Sizes;
      SetRef(pfn, Dec32(refs[pfn]));
      freed := refs[pfn] == 0;
      if freed {
        label drop:
        FreePages(phys);
        if phys in old(Live()) { RefsSetAbsorbs(old(refs), old@drop(refs), refs, phys, old(Live())[phys], 0); }
      }
    }

    lemma LiveSize(b: nat)
      requires Valid() && b in Live()
      ensures Live()[b] >= PAGE_SIZE && b % PAGE_SIZE == 0 && b > 0
    {
      UsedIsLeaf(cells, tree, used[b]);
      assert NodeOk(cells, tree, used[b]);
      CellSizeIsPages(cells[used[b]].size);
    }

    /** The root-chunk loop of pmm_init for one usable region. */
    method AddRegion(start: nat, length: nat)
      requires Valid() && length >= PAGE_SIZE && AlignUp(start) > 0
      requires ApartFromRoots(cells, tree, AlignUp(start), AlignDown(start + length))
      modifies this
      ensures Valid() && Live() == old(Live()) && |cells| >= |old(cells)| && old(cells) == cells[..|old(cells)|]
      ensures forall r :: |old(cells)| <= r < |cells| ==>
        && cells[r].IsRoot() && cells[r].state == Free && AlignUp(start) <= cells[r].base
        && cells[r].base + cells[r].size <= AlignDown(start + length)
      ensures |cells| < CELL_POOL_SIZE ==>
        totalMem == old(totalMem) + (AlignDown(start + length) - AlignUp(start)) &&
        Covered(cells, tree, AlignUp(start), AlignDown(start + length))
      ensures (|cells| - |old(cells)|) * PAGE_SIZE <= AlignDown(start + length) - AlignUp(start)
    {
      hide WellFormed;
      hide MergedExcept;
      hide FreeBytes;
      hide UsedIndex;
      hide Covered;
      hide IsCellSize;
      hide CountsOk;
      hide MapSum;
      var base, end := AlignUp(start), AlignDown(start + length);
      assert Covered(cells, tree, base, base) by { CoveredEmpty(cells, tree, base); }
      var size := end - base;
      ghost var lo, cs := base, cells;
      while size >= PAGE_SIZE
        invariant 0 <= size && base + size == end && base >= lo && base % PAGE_SIZE == 0 && size % PAGE_SIZE == 0
        invariant Valid() && Live() == old(Live()) && |cells| >= |cs| && cs == cells[..|cs|]
        invariant ApartFromRoots(cells, tree, base, end)
        invariant forall r :: |cs| <= r < |cells| ==>
          cells[r].IsRoot() && cells[r].state == Free && lo <= cells[r].base && cells[r].base + cells[r].size <= end
        invariant |cells| < CELL_POOL_SIZE ==> totalMem == old(totalMem) + (base - lo) && Covered(cells, tree, lo, base)
        invariant (|cells| - |cs|) * PAGE_SIZE <= base - lo
      {
        var chunk := LargestChunk(size);
        if |cells| < CELL_POOL_SIZE { AddRoot(base, chunk, lo, end); }
        ChunkAligned(base, size, chunk);
        base, size := base + chunk, size - chunk;
      }
      assert size == 0 && base == AlignDown(start + length);
    }

    static lemma ChunkAligned(base: nat, size: nat, chunk: nat)
      requires IsCellSize(chunk) && chunk <= size && base % PAGE_SIZE == 0 && size % PAGE_SIZE == 0
      ensures (base + chunk) % PAGE_SIZE == 0 && (size - chunk) % PAGE_SIZE == 0 && chunk >= PAGE_SIZE
    {
      CellSizeIsPages(chunk);
      var b, s, c := base / PAGE_SIZE, size / PAGE_SIZE, chunk / PAGE_SIZE;
      assert base == b * PAGE_SIZE && size == s * PAGE_SIZE && chunk == c * PAGE_SIZE;
      Bits.DivIs(base + chunk, PAGE_SIZE, b + c, 0);
      Bits.DivIs(size - chunk, PAGE_SIZE, s - c, 0);
    }

    /** One more root chunk, at the end of what the region has so far. */
    method AddRoot(base: nat, chunk: nat, ghost lo: nat, ghost end: nat)
      requires Valid() && IsCellSize(chunk) && base % PAGE_SIZE == 0 && base > 0 && base + chunk <= end && lo <= base
      requires |cells| < CELL_POOL_SIZE && ApartFromRoots(cells, tree, base, end) && Covered(cells, tree, lo, base)
      modifies this
      ensures Valid() && Live() == old(Live())
      ensures cells == old(cells) + [Cell(base, chunk, Free, NONE, NO_CHILDREN)]
      ensures totalMem == old(totalMem) + chunk && ApartFromRoots(cells, tree, base + chunk, end)
      ensures Covered(cells, tree, lo, base + chunk)
    {
      ghost var cs, t := cells, tree;
      var c := Cell(base, chunk, Free, NONE, NO_CHILDREN);
      RootKeepsShape(cs, t, c);
      cells := cells + [c];
      tree := tree + {|cs|};
      totalMem, freeMem := totalMem + chunk, freeMem + chunk;
      SameUsedIndex(cs, cells, used);
      forall a {:trigger InRoots(cells, tree, a)} | lo <= a < base + chunk ensures InRoots(cells, tree, a) {
        if a < base {
          assert InRoots(cs, t, a);
          var r: nat :| RootHolds(cs, t, r, a);
          assert RootHolds(cells, tree, r, a);
        } else {
          assert RootHolds(cells, tree, |cs|, a);
        }
      }
    }

    // ---- one frame at a time, as the virtual memory manager uses it

    /** pmm_page_refcount. */
    function RefOf(f: nat): nat
      reads this`refs
    {
      if f / PAGE_SIZE < |refs| then refs[f / PAGE_SIZE] else 0
    }

    /** Every allocation lies below the last page that has a descriptor. */
    ghost predicate AllDescribed()
      reads this`cells
    {
      RootsWithin(cells, MAX_PHYS_PAGES * PAGE_SIZE)
    }

    /** Free memory, and nodes in use. */
    function Left(): Stock
      reads this`freeMem, this`cells
    {
      Stock(freeMem, |cells|)
    }

    /** No free cell is left for a page. */
    predicate Exhausted()
      reads this`freeMem
    {
      freeMem == 0
    }

    /** The pool has nodes for the splits of `n` more page allocations. */
    predicate NodesFor(n: nat)
      reads this`cells
    {
      |cells| + 40 * n < CELL_POOL_SIZE
    }

    lemma ExhaustedMeans()
      requires Valid()
      ensures Exhausted() <==> NoFit(cells, tree, PAGE_SIZE, Normal, false)
    {
      NothingFree(cells, tree, |cells|);
      forall i | i in tree ensures cells[i].size >= PAGE_SIZE {
        assert NodeOk(cells, tree, i);
        CellSizeIsPages(cells[i].size);
      }
    }

    lemma LiveFrame(f: nat)
      requires Valid() && AllDescribed() && f in Live()
      ensures f > 0 && f % PAGE_SIZE == 0 && f / PAGE_SIZE < MAX_PHYS_PAGES && Live()[f] >= PAGE_SIZE
    {
      LiveSize(f);
      UsedIsLeaf(cells, tree, used[f]);
      LeafWithin(cells, tree, used[f], MAX_PHYS_PAGES * PAGE_SIZE);
    }

    /** pmm_alloc_page.  The new frame is nobody's, and no live frame's count changes. */
    method AllocFrame() returns (f: nat)
      requires Valid() && AllDescribed()
      modifies this
      ensures Valid() && AllDescribed() && totalMem == old(totalMem)
      ensures f == 0 ==> unchanged(this)
      ensures f == 0 <==> old(Exhausted())
      ensures f != 0 ==> Took(old(Left()), Left(), 1)
      ensures f != 0 ==>
        && f !in old(Live()) && f in Live() && Live() == old(Live())[f := Live()[f]]
        && RefOf(f) == 1 && forall g :: g in old(Live()) ==> RefOf(g) == old(RefOf(g))
    {
      hide WellFormed;
      hide MergedExcept;
      hide FreeBytes;
      hide UsedIndex;
      hide MapSum;
      hide Sizes;
      hide IsCellSize;
      ghost var before, counts := Live(), refs;
      ExhaustedMeans();
      f := AllocPages(1, Normal, false);
      if f != 0 {
        LiveFrame(f);
        CellSizeIsPages(Live()[f]);
        forall g | g in before ensures g / PAGE_SIZE < |refs| && refs[g / PAGE_SIZE] == counts[g / PAGE_SIZE] {
          LiveFrame(g);
          assert Live()[g] == before[g];
          AllocationsDisjoint(f, g);
          OutsidePages(f, Live()[f], g);
        }
      }
    }

    /** A frame that starts outside an allocation has its descriptor outside it too. */
    lemma OutsidePages(base: nat, size: nat, g: nat)
      requires base % PAGE_SIZE == 0 && g % PAGE_SIZE == 0 && (base + size <= g || g < base)
      ensures !(base / PAGE_SIZE <= g / PAGE_SIZE < base / PAGE_SIZE + size / PAGE_SIZE)
    {
    }

    /** pmm_page_ref of a live frame. */
    method RefFrame(f: nat)
      requires Valid() && AllDescribed() && f in Live() && RefOf(f) + 1 < U32
      modifies this`refs
      ensures Valid() && AllDescribed() && Live() == old(Live())
      ensures RefOf(f) == old(RefOf(f)) + 1
      ensures forall g :: g in Live() && g != f ==> RefOf(g) == old(RefOf(g))
    {
      hide WellFormed;
      hide MergedExcept;
      hide FreeBytes;
      hide UsedIndex;
      hide MapSum;
      hide Sizes;
      FramesApart(f);
      PageRef(f);
    }

    /** pmm_free_page of any frame address: one reference less, or the allocation gone, or nothing
        when no allocation starts there. */
    method ReleaseFrame(f: nat)
      requires Valid() && AllDescribed()
      modifies this
      ensures Valid() && AllDescribed() && totalMem == old(totalMem)
      ensures Returned(old(Left()), Left())
      ensures f !in old(Live()) ==> unchanged(this)
      ensures f in old(Live()) ==> Live() == if old(RefOf(f)) <= 1 then old(Live()) - {f} else old(Live())
      ensures f in old(Live()) ==> RefOf(f) == if old(RefOf(f)) <= 1 then 0 else old(RefOf(f)) - 1
      ensures forall g :: g in Live() && g != f ==> RefOf(g) == old(RefOf(g))
    {
      hide WellFormed;
      hide MergedExcept;
      hide FreeBytes;
      hide UsedIndex;
      hide MapSum;
      hide Sizes;
      if f in Live() { FramesApart(f); }
      FreePages(f);
    }

    /** The descriptors of one allocation hold no other allocation's first descriptor. */
    lemma FramesApart(f: nat)
      requires Valid() && AllDescribed() && f in Live()
      ensures f % PAGE_SIZE == 0 && f / PAGE_SIZE < MAX_PHYS_PAGES && Live()[f] >= PAGE_SIZE
      ensures forall g :: g in Live() && g != f ==>
        && g % PAGE_SIZE == 0 && g / PAGE_SIZE < MAX_PHYS_PAGES && g / PAGE_SIZE != f / PAGE_SIZE
        && !(f / PAGE_SIZE <= g / PAGE_SIZE < f / PAGE_SIZE + Live()[f] / PAGE_SIZE)
    {
      LiveFrame(f);
      forall g | g in Live() && g != f
        ensures && g % PAGE_SIZE == 0 && g / PAGE_SIZE < MAX_PHYS_PAGES && g / PAGE_SIZE != f / PAGE_SIZE
                && !(f / PAGE_SIZE <= g / PAGE_SIZE < f / PAGE_SIZE + Live()[f] / PAGE_SIZE)
      {
        LiveFrame(g);
        AllocationsDisjoint(f, g);
        OutsidePages(f, Live()[f], g);
      }
    }

    /** pmm_page_unref of any page-aligned address. */
    method UnrefFrame(f: nat)
      requires Valid() && AllDescribed() && f % PAGE_SIZE == 0
      modifies this
      ensures Valid() && AllDescribed() && totalMem == old(totalMem)
      ensures Returned(old(Left()), Left())
      ensures Live() == if old(RefOf(f)) == 1 then old(Live()) - {f} else old(Live())
      ensures old(RefOf(f)) >= 1 ==> RefOf(f) == old(RefOf(f)) - 1
      ensures old(RefOf(f)) != 1 ==> Left() == old(Left())
      ensures forall g :: g in Live() && g != f ==> RefOf(g) == old(RefOf(g))
    {
      hide WellFormed;
      hide MergedExcept;
      hide FreeBytes;
      hide UsedIndex;
      hide MapSum;
      hide Sizes;
      ghost var before := Live();
      if f in before {
        FramesApart(f);
      } else {
        forall g | g in before ensures g % PAGE_SIZE == 0 && g / PAGE_SIZE < MAX_PHYS_PAGES { LiveFrame(g); }
        assert before - {f} == before;
      }
      var freed := PageUnref(f);
    }

    /** pmm_free_page (`viaFree`) or pmm_page_unref: a frame with references has one less, and goes with the last. */
    method LetGo(f: nat, viaFree: bool) returns (gone: bool)
      requires Valid() && AllDescribed() && f % PAGE_SIZE == 0
      modifies this
      ensures Valid() && AllDescribed() && totalMem == old(totalMem)
      ensures Returned(old(Left()), Left())
      ensures Live() == if gone then old(Live()) - {f} else old(Live())
      ensures f in old(Live()) && old(RefOf(f)) >= 1 ==> RefOf(f) == old(RefOf(f)) - 1 && (gone <==> old(RefOf(f)) == 1)
      ensures forall g :: g in Live() && g != f ==> RefOf(g) == old(RefOf(g))
    {
      hide Valid;
      hide Live;
      hide AllDescribed;
      hide RefOf;
      ghost var live := Live();
      assert f !in live ==> live - {f} == live;
      gone := if viaFree then RefOf(f) <= 1 else RefOf(f) == 1;
      if viaFree { ReleaseFrame(f); } else { UnrefFrame(f); }
    }

    /** Once every allocation has been given back, all memory is free and each root is one free cell. */
    lemma AllGivenBack()
      requires Valid() && Live() == map[]
      ensures freeMem == totalMem
      ensures forall i :: i in tree ==> cells[i].state == Free && cells[i].IsRoot()
    {
      assert used == map[] by { assert used.Keys == Live().Keys; }
      AllFreeMeansRootsWhole(cells, tree);
    }

    /** Two allocations never overlap. */
    lemma AllocationsDisjoint(a: nat, b: nat)
      requires Valid() && a in Live() && b in Live() && a != b
      ensures a + Live()[a] <= b || b + Live()[b] <= a
    {
      UsedIsLeaf(cells, tree, used[a]);
      UsedIsLeaf(cells, tree, used[b]);
      LeavesDisjoint(cells, tree, used[a], used[b]);
    }
  }

  /** The first page boundary at or above an address. */
  function AlignUp(x: nat): (r: nat)
    ensures r % PAGE_SIZE == 0 && x <= r < x + PAGE_SIZE
  {
    Bits.DivIs((x + PAGE_SIZE - 1) / PAGE_SIZE * PAGE_SIZE, PAGE_SIZE, (x + PAGE_SIZE - 1) / PAGE_SIZE, 0);
    (x + PAGE_SIZE - 1) / PAGE_SIZE * PAGE_SIZE
  }

  /** The last page boundary at or below an address. */
  function AlignDown(x: nat): (r: nat)
    ensures r % PAGE_SIZE == 0 && r <= x < r + PAGE_SIZE
  {
    Bits.DivIs(x / PAGE_SIZE * PAGE_SIZE, PAGE_SIZE, x / PAGE_SIZE, 0);
    x / PAGE_SIZE * PAGE_SIZE
  }

  /** From `before` to `after`, the counts of the pages of one allocation become `v` and no other count changes. */
  ghost predicate RefsSet(before: seq<nat>, after: seq<nat>, base: nat, size: nat, v: nat) {
    |after| == |before| &&
    forall p :: 0 <= p < |after| ==>
      after[p] == if base / PAGE_SIZE <= p < base / PAGE_SIZE + size / PAGE_SIZE then v else before[p]
  }

  lemma RefsSetAbsorbs(before: seq<nat>, mid: seq<nat>, after: seq<nat>, base: nat, size: nat, v: nat)
    requires size >= PAGE_SIZE && base / PAGE_SIZE < |before| && mid == before[base / PAGE_SIZE := v]
    requires RefsSet(mid, after, base, size, v)
    ensures RefsSet(before, after, base, size, v)
  {
  }

  function Dec32(x: nat): nat { if x == 0 then U32 - 1 else x - 1 }

  /** It is one less in 32 bits. */
  lemma Dec32Is(x: nat)
    requires x < 0x1_0000_0000
    ensures Dec32(x) < 0x1_0000_0000 && (Dec32(x) + 1) % 0x1_0000_0000 == x
  {
  }

  predicate CountsOk(refs: seq<nat>) { forall p :: 0 <= p < |refs| ==> refs[p] < U32 }

  predicate Shared(refs: seq<nat>, phys: nat) {
    phys / PAGE_SIZE < MAX_PHYS_PAGES && phys / PAGE_SIZE < |refs| && refs[phys / PAGE_SIZE] > 1
  }

  /** The largest cell size that fits into `size` bytes. */
  method LargestChunk(size: nat) returns (chunk: nat)
    requires size >= PAGE_SIZE
    ensures IsCellSize(chunk) && chunk % PAGE_SIZE == 0 && chunk <= size < 4 * chunk
  {
    chunk := PAGE_SIZE;
    while chunk * 4 <= size
      invariant IsCellSize(chunk) && PAGE_SIZE <= chunk <= size
    {
      chunk := chunk * 4;
    }
    CellSizeIsPages(chunk);
  }

  ghost predicate ApartFromRoots(cs: seq<Cell>, tree: set<nat>, lo: nat, hi: nat) {
    forall r :: r in tree && r < |cs| && cs[r].IsRoot() ==> cs[r].base + cs[r].size <= lo || hi <= cs[r].base
  }

  ghost predicate InRoots(cs: seq<Cell>, tree: set<nat>, a: nat) {
    exists r: nat :: RootHolds(cs, tree, r, a)
  }

  lemma CoveredEmpty(cs: seq<Cell>, tree: set<nat>, a: nat)
    ensures Covered(cs, tree, a, a)
  {
  }

  ghost predicate Covered(cs: seq<Cell>, tree: set<nat>, lo: nat, hi: nat) {
    forall a {:trigger InRoots(cs, tree, a)} :: lo <= a < hi ==> InRoots(cs, tree, a)
  }

  /** The i-th stop of a scan of n cells that starts at cell `start` and wraps round. */
  function Turn(start: nat, i: nat, n: nat): (r: nat)
    requires n > 0
    ensures r < n && (start + i < n ==> r == start + i) && (n <= start + i < 2 * n ==> r == start + i - n)
  {
    (start + i) % n
  }

  lemma TurnReaches(start: nat, r: nat, n: nat) returns (i: nat)
    requires r < n && (start < n || start == 0)
    ensures i < n && Turn(start, i, n) == r
  {
    i := if r >= start then r - start else r + n - start;
    assert start + i == r || start + i == r + n;
  }

  function RequestBytes(count: nat): nat { (count * PAGE_SIZE) % U64 }

  /** The byte count is that of the pages asked for exactly while it does not wrap: from 2^52 pages on, only the low
      52 bits of the page count remain, and a cell that is too small satisfies the request. */
  lemma RequestHonoured(count: nat)
    ensures RequestBytes(count) == count % 0x10_0000_0000_0000 * 4096
    ensures RequestBytes(count) == count * 4096 <==> count < 0x10_0000_0000_0000
  {
    var q, r := count / 0x10_0000_0000_0000, count % 0x10_0000_0000_0000;
    assert count * 4096 == q * U64 + r * 4096;
    Bits.DivIs(count * 4096, U64, q, r * 4096);
  }

  /** 2^52 pages and one more ask for a single page. */
  lemma RequestWraps()
    ensures RequestBytes(0x10_0000_0000_0001) == PAGE_SIZE
  {
  }
}
