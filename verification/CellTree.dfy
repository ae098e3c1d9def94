/** The quad-tree of cells behind the physical memory manager (src/mem/pmm.c):
    its shape, what it means for its leaves to tile memory, and the two
    rewrites (split one cell into four, merge four cells into one). */
module CellTree {
  import Bits

  const PAGE_SIZE: nat := 4096
  const CELL_POOL_SIZE: nat := 16384
  const NONE: nat := 0xFFFF

  datatype CellState = Free | Split | Used | Reserved

  datatype Cell = Cell(base: nat, size: nat, state: CellState, parent: nat, children: seq<nat>) {
    predicate Contains(a: nat) { base <= a < base + size }
    predicate IsRoot() { parent == NONE }
  }

  const NO_CHILDREN: seq<nat> := [NONE, NONE, NONE, NONE]

  // ---------------------------------------------------------------- shape

  /** Every cell is a page times a power of four. */
  ghost predicate IsCellSize(s: nat) {
    s == PAGE_SIZE || (s >= 4 * PAGE_SIZE && s % 4 == 0 && IsCellSize(s / 4))
  }

  lemma {:induction false} CellSizeIsPages(s: nat)
    requires IsCellSize(s)
    ensures s >= PAGE_SIZE && s % PAGE_SIZE == 0
    ensures s < 4 * PAGE_SIZE ==> s == PAGE_SIZE
  {
    if s != PAGE_SIZE {
      CellSizeIsPages(s / 4);
      FourPages(s / 4);
    }
  }

  lemma FourPages(q: nat)
    requires q % PAGE_SIZE == 0
    ensures (4 * q) % PAGE_SIZE == 0 && (2 * q) % PAGE_SIZE == 0 && (3 * q) % PAGE_SIZE == 0
  {
    var t := q / PAGE_SIZE;
    assert q == t * PAGE_SIZE;
    Bits.DivIs(4 * q, PAGE_SIZE, 4 * t, 0);
    Bits.DivIs(2 * q, PAGE_SIZE, 2 * t, 0);
    Bits.DivIs(3 * q, PAGE_SIZE, 3 * t, 0);
  }

  ghost predicate ChildOk(cs: seq<Cell>, tree: set<nat>, i: nat, k: nat)
    requires i < |cs| && |cs[i].children| == 4 && k < 4
  {
    var c := cs[i].children[k];
    i < c < |cs| && c in tree && cs[c].parent == i &&
    cs[c].size == cs[i].size / 4 && cs[c].base == cs[i].base + k * (cs[i].size / 4)
  }

  ghost predicate NodeOk(cs: seq<Cell>, tree: set<nat>, i: nat)
    requires i < |cs| && |cs[i].children| == 4
  {
    && cs[i].state != Reserved
    && IsCellSize(cs[i].size) && cs[i].base % PAGE_SIZE == 0 && cs[i].base > 0
    && (cs[i].IsRoot() ||
        (cs[i].parent < i && cs[i].parent in tree && cs[cs[i].parent].state == Split && i in cs[cs[i].parent].children))
    && (cs[i].state == Split ==>
          cs[i].size >= 4 * PAGE_SIZE &&
          ChildOk(cs, tree, i, 0) && ChildOk(cs, tree, i, 1) && ChildOk(cs, tree, i, 2) && ChildOk(cs, tree, i, 3))
  }

  ghost predicate Disjoint(a: Cell, b: Cell) {
    a.base + a.size <= b.base || b.base + b.size <= a.base
  }

  /** `tree` is the set of live cells: the roots and, below every split cell, its
      four quarters.  Cells outside it are the leftovers of merges (Reserved) or
      of a split that ran out of pool nodes (Free, but never looked at again). */
  ghost predicate WellFormed(cs: seq<Cell>, tree: set<nat>) {
    && |cs| <= CELL_POOL_SIZE
    && (forall i :: 0 <= i < |cs| ==> |cs[i].children| == 4)
    && (forall i :: i in tree ==> i < |cs|)
    && (forall i {:trigger NodeOk(cs, tree, i)} :: i in tree ==> NodeOk(cs, tree, i))
    && (forall i :: 0 <= i < |cs| && i !in tree ==> !cs[i].IsRoot() && (cs[i].state == Free || cs[i].state == Reserved))
    && (forall i, j {:trigger Disjoint(cs[i], cs[j])} ::
          i in tree && j in tree && i < j && cs[i].IsRoot() && cs[j].IsRoot() ==> Disjoint(cs[i], cs[j]))
  }

  ghost predicate IsLeaf(cs: seq<Cell>, tree: set<nat>, i: nat) {
    i in tree && i < |cs| && cs[i].state != Split
  }

  // --------------------------------------------------------------- tiling

  /** The live leaf below `i` that holds address `a`. */
  ghost function LeafAt(cs: seq<Cell>, tree: set<nat>, i: nat, a: nat): (l: nat)
    requires WellFormed(cs, tree) && i in tree && cs[i].Contains(a)
    ensures IsLeaf(cs, tree, l) && cs[l].Contains(a)
    decreases |cs| - i
  {
    assert NodeOk(cs, tree, i);
    if cs[i].state != Split then i else
      var q := cs[i].size / 4;
      assert cs[i].size == 4 * q;
      var kids := cs[i].children;
      if a < cs[i].base + q then LeafAt(cs, tree, kids[0], a)
      else if a < cs[i].base + 2 * q then LeafAt(cs, tree, kids[1], a)
      else if a < cs[i].base + 3 * q then LeafAt(cs, tree, kids[2], a)
      else LeafAt(cs, tree, kids[3], a)
  }

  ghost function RootOf(cs: seq<Cell>, tree: set<nat>, i: nat): (r: nat)
    requires WellFormed(cs, tree) && i in tree
    ensures r in tree && cs[r].IsRoot() && r <= i
  {
    assert NodeOk(cs, tree, i);
    if cs[i].IsRoot() then i else RootOf(cs, tree, cs[i].parent)
  }

  /** Descending from a root to an address meets every live cell that holds the address. */
  lemma {:induction false} DescentMeets(cs: seq<Cell>, tree: set<nat>, i: nat, a: nat)
    requires WellFormed(cs, tree) && i in tree && cs[i].Contains(a)
    ensures cs[RootOf(cs, tree, i)].Contains(a)
    ensures LeafAt(cs, tree, RootOf(cs, tree, i), a) == LeafAt(cs, tree, i, a)
  {
    if !cs[i].IsRoot() {
      var p := cs[i].parent;
      assert NodeOk(cs, tree, i) && NodeOk(cs, tree, p);
      var k :| 0 <= k < 4 && cs[p].children[k] == i;
      assert ChildOk(cs, tree, p, k);
      assert cs[p].size == 4 * (cs[p].size / 4);
      assert LeafAt(cs, tree, p, a) == LeafAt(cs, tree, i, a);
      DescentMeets(cs, tree, p, a);
    }
  }

  lemma RootsDisjoint(cs: seq<Cell>, tree: set<nat>, r: nat, t: nat)
    requires WellFormed(cs, tree) && r in tree && t in tree && cs[r].IsRoot() && cs[t].IsRoot()
    ensures r == t || Disjoint(cs[r], cs[t])
  {
    assert r < t ==> Disjoint(cs[r], cs[t]);
    assert t < r ==> Disjoint(cs[t], cs[r]);
  }

  lemma SameLeaf(cs: seq<Cell>, tree: set<nat>, i: nat, j: nat, a: nat)
    requires WellFormed(cs, tree) && IsLeaf(cs, tree, i) && IsLeaf(cs, tree, j)
    requires cs[i].Contains(a) && cs[j].Contains(a)
    ensures i == j
  {
    DescentMeets(cs, tree, i, a);
    DescentMeets(cs, tree, j, a);
    RootsDisjoint(cs, tree, RootOf(cs, tree, i), RootOf(cs, tree, j));
  }

  /** No two live leaves share an address. */
  lemma LeavesDisjoint(cs: seq<Cell>, tree: set<nat>, i: nat, j: nat)
    requires WellFormed(cs, tree) && IsLeaf(cs, tree, i) && IsLeaf(cs, tree, j) && i != j
    ensures Disjoint(cs[i], cs[j])
  {
    assert NodeOk(cs, tree, i) && NodeOk(cs, tree, j);
    CellSizeIsPages(cs[i].size);
    CellSizeIsPages(cs[j].size);
    if !Disjoint(cs[i], cs[j]) {
      SameLeaf(cs, tree, i, j, if cs[i].base < cs[j].base then cs[j].base else cs[i].base);
    }
  }

  ghost predicate RootHolds(cs: seq<Cell>, tree: set<nat>, r: nat, a: nat) {
    r in tree && r < |cs| && cs[r].IsRoot() && cs[r].Contains(a)
  }

  ghost predicate LeafHolds(cs: seq<Cell>, tree: set<nat>, l: nat, a: nat) {
    IsLeaf(cs, tree, l) && cs[l].Contains(a)
  }

  /** The live leaves tile the root chunks: an address of a root chunk lies in exactly
      one live leaf, and an address of a live leaf lies in a root chunk. */
  lemma LeavesTileRoots(cs: seq<Cell>, tree: set<nat>, a: nat)
    requires WellFormed(cs, tree)
    ensures (exists r: nat :: RootHolds(cs, tree, r, a)) <==> (exists l: nat :: LeafHolds(cs, tree, l, a))
    ensures forall l: nat, m: nat :: LeafHolds(cs, tree, l, a) && LeafHolds(cs, tree, m, a) ==> l == m
  {
    if r: nat :| RootHolds(cs, tree, r, a) {
      assert LeafHolds(cs, tree, LeafAt(cs, tree, r, a), a);
    }
    if l: nat :| LeafHolds(cs, tree, l, a) {
      DescentMeets(cs, tree, l, a);
      assert RootHolds(cs, tree, RootOf(cs, tree, l), a);
    }
    forall l: nat, m: nat | LeafHolds(cs, tree, l, a) && LeafHolds(cs, tree, m, a) ensures l == m {
      SameLeaf(cs, tree, l, m, a);
    }
  }

  // ---------------------------------------------------------- accounting

  ghost function FreeSize(cs: seq<Cell>, tree: set<nat>, i: nat): nat
    requires i < |cs|
  {
    if i in tree && cs[i].state == Free then cs[i].size else 0
  }

  ghost function FreeBelow(cs: seq<Cell>, tree: set<nat>, n: nat): nat
    requires n <= |cs|
  {
    if n == 0 then 0 else FreeBelow(cs, tree, n - 1) + FreeSize(cs, tree, n - 1)
  }

  /** The bytes in free live leaves. */
  ghost function FreeBytes(cs: seq<Cell>, tree: set<nat>): nat {
    FreeBelow(cs, tree, |cs|)
  }

  /** Two trees that differ in the free size of cell `i` only differ in the sum by that much. */
  lemma {:induction false} FreeBelowSwap(cs: seq<Cell>, s: set<nat>, ds: seq<Cell>, t: set<nat>, i: nat, n: nat)
    requires n <= |cs| && n <= |ds| && i < |cs| && i < |ds|
    requires forall j :: 0 <= j < n && j != i ==> FreeSize(ds, t, j) == FreeSize(cs, s, j)
    ensures FreeBelow(ds, t, n) + (if i < n then FreeSize(cs, s, i) else 0)
         == FreeBelow(cs, s, n) + (if i < n then FreeSize(ds, t, i) else 0)
  {
    if n > 0 { FreeBelowSwap(cs, s, ds, t, i, n - 1); }
  }

  /** Nothing is free exactly when no live cell is. */
  lemma {:induction false} NothingFree(cs: seq<Cell>, tree: set<nat>, n: nat)
    requires WellFormed(cs, tree) && n <= |cs|
    ensures FreeBelow(cs, tree, n) == 0 <==> forall i :: i in tree && i < n ==> cs[i].state != Free
    ensures forall i :: i in tree && i < n && cs[i].state == Free ==> cs[i].size <= FreeBelow(cs, tree, n)
  {
    if n > 0 {
      NothingFree(cs, tree, n - 1);
      if n - 1 in tree {
        assert NodeOk(cs, tree, n - 1);
        CellSizeIsPages(cs[n - 1].size);
      }
    }
  }

  /** How often a cell can be quartered. */
  ghost function Depth(size: nat): nat { if size < 4 * PAGE_SIZE then 0 else 1 + Depth(size / 4) }

  lemma {:induction false} DepthMono(a: nat, b: nat)
    requires a <= b
    ensures Depth(a) <= Depth(b)
    decreases b
  {
    if a >= 4 * PAGE_SIZE { DepthMono(a / 4, b / 4); }
  }

  // ------------------------------------------------------ no merge missed

  predicate AllChildrenFree(cs: seq<Cell>, i: nat) {
    i < |cs| && |cs[i].children| == 4 &&
    forall k :: 0 <= k < 4 ==> cs[i].children[k] < |cs| && cs[cs[i].children[k]].state == Free
  }

  /** No split cell but possibly `p` has four free quarters. */
  ghost predicate MergedExcept(cs: seq<Cell>, tree: set<nat>, p: nat) {
    forall i :: i in tree && i < |cs| && cs[i].state == Split && i != p ==> !AllChildrenFree(cs, i)
  }

  ghost predicate FullyMerged(cs: seq<Cell>, tree: set<nat>) {
    MergedExcept(cs, tree, NONE)
  }

  /** With nothing allocated, every root is one free cell again. */
  lemma AllFreeMeansRootsWhole(cs: seq<Cell>, tree: set<nat>)
    requires WellFormed(cs, tree) && FullyMerged(cs, tree)
    requires forall i :: i in tree ==> cs[i].state != Used
    ensures forall i :: i in tree ==> cs[i].state == Free && cs[i].IsRoot()
  {
    NoSplitFrom(cs, tree, 0);
    forall i | i in tree ensures cs[i].state == Free && cs[i].IsRoot() {
      assert NodeOk(cs, tree, i);
    }
  }

  lemma {:induction false} NoSplitFrom(cs: seq<Cell>, tree: set<nat>, n: nat)
    requires WellFormed(cs, tree) && FullyMerged(cs, tree) && n <= |cs|
    requires forall i :: i in tree ==> cs[i].state != Used
    ensures forall i :: i in tree && i >= n ==> cs[i].state == Free
    decreases |cs| - n
  {
    if n < |cs| {
      NoSplitFrom(cs, tree, n + 1);
      if n in tree {
        assert NodeOk(cs, tree, n);
        if cs[n].state == Split {
          assert AllChildrenFree(cs, n);
          assert false;
        }
      }
    }
  }

  /** Taking a free leaf into use, or giving a used one back, keeps the shape of the tree.
      A leaf taken keeps its parent from merging; a leaf given back may leave its parent to merge. */
  lemma RestateKeepsShape(cs: seq<Cell>, tree: set<nat>, l: nat, state: CellState)
    requires WellFormed(cs, tree) && IsLeaf(cs, tree, l)
    requires (cs[l].state == Free && state == Used) || (cs[l].state == Used && state == Free)
    ensures var ds := cs[l := cs[l].(state := state)];
            WellFormed(ds, tree) &&
            FreeBytes(ds, tree) + (if state == Used then cs[l].size else 0)
              == FreeBytes(cs, tree) + (if state == Free then cs[l].size else 0) &&
            (state == Used && MergedExcept(cs, tree, cs[l].parent) ==> FullyMerged(ds, tree)) &&
            (state == Free && FullyMerged(cs, tree) ==> MergedExcept(ds, tree, cs[l].parent))
  {
    var ds := cs[l := cs[l].(state := state)];
    FreeBelowSwap(cs, tree, ds, tree, l, |cs|);
    forall i {:trigger NodeOk(ds, tree, i)} | i in tree ensures NodeOk(ds, tree, i) {
      RestateKeepsNode(cs, tree, l, state, i);
    }
    forall i, j {:trigger Disjoint(ds[i], ds[j])} | i in tree && j in tree && i < j && ds[i].IsRoot() && ds[j].IsRoot()
      ensures Disjoint(ds[i], ds[j])
    {
      assert Disjoint(cs[i], cs[j]);
    }
    hide FreeBelow;
    forall i {:trigger AllChildrenFree(ds, i)} | i in tree && cs[i].state == Split
      ensures i != cs[l].parent ==> (AllChildrenFree(ds, i) <==> AllChildrenFree(cs, i))
      ensures i == cs[l].parent && state == Used ==> !AllChildrenFree(ds, i)
    {
      if i == cs[l].parent { RestateParent(cs, tree, l, state); } else { RestateElsewhere(cs, tree, l, state, i); }
    }
  }

  lemma RestateKeepsNode(cs: seq<Cell>, tree: set<nat>, l: nat, state: CellState, i: nat)
    requires WellFormed(cs, tree) && IsLeaf(cs, tree, l) && i in tree && (state == Used || state == Free)
    ensures NodeOk(cs[l := cs[l].(state := state)], tree, i)
  {
    hide IsCellSize;
    var ds := cs[l := cs[l].(state := state)];
    assert NodeOk(cs, tree, i) && NodeOk(cs, tree, l);
    if cs[i].state == Split {
      assert ChildOk(ds, tree, i, 0) && ChildOk(ds, tree, i, 1) && ChildOk(ds, tree, i, 2) && ChildOk(ds, tree, i, 3);
    }
  }

  /** A split cell that is not the parent of `l` has the children it had, in the states they had. */
  lemma RestateElsewhere(cs: seq<Cell>, tree: set<nat>, l: nat, state: CellState, i: nat)
    requires WellFormed(cs, tree) && IsLeaf(cs, tree, l) && i in tree && cs[i].state == Split && i != cs[l].parent
    ensures AllChildrenFree(cs[l := cs[l].(state := state)], i) <==> AllChildrenFree(cs, i)
  {
    hide IsCellSize;
    assert NodeOk(cs, tree, i);
    assert l !in cs[i].children;
  }

  lemma RestateParent(cs: seq<Cell>, tree: set<nat>, l: nat, state: CellState)
    requires WellFormed(cs, tree) && IsLeaf(cs, tree, l) && cs[l].parent in tree && cs[cs[l].parent].state == Split
    ensures state == Used ==> !AllChildrenFree(cs[l := cs[l].(state := state)], cs[l].parent)
  {
    hide IsCellSize;
    assert NodeOk(cs, tree, l);
    var k :| 0 <= k < 4 && cs[cs[l].parent].children[k] == l;
    assert cs[l := cs[l].(state := state)][cs[cs[l].parent].children[k]].state == state;
  }

  /** A new root, apart from the others, joins the tree as one free cell. */
  lemma RootKeepsShape(cs: seq<Cell>, tree: set<nat>, c: Cell)
    requires WellFormed(cs, tree) && |cs| < CELL_POOL_SIZE
    requires c.state == Free && c.IsRoot() && c.children == NO_CHILDREN
    requires IsCellSize(c.size) && c.base % PAGE_SIZE == 0 && c.base > 0
    requires forall r :: r in tree && cs[r].IsRoot() ==> Disjoint(cs[r], c)
    ensures var ds, t := cs + [c], tree + {|cs|};
            WellFormed(ds, t) && FreeBytes(ds, t) == FreeBytes(cs, tree) + c.size &&
            (FullyMerged(cs, tree) ==> FullyMerged(ds, t))
  {
    var ds, t, n := cs + [c], tree + {|cs|}, |cs|;
    FreeBelowSwap(cs + [c], tree, ds, t, n, n);
    OrphanKeepsFreeBelow(cs, ds, tree, n);
    forall i {:trigger NodeOk(ds, t, i)} | i in t ensures NodeOk(ds, t, i) {
      if i < n { RootKeepsNode(cs, tree, c, i); }
    }
    forall i, j {:trigger Disjoint(ds[i], ds[j])} | i in t && j in t && i < j && ds[i].IsRoot() && ds[j].IsRoot()
      ensures Disjoint(ds[i], ds[j])
    {
      if j < n { assert Disjoint(cs[i], cs[j]); } else { assert Disjoint(cs[i], c); }
    }
    forall i {:trigger AllChildrenFree(ds, i)} | i in tree && cs[i].state == Split
      ensures AllChildrenFree(ds, i) <==> AllChildrenFree(cs, i)
    {
      RootKeepsNode(cs, tree, c, i);
    }
  }

  lemma RootKeepsNode(cs: seq<Cell>, tree: set<nat>, c: Cell, i: nat)
    requires WellFormed(cs, tree) && i in tree && |c.children| == 4
    ensures var ds, t := cs + [c], tree + {|cs|};
            NodeOk(ds, t, i) && (cs[i].state == Split ==> (AllChildrenFree(ds, i) <==> AllChildrenFree(cs, i)))
  {
    var ds, t := cs + [c], tree + {|cs|};
    assert NodeOk(cs, tree, i);
    if cs[i].state == Split {
      assert ChildOk(ds, t, i, 0) && ChildOk(ds, t, i, 1) && ChildOk(ds, t, i, 2) && ChildOk(ds, t, i, 3);
    }
  }

  // --------------------------------------------------------------- split

  function Quarter(c: Cell, idx: nat, k: nat): Cell {
    Cell(c.base + k * (c.size / 4), c.size / 4, Free, idx, NO_CHILDREN)
  }

  function SplitCells(cs: seq<Cell>, idx: nat): seq<Cell>
    requires idx < |cs|
  {
    var n := |cs|;
    cs[idx := cs[idx].(state := Split, children := [n, n + 1, n + 2, n + 3])]
      + [Quarter(cs[idx], idx, 0), Quarter(cs[idx], idx, 1), Quarter(cs[idx], idx, 2), Quarter(cs[idx], idx, 3)]
  }

  ghost function SplitTree(cs: seq<Cell>, tree: set<nat>): set<nat> {
    tree + {|cs|, |cs| + 1, |cs| + 2, |cs| + 3}
  }

  lemma SplitCellsAt(cs: seq<Cell>, idx: nat)
    requires idx < |cs|
    ensures var n, ds := |cs|, SplitCells(cs, idx);
            |ds| == n + 4 && ds[idx] == cs[idx].(state := Split, children := [n, n + 1, n + 2, n + 3]) &&
            (forall i :: 0 <= i < n && i != idx ==> ds[i] == cs[i]) &&
            ds[n] == Quarter(cs[idx], idx, 0) && ds[n + 1] == Quarter(cs[idx], idx, 1) &&
            ds[n + 2] == Quarter(cs[idx], idx, 2) && ds[n + 3] == Quarter(cs[idx], idx, 3)
  {
  }

  lemma SplitKeepsNode(cs: seq<Cell>, tree: set<nat>, idx: nat, i: nat)
    requires WellFormed(cs, tree) && idx in tree && cs[idx].state == Free && cs[idx].size >= 4 * PAGE_SIZE && i in tree
    ensures NodeOk(SplitCells(cs, idx), SplitTree(cs, tree), i)
  {
    hide SplitCells;
    SplitCellsAt(cs, idx);
    var ds, t := SplitCells(cs, idx), SplitTree(cs, tree);
    assert NodeOk(cs, tree, i);
    if ds[i].state == Split {
      assert ChildOk(ds, t, i, 0) && ChildOk(ds, t, i, 1) && ChildOk(ds, t, i, 2) && ChildOk(ds, t, i, 3);
    }
  }

  lemma SplitMakesNode(cs: seq<Cell>, tree: set<nat>, idx: nat, k: nat)
    requires WellFormed(cs, tree) && idx in tree && cs[idx].state == Free && cs[idx].size >= 4 * PAGE_SIZE && k < 4
    ensures NodeOk(SplitCells(cs, idx), SplitTree(cs, tree), |cs| + k)
  {
    hide SplitCells;
    SplitCellsAt(cs, idx);
    var q := cs[idx].size / 4;
    assert NodeOk(cs, tree, idx);
    CellSizeIsPages(q);
    assert SplitCells(cs, idx)[idx].children[k] == |cs| + k;
    assert SplitCells(cs, idx)[|cs| + k] == Quarter(cs[idx], idx, k);
    assert (k * q) % PAGE_SIZE == 0 by {
      FourPages(q);
      assert k == 0 || k == 1 || k == 2 || k == 3;
    }
  }

  lemma SplitKeepsShape(cs: seq<Cell>, tree: set<nat>, idx: nat)
    requires WellFormed(cs, tree) && idx in tree && cs[idx].state == Free
    requires cs[idx].size >= 4 * PAGE_SIZE && |cs| + 4 <= CELL_POOL_SIZE
    ensures WellFormed(SplitCells(cs, idx), SplitTree(cs, tree))
  {
    hide SplitCells;
    SplitCellsAt(cs, idx);
    var ds, t := SplitCells(cs, idx), SplitTree(cs, tree);
    forall i {:trigger NodeOk(ds, t, i)} | i in t ensures NodeOk(ds, t, i) {
      if i in tree { SplitKeepsNode(cs, tree, idx, i); } else { SplitMakesNode(cs, tree, idx, i - |cs|); }
    }
    forall i, j {:trigger Disjoint(ds[i], ds[j])} | i in t && j in t && i < j && ds[i].IsRoot() && ds[j].IsRoot()
      ensures Disjoint(ds[i], ds[j])
    {
      assert i < |cs| && j < |cs|;
      assert Disjoint(cs[i], cs[j]);
    }
  }

  lemma SplitKeepsFreeBytes(cs: seq<Cell>, tree: set<nat>, idx: nat)
    requires WellFormed(cs, tree) && idx in tree && cs[idx].state == Free && cs[idx].size >= 4 * PAGE_SIZE
    ensures FreeBytes(SplitCells(cs, idx), SplitTree(cs, tree)) == FreeBytes(cs, tree)
  {
    hide SplitCells;
    SplitCellsAt(cs, idx);
    assert cs[idx].size == 4 * (cs[idx].size / 4) by { assert NodeOk(cs, tree, idx); }
    hide WellFormed;
    var ds, t, n := SplitCells(cs, idx), SplitTree(cs, tree), |cs|;
    FreeBelowSwap(cs, tree, ds, t, idx, n);
    assert FreeBelow(ds, t, n + 1) == FreeBelow(ds, t, n) + cs[idx].size / 4;
    assert FreeBelow(ds, t, n + 2) == FreeBelow(ds, t, n + 1) + cs[idx].size / 4;
    assert FreeBelow(ds, t, n + 3) == FreeBelow(ds, t, n + 2) + cs[idx].size / 4;
    assert FreeBelow(ds, t, n + 4) == FreeBelow(ds, t, n + 3) + cs[idx].size / 4;
  }

  lemma SplitKeepsMerged(cs: seq<Cell>, tree: set<nat>, idx: nat)
    requires WellFormed(cs, tree) && idx in tree && cs[idx].state == Free
    requires MergedExcept(cs, tree, cs[idx].parent)
    ensures MergedExcept(SplitCells(cs, idx), SplitTree(cs, tree), idx)
  {
    var ds, t := SplitCells(cs, idx), SplitTree(cs, tree);
    forall i | i in t && i < |ds| && ds[i].state == Split && i != idx ensures !AllChildrenFree(ds, i) {
      assert NodeOk(cs, tree, i);
      if i == cs[idx].parent {
        assert NodeOk(cs, tree, idx);
        var k :| 0 <= k < 4 && cs[i].children[k] == idx;
        assert ds[ds[i].children[k]].state == Split;
      } else {
        var k :| 0 <= k < 4 && !(cs[i].children[k] < |cs| && cs[cs[i].children[k]].state == Free);
        assert ds[ds[i].children[k]].state != Free;
      }
    }
  }

  /** A split that ran out of nodes: the cell keeps its state, and the orphan
      quarters it appended are not part of the tree. */
  function OrphanCells(cs: seq<Cell>, idx: nat, kids: seq<nat>, orphans: seq<Cell>): seq<Cell>
    requires idx < |cs|
  {
    cs[idx := cs[idx].(children := kids)] + orphans
  }

  lemma OrphanKeepsNode(cs: seq<Cell>, tree: set<nat>, idx: nat, kids: seq<nat>, orphans: seq<Cell>, i: nat)
    requires WellFormed(cs, tree) && idx in tree && cs[idx].state == Free && |kids| == 4 && i in tree
    requires forall k :: 0 <= k < |orphans| ==> |orphans[k].children| == 4
    ensures var ds := OrphanCells(cs, idx, kids, orphans);
            NodeOk(ds, tree, i) && (cs[i].state == Split ==> AllChildrenFree(ds, i) == AllChildrenFree(cs, i))
  {
    var ds := OrphanCells(cs, idx, kids, orphans);
    assert NodeOk(cs, tree, i);
    assert i != idx ==> ds[i] == cs[i];
    if cs[i].state == Split {
      assert ChildOk(ds, tree, i, 0) && ChildOk(ds, tree, i, 1) && ChildOk(ds, tree, i, 2) && ChildOk(ds, tree, i, 3);
    }
  }

  lemma OrphanKeepsShape(cs: seq<Cell>, tree: set<nat>, idx: nat, kids: seq<nat>, orphans: seq<Cell>)
    requires WellFormed(cs, tree) && idx in tree && cs[idx].state == Free && |kids| == 4
    requires |cs| + |orphans| <= CELL_POOL_SIZE
    requires forall k :: 0 <= k < |orphans| ==> orphans[k] == Quarter(cs[idx], idx, k)
    ensures var ds := OrphanCells(cs, idx, kids, orphans);
            WellFormed(ds, tree) && FreeBytes(ds, tree) == FreeBytes(cs, tree) &&
            forall p :: MergedExcept(cs, tree, p) ==> MergedExcept(ds, tree, p)
  {
    var ds := OrphanCells(cs, idx, kids, orphans);
    assert idx < NONE;
    OrphanKeepsFreeBelow(cs, ds, tree, |ds|);
    forall i {:trigger NodeOk(ds, tree, i)} {:trigger AllChildrenFree(ds, i)} | i in tree
      ensures NodeOk(ds, tree, i) && (cs[i].state == Split ==> AllChildrenFree(ds, i) == AllChildrenFree(cs, i))
    {
      OrphanKeepsNode(cs, tree, idx, kids, orphans, i);
    }
    hide NodeOk;
    hide AllChildrenFree;
    forall i, j {:trigger Disjoint(ds[i], ds[j])} | i in tree && j in tree && i < j && ds[i].IsRoot() && ds[j].IsRoot()
      ensures Disjoint(ds[i], ds[j])
    {
      assert Disjoint(cs[i], cs[j]);
    }
  }

  lemma {:induction false} OrphanKeepsFreeBelow(cs: seq<Cell>, ds: seq<Cell>, tree: set<nat>, n: nat)
    requires |cs| <= |ds| && n <= |ds|
    requires forall i :: i in tree ==> i < |cs|
    requires forall i :: 0 <= i < |cs| ==> ds[i].state == cs[i].state && ds[i].size == cs[i].size
    ensures FreeBelow(ds, tree, n) == FreeBelow(cs, tree, if n <= |cs| then n else |cs|)
  {
    if n > 0 { OrphanKeepsFreeBelow(cs, ds, tree, n - 1); }
  }

  // --------------------------------------------------------------- merge

  function Retired(c: Cell): Cell { c.(state := Reserved) }

  function MergeCells(cs: seq<Cell>, p: nat): seq<Cell>
    requires p < |cs| && |cs[p].children| == 4
    requires forall k :: 0 <= k < 4 ==> cs[p].children[k] < |cs|
  {
    var k := cs[p].children;
    var c0 := cs[k[0] := Retired(cs[k[0]])];
    var c1 := c0[k[1] := Retired(c0[k[1]])];
    var c2 := c1[k[2] := Retired(c1[k[2]])];
    var c3 := c2[k[3] := Retired(c2[k[3]])];
    c3[p := c3[p].(state := Free, children := NO_CHILDREN)]
  }

  ghost function MergeTree(cs: seq<Cell>, tree: set<nat>, p: nat): set<nat>
    requires p < |cs| && |cs[p].children| == 4
  {
    tree - {cs[p].children[0], cs[p].children[1], cs[p].children[2], cs[p].children[3]}
  }

  /** The four quarters of a split cell are four different cells, none of them the cell itself. */
  lemma QuartersDiffer(cs: seq<Cell>, tree: set<nat>, p: nat)
    requires WellFormed(cs, tree) && p in tree && cs[p].state == Split
    ensures forall k :: 0 <= k < 4 ==> p < cs[p].children[k] < |cs|
    ensures forall j, k :: 0 <= j < k < 4 ==> cs[p].children[j] != cs[p].children[k]
    ensures cs[p].size == 4 * (cs[p].size / 4) && cs[p].size / 4 >= PAGE_SIZE
  {
    assert NodeOk(cs, tree, p);
  }

  /** The cells when the first `i` quarters of `p` have been retired. */
  ghost function MergeProgress(cs: seq<Cell>, p: nat, i: nat): (r: seq<Cell>)
    requires p < |cs| && |cs[p].children| == 4 && i <= 4
    ensures |r| == |cs|
  {
    seq(|cs|, x requires 0 <= x < |cs| =>
      if x == p then cs[p].(children := NO_CHILDREN[..i] + cs[p].children[i..])
      else if x in cs[p].children[..i] then Retired(cs[x]) else cs[x])
  }

  lemma ProgressStart(cs: seq<Cell>, p: nat)
    requires p < |cs| && |cs[p].children| == 4
    ensures MergeProgress(cs, p, 0) == cs
  {
    assert NO_CHILDREN[..0] + cs[p].children[0..] == cs[p].children;
  }

  lemma ProgressStep(cs: seq<Cell>, p: nat, i: nat)
    requires p < |cs| && |cs[p].children| == 4 && i < 4
    requires forall k :: 0 <= k < 4 ==> p < cs[p].children[k] < |cs|
    requires forall j, k :: 0 <= j < k < 4 ==> cs[p].children[j] != cs[p].children[k]
    ensures var now, c := MergeProgress(cs, p, i), cs[p].children[i];
            && |now[p].children| == 4 && now[p].children[i] == c && c < |cs| && c != p
            && now[c := now[c].(state := Reserved)][p := now[p].(children := now[p].children[i := NONE])] ==
                 MergeProgress(cs, p, i + 1)
  {
    var now, c, k := MergeProgress(cs, p, i), cs[p].children[i], cs[p].children;
    var next := now[c := now[c].(state := Reserved)][p := now[p].(children := now[p].children[i := NONE])];
    assert (NO_CHILDREN[..i] + k[i..])[i := NONE] == NO_CHILDREN[..i + 1] + k[i + 1..];
    assert k[..i + 1] == k[..i] + [c];
    forall x | 0 <= x < |cs| ensures next[x] == MergeProgress(cs, p, i + 1)[x] {}
  }

  lemma ProgressDone(cs: seq<Cell>, p: nat, ds: seq<Cell>)
    requires p < |cs| && |cs[p].children| == 4 && |ds| == |cs|
    requires ds[p] == cs[p].(state := Free, children := NO_CHILDREN)
    requires forall i :: 0 <= i < |cs| && i != p ==> ds[i] == if i in cs[p].children then Retired(cs[i]) else cs[i]
    ensures MergeProgress(cs, p, 4)[p := MergeProgress(cs, p, 4)[p].(state := Free)] == ds
  {
    assert cs[p].children[..4] == cs[p].children && NO_CHILDREN[..4] + cs[p].children[4..] == NO_CHILDREN;
  }

  /** Merging changes the four quarters and their parent, and nothing else. */
  lemma MergeCellsAt(cs: seq<Cell>, tree: set<nat>, p: nat)
    requires WellFormed(cs, tree) && p in tree && cs[p].state == Split && AllChildrenFree(cs, p)
    ensures var ds := MergeCells(cs, p);
            |ds| == |cs| && ds[p] == cs[p].(state := Free, children := NO_CHILDREN) &&
            forall i :: 0 <= i < |cs| && i != p ==> ds[i] == if i in cs[p].children then Retired(cs[i]) else cs[i]
  {
    QuartersDiffer(cs, tree, p);
  }

  lemma MergeKeepsNode(cs: seq<Cell>, tree: set<nat>, p: nat, i: nat)
    requires WellFormed(cs, tree) && p in tree && cs[p].state == Split && AllChildrenFree(cs, p)
    requires i in MergeTree(cs, tree, p)
    ensures NodeOk(MergeCells(cs, p), MergeTree(cs, tree, p), i)
  {
    hide MergeCells;
    MergeCellsAt(cs, tree, p);
    var ds, t := MergeCells(cs, p), MergeTree(cs, tree, p);
    var kids := cs[p].children;
    assert NodeOk(cs, tree, i) && NodeOk(cs, tree, p);
    assert i !in kids;
    // A live cell's parent is split, so it is none of the four free quarters.
    assert !cs[i].IsRoot() ==> cs[i].parent !in kids;
    if i != p && cs[i].state == Split {
      MergeKeepsChild(cs, tree, p, i, 0);
      MergeKeepsChild(cs, tree, p, i, 1);
      MergeKeepsChild(cs, tree, p, i, 2);
      MergeKeepsChild(cs, tree, p, i, 3);
    }
  }

  lemma MergeKeepsChild(cs: seq<Cell>, tree: set<nat>, p: nat, i: nat, k: nat)
    requires WellFormed(cs, tree) && p in tree && cs[p].state == Split && AllChildrenFree(cs, p)
    requires i in MergeTree(cs, tree, p) && i != p && k < 4 && ChildOk(cs, tree, i, k)
    ensures |MergeCells(cs, p)| == |cs| && MergeCells(cs, p)[i] == cs[i]
    ensures ChildOk(MergeCells(cs, p), MergeTree(cs, tree, p), i, k)
  {
    hide MergeCells;
    MergeCellsAt(cs, tree, p);
    assert NodeOk(cs, tree, p);
    assert cs[i].children[k] !in cs[p].children;
  }

  lemma MergeKeepsShape(cs: seq<Cell>, tree: set<nat>, p: nat)
    requires WellFormed(cs, tree) && p in tree && cs[p].state == Split && AllChildrenFree(cs, p)
    ensures WellFormed(MergeCells(cs, p), MergeTree(cs, tree, p))
  {
    hide MergeCells;
    MergeCellsAt(cs, tree, p);
    var ds, t := MergeCells(cs, p), MergeTree(cs, tree, p);
    assert NodeOk(cs, tree, p);
    forall i {:trigger NodeOk(ds, t, i)} | i in t ensures NodeOk(ds, t, i) {
      MergeKeepsNode(cs, tree, p, i);
    }
    forall i, j {:trigger Disjoint(ds[i], ds[j])} | i in t && j in t && i < j && ds[i].IsRoot() && ds[j].IsRoot()
      ensures Disjoint(ds[i], ds[j])
    {
      assert Disjoint(cs[i], cs[j]);
    }
  }

  lemma MergeKeepsFreeBytes(cs: seq<Cell>, tree: set<nat>, p: nat)
    requires WellFormed(cs, tree) && p in tree && cs[p].state == Split && AllChildrenFree(cs, p)
    ensures FreeBytes(MergeCells(cs, p), MergeTree(cs, tree, p)) == FreeBytes(cs, tree)
  {
    hide MergeCells;
    MergeCellsAt(cs, tree, p);
    QuartersDiffer(cs, tree, p);
    assert NodeOk(cs, tree, p);
    hide WellFormed;
    var k, n := cs[p].children, |cs|;
    var t0 := tree - {k[0]};
    var t1 := t0 - {k[1]};
    var t2 := t1 - {k[2]};
    var t3 := t2 - {k[3]};
    FreeBelowSwap(cs, tree, cs, t0, k[0], n);
    FreeBelowSwap(cs, t0, cs, t1, k[1], n);
    FreeBelowSwap(cs, t1, cs, t2, k[2], n);
    FreeBelowSwap(cs, t2, cs, t3, k[3], n);
    assert t3 == MergeTree(cs, tree, p);
    FreeBelowSwap(cs, t3, MergeCells(cs, p), t3, p, n);
  }

  lemma MergeKeepsMerged(cs: seq<Cell>, tree: set<nat>, p: nat)
    requires WellFormed(cs, tree) && p in tree && cs[p].state == Split && AllChildrenFree(cs, p)
    requires MergedExcept(cs, tree, p)
    ensures MergedExcept(MergeCells(cs, p), MergeTree(cs, tree, p), cs[p].parent)
  {
    hide MergeCells;
    MergeCellsAt(cs, tree, p);
    var ds, t := MergeCells(cs, p), MergeTree(cs, tree, p);
    forall i | i in t && i < |ds| && ds[i].state == Split && i != cs[p].parent ensures !AllChildrenFree(ds, i) {
      assert i != p && ds[i] == cs[i];
      assert NodeOk(cs, tree, i);
      var k :| 0 <= k < 4 && !(cs[i].children[k] < |cs| && cs[cs[i].children[k]].state == Free);
      var c := cs[i].children[k];
      assert ChildOk(cs, tree, i, k);
      assert c != p;
      assert ds[c].state != Free;
    }
  }
}
