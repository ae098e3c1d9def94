/** How page allocations, one after the other, use up the physical memory manager (src/mem/pmm.c). */
module Stocks {
  import opened CellTree

  /** The free bytes, and the cell nodes in use. */
  datatype Stock = Stock(free: nat, nodes: nat)

  /** What `n` page allocations leave: each takes a page or, once the pool is exhausted, perhaps more. */
  ghost predicate Took(a: Stock, b: Stock, n: nat) {
    && b.free + n * PAGE_SIZE <= a.free && a.nodes <= b.nodes <= a.nodes + 40 * n
    && (b.nodes < CELL_POOL_SIZE || n == 0 ==> b.free + n * PAGE_SIZE == a.free)
  }

  /** Memory ran out before the last of `need` page allocations. */
  ghost predicate RanOut(a: Stock, b: Stock, need: nat) {
    b.free == 0 && exists n: nat :: n < need && Took(a, b, n)
  }

  /** All of `need` page allocations succeeded, or memory ran out before the last. */
  ghost predicate Drawn(a: Stock, b: Stock, need: nat, all: bool) {
    if all then Took(a, b, need) else RanOut(a, b, need)
  }

  lemma TookMore(a: Stock, b: Stock, c: Stock, n: nat, m: nat)
    requires Took(a, b, n) && Took(b, c, m)
    ensures Took(a, c, n + m)
  {
  }

  /** One series of allocations after another is a series. */
  lemma DrawnMore(a: Stock, b: Stock, c: Stock, n: nat, m: nat, first: bool, second: bool)
    requires Drawn(a, b, n, first) && Drawn(b, c, m, second)
    ensures Drawn(a, c, n + m, first && second)
  {
    if first && second {
      TookMore(a, b, c, n, m);
    } else if first {
      var x: nat :| x < m && Took(b, c, x);
      TookMore(a, b, c, n, x);
    } else {
      var x: nat :| x < n && Took(a, b, x);
      assert c == b;
    }
  }

  /** While the pool has nodes, a series succeeds exactly when there was memory for it. */
  lemma DrawnMeans(a: Stock, b: Stock, need: nat, all: bool)
    requires Drawn(a, b, need, all)
    ensures a.nodes + 40 * need < CELL_POOL_SIZE ==> (all <==> a.free >= need * PAGE_SIZE)
    ensures !all ==> b.free == 0
  {
    if !all { var n: nat :| n < need && Took(a, b, n); }
  }

  /** What giving memory back leaves. */
  ghost predicate Returned(a: Stock, b: Stock) { b.nodes == a.nodes && b.free >= a.free }
}
