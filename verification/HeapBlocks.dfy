/** The free-list part of the kernel heap (src/mem/heap.c) within its first arena. */
module HeapBlocks {

  const HEADER := 48
  const ALIGN := 16
  const NULL := 0
  const WORD := 0x1_0000_0000_0000_0000

  /** A block header, at its address. */
  datatype Block = Block(size: nat, free: bool, next: nat, prev: nat)

  /** Rounding up to 16 in 64-bit arithmetic. */
  function AlignUp(size: nat): (r: nat)
    ensures r % ALIGN == 0
    ensures size <= WORD - ALIGN ==> size <= r < size + ALIGN
  {
    (size + 15) % WORD / 16 * 16
  }

  /** Rounding serves every request except those within 16 bytes of the word size, which wrap round to nothing. */
  lemma AlignUpServes(size: nat)
    requires size < WORD
    ensures AlignUp(size) >= size <==> size <= WORD - ALIGN
    ensures size > WORD - ALIGN ==> AlignUp(size) == 0
  {
  }

  predicate Aligned(x: nat) { x % ALIGN == 0 }

  lemma AlignedCut(a: nat, size: nat, whole: nat)
    requires Aligned(a) && Aligned(size) && Aligned(whole) && size + HEADER <= whole
    ensures Aligned(a + HEADER + size) && Aligned(whole - size - HEADER)
  {
  }

  lemma AlignedSum(x: nat, y: nat)
    requires Aligned(x) && Aligned(y)
    ensures Aligned(x + HEADER + y)
  {
  }

  // ---- The list and the blocks it strings together ----

  function After(order: seq<nat>, i: nat, end: nat): nat { if i + 1 < |order| then order[i + 1] else end }

  function Before(order: seq<nat>, i: nat): nat
    requires i <= |order|
  {
    if i > 0 then order[i - 1] else NULL
  }

  /** The block at `a` reaches to `to`, and has these neighbours. */
  ghost predicate LinkIs(blocks: map<nat, Block>, a: nat, to: nat, next: nat, prev: nat) {
    && a in blocks && a > 0 && Aligned(a) && Aligned(blocks[a].size)
    && a + HEADER + blocks[a].size == to && blocks[a].next == next && blocks[a].prev == prev
  }

  ghost predicate LinkOk(blocks: map<nat, Block>, order: seq<nat>, end: nat, i: nat)
    requires i < |order|
  {
    LinkIs(blocks, order[i], After(order, i, end), After(order, i, NULL), Before(order, i))
  }

  /** The blocks tile the arena from `base` to `end`, and next and prev string them together in order. */
  ghost predicate Tiled(blocks: map<nat, Block>, order: seq<nat>, base: nat, end: nat) {
    && |order| > 0 && order[0] == base
    && (forall i {:trigger LinkOk(blocks, order, end, i)} :: 0 <= i < |order| ==> LinkOk(blocks, order, end, i))
    && (forall a :: a in blocks ==> a in order)
    && (forall i, j :: 0 <= i < j < |order| ==> order[i] < order[j])
  }

  ghost predicate Listed(blocks: map<nat, Block>, order: seq<nat>) {
    forall i :: 0 <= i < |order| ==> order[i] in blocks
  }

  lemma TiledListed(blocks: map<nat, Block>, order: seq<nat>, base: nat, end: nat)
    requires Tiled(blocks, order, base, end)
    ensures |order| > 0 && Listed(blocks, order)
  {
    forall i | 0 <= i < |order| ensures order[i] in blocks { assert LinkOk(blocks, order, end, i); }
  }

  /** Two blocks' payloads lie apart, whatever their positions. */
  lemma {:induction false} BlocksApart(blocks: map<nat, Block>, order: seq<nat>, base: nat, end: nat, i: nat, j: nat)
    requires Tiled(blocks, order, base, end) && i < j < |order|
    ensures order[i] in blocks && order[i] + HEADER + blocks[order[i]].size <= order[j]
    decreases j
  {
    assert LinkOk(blocks, order, end, i);
    if i + 1 < j { assert order[i + 1] < order[j]; }
  }

  /** next and prev undo each other. */
  lemma NextPrevInverse(blocks: map<nat, Block>, order: seq<nat>, base: nat, end: nat, a: nat)
    requires Tiled(blocks, order, base, end) && a in blocks
    ensures blocks[a].next != NULL ==> blocks[a].next in blocks && blocks[blocks[a].next].prev == a
    ensures blocks[a].prev != NULL ==> blocks[a].prev in blocks && blocks[blocks[a].prev].next == a
  {
    var i :| 0 <= i < |order| && order[i] == a;
    assert LinkOk(blocks, order, end, i);
    if i + 1 < |order| { assert LinkOk(blocks, order, end, i + 1); }
    if i > 0 { assert LinkOk(blocks, order, end, i - 1); }
  }

  // ---- Marking, splitting and merging ----

  function Marked(blocks: map<nat, Block>, a: nat, free: bool): map<nat, Block>
    requires a in blocks
  {
    blocks[a := blocks[a].(free := free)]
  }

  lemma MarkKeeps(blocks: map<nat, Block>, order: seq<nat>, base: nat, end: nat, a: nat, free: bool)
    requires Tiled(blocks, order, base, end) && a in blocks
    ensures Tiled(Marked(blocks, a, free), order, base, end)
  {
    var blocks' := Marked(blocks, a, free);
    forall i | 0 <= i < |order| ensures LinkOk(blocks', order, end, i) { assert LinkOk(blocks, order, end, i); }
  }

  /** The headers after the block at `a` is cut down to `size` bytes: the rest is a free block behind it. */
  function Cut(blocks: map<nat, Block>, a: nat, size: nat): map<nat, Block>
    requires a in blocks && size + HEADER <= blocks[a].size
  {
    var b, n := blocks[a], a + HEADER + size;
    var rest := Block(b.size - size - HEADER, true, b.next, a);
    var linked := if b.next != NULL && b.next in blocks then blocks[b.next := blocks[b.next].(prev := n)] else blocks;
    linked[n := rest][a := b.(size := size, next := n)]
  }

  lemma CutKeeps(blocks: map<nat, Block>, order: seq<nat>, base: nat, end: nat, i: nat, size: nat)
    requires Tiled(blocks, order, base, end) && i < |order| && order[i] in blocks
    requires Aligned(size) && size + HEADER <= blocks[order[i]].size
    ensures var n := order[i] + HEADER + size;
            n !in blocks && Tiled(Cut(blocks, order[i], size), Put(order, i, n), base, end)
  {
    hide Aligned;
    var a := order[i];
    var n := a + HEADER + size;
    var blocks', order' := Cut(blocks, a, size), Put(order, i, n);
    assert LinkOk(blocks, order, end, i);
    Between(blocks, order, base, end, i, n);
    forall k | 0 <= k < |order'|
      ensures LinkOk(blocks', order', end, k)
    {
      CutLink(blocks, order, base, end, i, size, k);
    }
    forall x | x in blocks' ensures x in order' { CutMember(blocks, order, base, end, i, n, x); }
    forall j, k | 0 <= j < k < |order'| ensures order'[j] < order'[k] {
      assert order'[j] == if j <= i then order[j] else if j == i + 1 then n else order[j - 1];
      assert order'[k] == if k <= i then order[k] else if k == i + 1 then n else order[k - 1];
    }
  }

  /** No block starts inside another. */
  lemma Between(blocks: map<nat, Block>, order: seq<nat>, base: nat, end: nat, i: nat, n: nat)
    requires Tiled(blocks, order, base, end) && i < |order| && order[i] in blocks
    requires order[i] < n < order[i] + HEADER + blocks[order[i]].size
    ensures n !in blocks && (i + 1 < |order| ==> n < order[i + 1])
  {
    assert LinkOk(blocks, order, end, i);
    forall k | 0 <= k < |order| ensures order[k] != n {
      if k > i { BlocksApart(blocks, order, base, end, i, k); }
    }
  }

  lemma CutMember(blocks: map<nat, Block>, order: seq<nat>, base: nat, end: nat, i: nat, n: nat, x: nat)
    requires Tiled(blocks, order, base, end) && i < |order| && (x in blocks || x == n || x == order[i])
    ensures x in Put(order, i, n)
  {
    var order' := Put(order, i, n);
    if x == n { assert order'[i + 1] == n; } else {
      if x != order[i] { assert x in blocks; }
      assert x in order by { if x == order[i] { assert order[i] in order; } }
      var k :| 0 <= k < |order| && order[k] == x;
      assert order'[if k <= i then k else k + 1] == x;
    }
  }

  /** The list with `n` put behind position `i`. */
  function Put(order: seq<nat>, i: nat, n: nat): seq<nat>
    requires i < |order|
  {
    order[..i + 1] + [n] + order[i + 1..]
  }

  lemma PutNeighbours(order: seq<nat>, i: nat, n: nat, k: nat, end: nat)
    requires i < |order| && k <= |order|
    ensures |Put(order, i, n)| == |order| + 1
    ensures k <= i ==> Put(order, i, n)[k] == order[k] && Before(Put(order, i, n), k) == Before(order, k)
    ensures k < i ==> After(Put(order, i, n), k, end) == After(order, k, end)
    ensures After(Put(order, i, n), i, end) == n && Before(Put(order, i, n), i + 1) == order[i]
    ensures Put(order, i, n)[i + 1] == n
    ensures After(Put(order, i, n), i + 1, end) == After(order, i, end)
    ensures
      k > i + 1 ==> Put(order, i, n)[k] == order[k - 1] && After(Put(order, i, n), k, end) == After(order, k - 1, end)
    ensures k == i + 2 ==> Before(Put(order, i, n), k) == n
    ensures k > i + 2 ==> Before(Put(order, i, n), k) == Before(order, k - 1)
  {
  }

  /** What cutting does to each header. */
  lemma CutHeaders(blocks: map<nat, Block>, a: nat, size: nat, to: nat, next: nat, prev: nat)
    requires LinkIs(blocks, a, to, next, prev) && Aligned(size) && size + HEADER <= blocks[a].size
    requires a + HEADER + size !in blocks && next != a && (next != NULL ==> next in blocks)
    ensures LinkIs(Cut(blocks, a, size), a, a + HEADER + size, a + HEADER + size, prev)
    ensures LinkIs(Cut(blocks, a, size), a + HEADER + size, to, next, a)
    ensures forall x ::
      x in blocks && x != a && x != next ==> x in Cut(blocks, a, size) && Cut(blocks, a, size)[x] == blocks[x]
    ensures next != NULL ==>
      next in Cut(blocks, a, size) && Cut(blocks, a, size)[next] == blocks[next].(prev := a + HEADER + size)
  {
    AlignedCut(a, size, blocks[a].size);
  }

  lemma CutLink(blocks: map<nat, Block>, order: seq<nat>, base: nat, end: nat, i: nat, size: nat, k: nat)
    requires Tiled(blocks, order, base, end) && i < |order| && order[i] in blocks
    requires Aligned(size) && size + HEADER <= blocks[order[i]].size
    requires order[i] + HEADER + size !in blocks && k <= |order|
    ensures k < |Put(order, i, order[i] + HEADER + size)|
    ensures LinkOk(Cut(blocks, order[i], size), Put(order, i, order[i] + HEADER + size), end, k)
  {
    hide Put, Cut, Aligned;
    var a := order[i];
    var n := a + HEADER + size;
    assert LinkOk(blocks, order, end, i);
    if i + 1 < |order| { assert LinkOk(blocks, order, end, i + 1); }
    CutHeaders(blocks, a, size, After(order, i, end), After(order, i, NULL), Before(order, i));
    PutNeighbours(order, i, n, k, end);
    PutNeighbours(order, i, n, k, NULL);
    if k < i { assert LinkOk(blocks, order, end, k); } else if k > i + 1 { assert LinkOk(blocks, order, end, k - 1); }
  }

  /** The headers after the block behind `a` is merged into it. */
  function Merged(blocks: map<nat, Block>, a: nat): map<nat, Block>
    requires a in blocks && blocks[a].next in blocks && blocks[a].next != a
  {
    var b, n := blocks[a], blocks[a].next;
    var c := blocks[n];
    var cut := (blocks - {n})[a := b.(size := b.size + HEADER + c.size, next := c.next)];
    if c.next != NULL && c.next in cut && c.next != a then cut[c.next := cut[c.next].(prev := a)] else cut
  }

  lemma MergeKeeps(blocks: map<nat, Block>, order: seq<nat>, base: nat, end: nat, i: nat)
    requires Tiled(blocks, order, base, end) && i + 1 < |order|
    ensures order[i] in blocks && blocks[order[i]].next == order[i + 1] && order[i + 1] in blocks
    ensures order[i + 1] != order[i]
    ensures Tiled(Merged(blocks, order[i]), Drop(order, i), base, end)
  {
    hide Aligned;
    assert LinkOk(blocks, order, end, i);
    assert LinkOk(blocks, order, end, i + 1);
    var blocks', order' := Merged(blocks, order[i]), Drop(order, i);
    forall k | 0 <= k < |order'| ensures LinkOk(blocks', order', end, k) { MergeLink(blocks, order, base, end, i, k); }
    forall x | x in blocks' ensures x in order' { MergeMember(blocks, order, base, end, i, x); }
    forall j, k | 0 <= j < k < |order'| ensures order'[j] < order'[k] {
      assert order'[j] == if j <= i then order[j] else order[j + 1];
      assert order'[k] == if k <= i then order[k] else order[k + 1];
    }
  }

  lemma MergeMember(blocks: map<nat, Block>, order: seq<nat>, base: nat, end: nat, i: nat, x: nat)
    requires Tiled(blocks, order, base, end) && i + 1 < |order| && x in blocks && x != order[i + 1]
    ensures x in Drop(order, i)
  {
    var order' := Drop(order, i);
    var k :| 0 <= k < |order| && order[k] == x;
    assert order'[if k <= i then k else k - 1] == x;
  }

  /** The list without position `i + 1`. */
  function Drop(order: seq<nat>, i: nat): seq<nat>
    requires i + 1 < |order|
  {
    order[..i + 1] + order[i + 2..]
  }

  lemma DropNeighbours(order: seq<nat>, i: nat, k: nat, end: nat)
    requires i + 1 < |order| && k + 1 < |order|
    ensures |Drop(order, i)| == |order| - 1
    ensures k <= i ==> Drop(order, i)[k] == order[k] && Before(Drop(order, i), k) == Before(order, k)
    ensures k < i ==> After(Drop(order, i), k, end) == After(order, k, end)
    ensures After(Drop(order, i), i, end) == After(order, i + 1, end)
    ensures k > i ==> Drop(order, i)[k] == order[k + 1] && After(Drop(order, i), k, end) == After(order, k + 1, end)
    ensures k == i + 1 ==> Before(Drop(order, i), k) == order[i]
    ensures k > i + 1 ==> Before(Drop(order, i), k) == Before(order, k + 1)
  {
  }

  /** What merging does to each header. */
  lemma MergeHeaders(blocks: map<nat, Block>, a: nat, n: nat, to: nat, third: nat, prev: nat)
    requires LinkIs(blocks, a, n, n, prev) && LinkIs(blocks, n, to, third, a) && third != a && third != n
    requires third != NULL ==> third in blocks
    ensures LinkIs(Merged(blocks, a), a, to, third, prev)
    ensures forall x ::
      x in blocks && x != a && x != n && x != third ==> x in Merged(blocks, a) && Merged(blocks, a)[x] == blocks[x]
    ensures third != NULL ==> third in Merged(blocks, a) && Merged(blocks, a)[third] == blocks[third].(prev := a)
  {
    AlignedSum(blocks[a].size, blocks[n].size);
  }

  lemma MergeLink(blocks: map<nat, Block>, order: seq<nat>, base: nat, end: nat, i: nat, k: nat)
    requires Tiled(blocks, order, base, end) && i + 1 < |order| && k + 1 < |order|
    requires order[i] in blocks && blocks[order[i]].next == order[i + 1] && order[i + 1] in blocks
    requires order[i + 1] != order[i]
    ensures k < |Drop(order, i)| && LinkOk(Merged(blocks, order[i]), Drop(order, i), end, k)
  {
    hide Drop, Merged, Aligned;
    assert LinkOk(blocks, order, end, i);
    assert LinkOk(blocks, order, end, i + 1);
    if i + 2 < |order| { assert LinkOk(blocks, order, end, i + 2); }
    MergeHeaders(blocks, order[i], order[i + 1], After(order, i + 1, end), After(order, i + 1, NULL), Before(order, i));
    DropNeighbours(order, i, k, end);
    DropNeighbours(order, i, k, NULL);
    if k < i { assert LinkOk(blocks, order, end, k); } else if k > i { assert LinkOk(blocks, order, end, k + 1); }
  }

  // ---- Which neighbours are free ----

  ghost predicate PairOk(blocks: map<nat, Block>, order: seq<nat>, i: nat)
    requires i + 1 < |order|
  {
    order[i] in blocks && order[i + 1] in blocks && !(blocks[order[i]].free && blocks[order[i + 1]].free)
  }

  /** Only the neighbours of position `i` may be free together with it. */
  ghost predicate NearlyCoalesced(blocks: map<nat, Block>, order: seq<nat>, i: nat) {
    forall k {:trigger PairOk(blocks, order, k)} ::
      0 <= k && k + 1 < |order| && k != i && k + 1 != i ==> PairOk(blocks, order, k)
  }

  /** No two neighbours are both free. */
  ghost predicate Coalesced(blocks: map<nat, Block>, order: seq<nat>) {
    forall k {:trigger PairOk(blocks, order, k)} :: 0 <= k && k + 1 < |order| ==> PairOk(blocks, order, k)
  }

  /** The blocks in use, and their sizes. */
  ghost function Used(blocks: map<nat, Block>): map<nat, nat> {
    map a | a in blocks && !blocks[a].free :: blocks[a].size
  }

  lemma TakeWhole(blocks: map<nat, Block>, order: seq<nat>, base: nat, end: nat, i: nat)
    requires Tiled(blocks, order, base, end) && Coalesced(blocks, order) && i < |order| && order[i] in blocks
    requires blocks[order[i]].free
    ensures Tiled(Marked(blocks, order[i], false), order, base, end)
    ensures Coalesced(Marked(blocks, order[i], false), order)
    ensures Used(Marked(blocks, order[i], false)) == Used(blocks)[order[i] := blocks[order[i]].size]
  {
    MarkKeeps(blocks, order, base, end, order[i], false);
    var blocks' := Marked(blocks, order[i], false);
    forall k | 0 <= k && k + 1 < |order| ensures PairOk(blocks', order, k) { assert PairOk(blocks, order, k); }
  }

  lemma TakePart(blocks: map<nat, Block>, order: seq<nat>, base: nat, end: nat, i: nat, size: nat)
    requires Tiled(blocks, order, base, end) && Coalesced(blocks, order) && i < |order| && order[i] in blocks
    requires blocks[order[i]].free
    requires Aligned(size) && size + HEADER <= blocks[order[i]].size
    ensures var n := order[i] + HEADER + size;
            && order[i] in Cut(blocks, order[i], size) && n !in blocks
            && Tiled(Marked(Cut(blocks, order[i], size), order[i], false), Put(order, i, n), base, end)
            && Coalesced(Marked(Cut(blocks, order[i], size), order[i], false), Put(order, i, n))
            && Used(Marked(Cut(blocks, order[i], size), order[i], false)) == Used(blocks)[order[i] := size]
  {
    hide Aligned;
    var a := order[i];
    var n := a + HEADER + size;
    CutKeeps(blocks, order, base, end, i, size);
    var cut := Cut(blocks, a, size);
    MarkKeeps(cut, Put(order, i, n), base, end, a, false);
    var blocks', order' := Marked(cut, a, false), Put(order, i, n);
    assert LinkOk(blocks, order, end, i);
    forall k | 0 <= k && k + 1 < |order'| ensures PairOk(blocks', order', k) {
      TakenPair(blocks, order, base, end, i, size, k);
    }
    CutUsed(blocks, a, size);
  }

  lemma CutUsed(blocks: map<nat, Block>, a: nat, size: nat)
    requires a in blocks && blocks[a].free && size + HEADER <= blocks[a].size && a + HEADER + size !in blocks
    requires blocks[a].next != a
    ensures a in Cut(blocks, a, size) && Used(Marked(Cut(blocks, a, size), a, false)) == Used(blocks)[a := size]
  {
  }

  lemma PutAt(order: seq<nat>, i: nat, n: nat, k: nat)
    requires i < |order| && k <= |order|
    ensures |Put(order, i, n)| == |order| + 1
    ensures Put(order, i, n)[k] == if k <= i then order[k] else if k == i + 1 then n else order[k - 1]
  {
  }

  lemma MarkedAt(blocks: map<nat, Block>, a: nat)
    requires a in blocks
    ensures Marked(blocks, a, false).Keys == blocks.Keys
    ensures forall x :: x in blocks ==> Marked(blocks, a, false)[x].free == (x != a && blocks[x].free)
  {
  }

  /** Two blocks of which one is taken or was in use are not both free once the block at `a` is taken. */
  lemma PairTaken(blocks: map<nat, Block>, a: nat, size: nat, x: nat, y: nat)
    requires a in blocks && size + HEADER <= blocks[a].size && a + HEADER + size !in blocks
    requires (x in blocks || x == a + HEADER + size) && (y in blocks || y == a + HEADER + size)
    requires x == a || y == a || (x in blocks && !blocks[x].free) || (y in blocks && !blocks[y].free)
    ensures a in Cut(blocks, a, size)
    ensures var after := Marked(Cut(blocks, a, size), a, false);
            x in after && y in after && !(after[x].free && after[y].free)
  {
    hide Cut, Marked;
    CutFree(blocks, a, size);
    MarkedAt(Cut(blocks, a, size), a);
  }

  lemma TakenPair(blocks: map<nat, Block>, order: seq<nat>, base: nat, end: nat, i: nat, size: nat, k: nat)
    requires Tiled(blocks, order, base, end) && Coalesced(blocks, order) && i < |order| && order[i] in blocks
    requires blocks[order[i]].free
    requires Aligned(size) && size + HEADER <= blocks[order[i]].size && order[i] + HEADER + size !in blocks
    requires k < |order|
    ensures var n := order[i] + HEADER + size;
            && order[i] in Cut(blocks, order[i], size) && k + 1 < |Put(order, i, n)|
            && PairOk(Marked(Cut(blocks, order[i], size), order[i], false), Put(order, i, n), k)
  {
    hide Put, Cut, Aligned, Tiled, Marked;
    var a := order[i];
    var n := a + HEADER + size;
    PutAt(order, i, n, k);
    PutAt(order, i, n, k + 1);
    if k < i {
      assert PairOk(blocks, order, k);
      PairTaken(blocks, a, size, order[k], order[k + 1]);
    } else if k == i {
      PairTaken(blocks, a, size, a, n);
    } else if k == i + 1 {
      assert PairOk(blocks, order, i);
      PairTaken(blocks, a, size, n, order[i + 1]);
    } else {
      assert PairOk(blocks, order, k - 1);
      PairTaken(blocks, a, size, order[k - 1], order[k]);
    }
  }

  lemma CutFree(blocks: map<nat, Block>, a: nat, size: nat)
    requires a in blocks && size + HEADER <= blocks[a].size && a + HEADER + size !in blocks
    ensures forall x :: x in blocks ==> x in Cut(blocks, a, size) && Cut(blocks, a, size)[x].free == blocks[x].free
    ensures a + HEADER + size in Cut(blocks, a, size)
  {
  }

  lemma ReleaseMark(blocks: map<nat, Block>, order: seq<nat>, base: nat, end: nat, i: nat)
    requires Tiled(blocks, order, base, end) && Coalesced(blocks, order) && i < |order| && order[i] in blocks
    requires !blocks[order[i]].free
    ensures Tiled(Marked(blocks, order[i], true), order, base, end)
    ensures NearlyCoalesced(Marked(blocks, order[i], true), order, i)
    ensures Used(Marked(blocks, order[i], true)) == Used(blocks) - {order[i]}
  {
    MarkKeeps(blocks, order, base, end, order[i], true);
    var blocks' := Marked(blocks, order[i], true);
    forall k | 0 <= k && k + 1 < |order| && k != i && k + 1 != i
      ensures PairOk(blocks', order, k)
    {
      assert PairOk(blocks, order, k);
    }
  }

  lemma DropAt(order: seq<nat>, i: nat, k: nat)
    requires i + 1 < |order| && k + 1 < |order|
    ensures |Drop(order, i)| == |order| - 1 && Drop(order, i)[k] == if k <= i then order[k] else order[k + 1]
  {
  }

  lemma MergedAt(blocks: map<nat, Block>, a: nat, x: nat)
    requires a in blocks && blocks[a].next in blocks && blocks[a].next != a && x in blocks && x != blocks[a].next
    ensures x in Merged(blocks, a) && Merged(blocks, a)[x].free == blocks[x].free
  {
  }

  /** Merging two free blocks: what may still be wrong is on one side only. */
  lemma MergePair(blocks: map<nat, Block>, order: seq<nat>, base: nat, end: nat, i: nat, k: nat)
    requires Tiled(blocks, order, base, end) && i + 1 < |order| && k + 2 < |order|
    requires order[i] in blocks && order[i + 1] in blocks && blocks[order[i]].next == order[i + 1]
    requires order[i + 1] != order[i]
    requires if k < i then PairOk(blocks, order, k) else PairOk(blocks, order, k + 1)
    requires k == i ==> blocks[order[i + 1]].free
    ensures k + 1 < |Drop(order, i)| && PairOk(Merged(blocks, order[i]), Drop(order, i), k)
  {
    hide Drop, Merged, Aligned, LinkOk;
    DropAt(order, i, k);
    DropAt(order, i, k + 1);
    var x, y := Drop(order, i)[k], Drop(order, i)[k + 1];
    assert x != order[i + 1] && y != order[i + 1];
    assert k == i ==> x == order[i];
    hide Tiled;
    MergedAt(blocks, order[i], x);
    MergedAt(blocks, order[i], y);
  }

  lemma MergeFree(blocks: map<nat, Block>, a: nat)
    requires a in blocks && blocks[a].next in blocks && blocks[a].next != a
    ensures a in Merged(blocks, a)
    ensures forall x :: x in Merged(blocks, a) ==> x in blocks && Merged(blocks, a)[x].free == blocks[x].free
    ensures blocks[a].free && blocks[blocks[a].next].free ==> Used(Merged(blocks, a)) == Used(blocks)
  {
  }

  /** Payloads in use are aligned, lie inside the arena and never overlap. */
  lemma PayloadsApart(blocks: map<nat, Block>, order: seq<nat>, base: nat, end: nat, a: nat, b: nat)
    requires Tiled(blocks, order, base, end) && a in Used(blocks) && b in Used(blocks) && a < b
    ensures Aligned(a + HEADER) && base <= a && a + HEADER + Used(blocks)[a] <= b && b + HEADER + Used(blocks)[b] <= end
  {
    hide Aligned;
    var i :| 0 <= i < |order| && order[i] == a;
    var j :| 0 <= j < |order| && order[j] == b;
    assert i < j;
    BlocksApart(blocks, order, base, end, i, j);
    PayloadAligned(blocks, order, base, end, i);
    InArena(blocks, order, base, end, j);
    assert i > 0 ==> order[0] < order[i];
  }

  lemma PayloadAligned(blocks: map<nat, Block>, order: seq<nat>, base: nat, end: nat, i: nat)
    requires Tiled(blocks, order, base, end) && i < |order|
    ensures Aligned(order[i] + HEADER)
  {
    assert LinkOk(blocks, order, end, i);
  }

  lemma InArena(blocks: map<nat, Block>, order: seq<nat>, base: nat, end: nat, j: nat)
    requires Tiled(blocks, order, base, end) && j < |order|
    ensures order[j] in blocks && order[j] + HEADER + blocks[order[j]].size <= end
  {
    hide Aligned;
    assert LinkOk(blocks, order, end, j);
    if j + 1 < |order| {
      BlocksApart(blocks, order, base, end, j, |order| - 1);
      assert LinkOk(blocks, order, end, |order| - 1);
    }
  }

  /** The free blocks with their sizes. */
  ghost function Frees(blocks: map<nat, Block>): map<nat, nat> {
    map a | a in blocks && blocks[a].free :: blocks[a].size
  }

  /** A block of free memory was taken for `size` bytes: what it had beyond these and another header and 16 bytes is a
      free block right behind them, and what it had otherwise went with them. */
  ghost predicate CutOff(before: map<nat, Block>, after: map<nat, Block>, a: nat, size: nat) {
    && a in before && a in after && size <= before[a].size
    && if before[a].size > size + 64 then
         && after[a].size == size
         && Frees(after) == (Frees(before) - {a})[a + 48 + size := before[a].size - size - 48]
       else after[a].size == before[a].size && Frees(after) == Frees(before) - {a}
  }

  lemma CutFrees(blocks: map<nat, Block>, a: nat, size: nat)
    requires a in blocks && blocks[a].size > size + HEADER + ALIGN && a + HEADER + size !in blocks
    ensures a in Cut(blocks, a, size) && a in Marked(Cut(blocks, a, size), a, false)
    ensures Marked(Cut(blocks, a, size), a, false)[a].size == size
    ensures CutOff(blocks, Marked(Cut(blocks, a, size), a, false), a, size)
  {
  }

  lemma WholeFrees(blocks: map<nat, Block>, a: nat, size: nat)
    requires a in blocks && size <= blocks[a].size <= size + HEADER + ALIGN
    ensures a in Marked(blocks, a, false) && Marked(blocks, a, false)[a].size == blocks[a].size
    ensures CutOff(blocks, Marked(blocks, a, false), a, size)
  {
  }

  /** The payloads in use decide the whole list: free memory is in as few blocks as they leave room for. */
  lemma UsedDecides(blocks: map<nat, Block>, order: seq<nat>, blocks': map<nat, Block>, order': seq<nat>, base: nat,
                    end: nat)
    requires Tiled(blocks, order, base, end) && Coalesced(blocks, order)
    requires Tiled(blocks', order', base, end) && Coalesced(blocks', order') && Used(blocks) == Used(blocks')
    ensures order == order' && blocks == blocks'
  {
    hide Coalesced, Used;
    TiledListed(blocks, order, base, end);
    TiledListed(blocks', order', base, end);
    SameStart(blocks, order, blocks', order', base, end, |order| - 1);
    if |order'| > |order| {
      SameStart(blocks, order, blocks', order', base, end, |order'| - 1);
    }
    forall i | 0 <= i < |order| ensures order[i] == order'[i] && blocks[order[i]] == blocks'[order[i]] {
      SameStart(blocks, order, blocks', order', base, end, i);
      assert LinkOk(blocks, order, end, i) && LinkOk(blocks', order', end, i);
      SameState(blocks, blocks', order[i]);
    }
    assert order == order';
    forall a | a in blocks || a in blocks' ensures a in blocks && a in blocks' && blocks[a] == blocks'[a] {
      assert a in order;
    }
  }

  lemma SameState(blocks: map<nat, Block>, blocks': map<nat, Block>, a: nat)
    requires Used(blocks) == Used(blocks') && a in blocks && a in blocks'
    ensures blocks[a].free == blocks'[a].free && (!blocks[a].free ==> blocks[a].size == blocks'[a].size)
  {
    assert a in Used(blocks) <==> a in Used(blocks');
  }

  lemma {:induction false} SameStart(blocks: map<nat, Block>, order: seq<nat>, blocks': map<nat, Block>,
                                     order': seq<nat>, base: nat, end: nat, i: nat)
    requires Tiled(blocks, order, base, end) && Coalesced(blocks, order)
    requires Tiled(blocks', order', base, end) && Coalesced(blocks', order') && Used(blocks) == Used(blocks')
    requires i < |order| || i < |order'|
    ensures i < |order| && i < |order'| && order[..i + 1] == order'[..i + 1]
    ensures After(order, i, end) == After(order', i, end)
    decreases i
  {
    hide Used;
    if i > 0 {
      SameStart(blocks, order, blocks', order', base, end, i - 1);
      BelowEnd(blocks, order, base, end, i - 1);
      BelowEnd(blocks', order', base, end, i - 1);
    }
    assert order[..i + 1] == order'[..i + 1] by {
      assert order[i] == order'[i];
      assert order[..i + 1] == order[..i] + [order[i]] && order'[..i + 1] == order'[..i] + [order'[i]];
    }
    NotShorter(blocks, order, blocks', order', base, end, i);
    NotShorter(blocks', order', blocks, order, base, end, i);
  }

  /** A block that is not the last one ends below the end of the arena. */
  lemma BelowEnd(blocks: map<nat, Block>, order: seq<nat>, base: nat, end: nat, i: nat)
    requires Tiled(blocks, order, base, end) && i < |order|
    ensures i + 1 < |order| <==> After(order, i, end) < end
    ensures i + 1 == |order| ==> After(order, i, end) == end
  {
    if i + 1 < |order| { EndsBelow(blocks, order, base, end, i + 1); }
  }

  lemma {:induction false} EndsBelow(blocks: map<nat, Block>, order: seq<nat>, base: nat, end: nat, i: nat)
    requires Tiled(blocks, order, base, end) && i < |order|
    ensures order[i] < end
    decreases |order| - i
  {
    assert LinkOk(blocks, order, end, i);
    if i + 1 < |order| { EndsBelow(blocks, order, base, end, i + 1); }
  }

  /** With the same payloads in use, a block does not end before the one that starts where it does. */
  lemma NotShorter(blocks: map<nat, Block>, order: seq<nat>, blocks': map<nat, Block>, order': seq<nat>, base: nat,
                   end: nat, i: nat)
    requires Tiled(blocks, order, base, end) && Coalesced(blocks, order)
    requires Tiled(blocks', order', base, end) && Used(blocks) == Used(blocks')
    requires i < |order| && i < |order'| && order[i] == order'[i]
    ensures After(order, i, end) >= After(order', i, end)
  {
    assert LinkOk(blocks, order, end, i) && LinkOk(blocks', order', end, i);
    SameState(blocks, blocks', order[i]);
    BelowEnd(blocks', order', base, end, i);
    if blocks[order[i]].free && After(order, i, end) < After(order', i, end) {
      BelowEnd(blocks, order, base, end, i);
      var n := order[i + 1];
      assert PairOk(blocks, order, i);
      assert LinkOk(blocks, order, end, i + 1);
      assert n in Used(blocks');
      Between(blocks', order', base, end, i, n);
      assert false;
    }
  }

  /** Once nothing is in use, the arena is one free block again. */
  lemma AllFreed(blocks: map<nat, Block>, order: seq<nat>, base: nat, end: nat)
    requires Tiled(blocks, order, base, end) && Coalesced(blocks, order) && Used(blocks) == map[]
    ensures order == [base] && end >= base + HEADER
    ensures blocks == map[base := Block(end - base - HEADER, true, NULL, NULL)]
  {
    TiledListed(blocks, order, base, end);
    forall a | a in blocks ensures blocks[a].free { assert a in Used(blocks) || blocks[a].free; }
    assert |order| > 1 ==> PairOk(blocks, order, 0);
    assert LinkOk(blocks, order, end, 0);
  }

  lemma MarkedIs(blocks: map<nat, Block>, a: nat, free: bool)
    requires a in blocks
    ensures a in Marked(blocks, a, free) && Marked(blocks, a, free)[a].free == free
  {
  }

  /** Only the block before position `i` may be free together with it. */
  ghost predicate LeftOpen(blocks: map<nat, Block>, order: seq<nat>, i: nat) {
    forall k {:trigger PairOk(blocks, order, k)} :: 0 <= k && k + 1 < |order| && k + 1 != i ==> PairOk(blocks, order, k)
  }

  lemma NextFine(blocks: map<nat, Block>, order: seq<nat>, base: nat, end: nat, i: nat)
    requires Tiled(blocks, order, base, end) && NearlyCoalesced(blocks, order, i) && i < |order| && order[i] in blocks
    requires blocks[order[i]].next != NULL ==> blocks[order[i]].next in blocks && !blocks[blocks[order[i]].next].free
    ensures LeftOpen(blocks, order, i)
  {
    assert LinkOk(blocks, order, end, i);
    if i + 1 < |order| { assert LinkOk(blocks, order, end, i + 1); }
    forall k | 0 <= k && k + 1 < |order| && k + 1 != i ensures PairOk(blocks, order, k) {}
  }

  lemma MergeNext(blocks: map<nat, Block>, order: seq<nat>, base: nat, end: nat, i: nat)
    requires Tiled(blocks, order, base, end) && NearlyCoalesced(blocks, order, i) && i < |order| && order[i] in blocks
    requires blocks[order[i]].next in blocks && blocks[order[i]].next != NULL
    requires blocks[order[i]].free && blocks[blocks[order[i]].next].free
    ensures i + 1 < |order| && blocks[order[i]].next != order[i] && i < |Drop(order, i)|
    ensures Drop(order, i)[i] == order[i]
    ensures var blocks', order' := Merged(blocks, order[i]), Drop(order, i);
            && Tiled(blocks', order', base, end) && LeftOpen(blocks', order', i) && Used(blocks') == Used(blocks)
            && order[i] in blocks' && blocks'[order[i]].free
  {
    hide Drop, Merged, Aligned, Used;
    assert LinkOk(blocks, order, end, i);
    MergeKeeps(blocks, order, base, end, i);
    DropNeighbours(order, i, i, end);
    MergeFree(blocks, order[i]);
    var blocks', order' := Merged(blocks, order[i]), Drop(order, i);
    forall k | 0 <= k && k + 1 < |order'| && k + 1 != i ensures PairOk(blocks', order', k) {
      assert if k < i then PairOk(blocks, order, k) else PairOk(blocks, order, k + 1);
      MergePair(blocks, order, base, end, i, k);
    }
  }

  lemma PrevFine(blocks: map<nat, Block>, order: seq<nat>, base: nat, end: nat, i: nat)
    requires Tiled(blocks, order, base, end) && LeftOpen(blocks, order, i) && i < |order| && order[i] in blocks
    requires blocks[order[i]].prev != NULL ==> blocks[order[i]].prev in blocks && !blocks[blocks[order[i]].prev].free
    ensures Coalesced(blocks, order)
  {
    assert LinkOk(blocks, order, end, i);
    if i > 0 { assert LinkOk(blocks, order, end, i - 1); }
    forall k | 0 <= k && k + 1 < |order| ensures PairOk(blocks, order, k) {}
  }

  lemma MergePrev(blocks: map<nat, Block>, order: seq<nat>, base: nat, end: nat, i: nat)
    requires Tiled(blocks, order, base, end) && LeftOpen(blocks, order, i) && i < |order| && order[i] in blocks
    requires blocks[order[i]].prev in blocks && blocks[order[i]].prev != NULL
    requires blocks[order[i]].free && blocks[blocks[order[i]].prev].free
    ensures i > 0 && blocks[order[i]].prev == order[i - 1] && blocks[order[i - 1]].next in blocks
    ensures blocks[order[i - 1]].next != order[i - 1]
    ensures var blocks', order' := Merged(blocks, order[i - 1]), Drop(order, i - 1);
            Tiled(blocks', order', base, end) && Coalesced(blocks', order') && Used(blocks') == Used(blocks)
  {
    hide Drop, Merged, Aligned, Used;
    assert LinkOk(blocks, order, end, i);
    MergeKeeps(blocks, order, base, end, i - 1);
    DropNeighbours(order, i - 1, 0, end);
    MergeFree(blocks, order[i - 1]);
    var blocks', order' := Merged(blocks, order[i - 1]), Drop(order, i - 1);
    forall k | 0 <= k && k + 1 < |order'| ensures PairOk(blocks', order', k) {
      assert if k < i - 1 then PairOk(blocks, order, k) else PairOk(blocks, order, k + 1);
      MergePair(blocks, order, base, end, i - 1, k);
    }
  }

  /** A search that passed every block found none that fits. */
  lemma Exhausted(blocks: map<nat, Block>, order: seq<nat>, base: nat, end: nat, size: nat)
    requires Tiled(blocks, order, base, end) && Listed(blocks, order)
    requires forall k :: 0 <= k < |order| ==> !(blocks[order[k]].free && blocks[order[k]].size >= size)
    ensures forall a :: a in blocks && blocks[a].free ==> blocks[a].size < size
  {
  }

  /** The list links each block to the next one up. */
  lemma NextInOrder(blocks: map<nat, Block>, order: seq<nat>, base: nat, end: nat, i: nat)
    requires Tiled(blocks, order, base, end) && i < |order|
    ensures order[0] == base && order[i] in blocks && order[i] > 0
    ensures if i + 1 < |order| then blocks[order[i]].next == order[i + 1] > 0 else blocks[order[i]].next == NULL
  {
    assert LinkOk(blocks, order, end, i);
    if i + 1 < |order| { assert LinkOk(blocks, order, end, i + 1); }
  }

  /** The blocks at lower addresses are those the search passed. */
  lemma Below(blocks: map<nat, Block>, order: seq<nat>, base: nat, end: nat, i: nat, size: nat)
    requires Tiled(blocks, order, base, end) && Listed(blocks, order) && i < |order|
    requires forall k :: 0 <= k < i ==> !(blocks[order[k]].free && blocks[order[k]].size >= size)
    ensures forall a :: a in blocks && a < order[i] && blocks[a].free ==> blocks[a].size < size
  {
    forall a | a in blocks && a < order[i] && blocks[a].free ensures blocks[a].size < size {
      var k :| 0 <= k < |order| && order[k] == a;
      assert k < i;
    }
  }

  class Heap {
    const base: nat
    const end: nat
    var head: nat
    var blocks: map<nat, Block>
    ghost var order: seq<nat>

    ghost predicate Valid()
      reads this
    {
      head == base && base < end < WORD && Tiled(blocks, order, base, end) && Coalesced(blocks, order)
    }

    /** One free block over the whole arena. */
    constructor (base: nat, total: nat)
      requires base > 0 && Aligned(base) && Aligned(total) && total >= HEADER && base + total < WORD
      ensures Valid() && Used(blocks) == map[] && this.base == base && end == base + total
    {
      this.base, this.end, this.head := base, base + total, base;
      blocks := map[base := Block(total - HEADER, true, NULL, NULL)];
      order := [base];
      new;
      assert LinkOk(blocks, order, end, 0);
    }

    /** The payload of the first free block that is large enough, cut down to the request when the rest is worth a
        block; 0 when the request is empty or no block fits. */
    method Alloc(request: nat) returns (ptr: nat)
      requires Valid() && request < WORD
      modifies this`blocks, this`order
      ensures Valid()
      ensures ptr == 0 ==> blocks == old(blocks)
      ensures ptr == 0 <==>
        request == 0 || forall a :: a in old(blocks) && old(blocks)[a].free ==> old(blocks)[a].size < AlignUp(request)
      ensures ptr != 0 ==>
        && Aligned(ptr) && ptr >= HEADER && ptr - HEADER in blocks && ptr - HEADER in old(blocks)
        && old(blocks)[ptr - HEADER].free
        && AlignUp(request) <= blocks[ptr - HEADER].size <= AlignUp(request) + HEADER + ALIGN
        && CutOff(old(blocks), blocks, ptr - HEADER, AlignUp(request))
        && Used(blocks) == Used(old(blocks))[ptr - HEADER := blocks[ptr - HEADER].size]
        && forall a ::
             a in old(blocks) && a < ptr - HEADER && old(blocks)[a].free ==> old(blocks)[a].size < AlignUp(request)
    {
      hide Coalesced, Cut, Put, Marked, Used, Tiled, LinkOk, CutOff;
      ptr := 0;
      if request == 0 {
        return;
      }
      var size := AlignUp(request);
      TiledListed(blocks, order, base, end);
      var b := head;
      ghost var i := 0;
      NextInOrder(blocks, order, base, end, 0);
      while b != NULL
        invariant unchanged(this) && Listed(blocks, order)
        invariant i <= |order| && (if i < |order| then b == order[i] > 0 else b == NULL)
        invariant forall k :: 0 <= k < i ==> !(blocks[order[k]].free && blocks[order[k]].size >= size)
        decreases |order| - i
      {
        NextInOrder(blocks, order, base, end, i);
        if blocks[b].free && blocks[b].size >= size {
          ptr := b + HEADER;
          Below(blocks, order, base, end, i, size);
          Taken(b, i, size);
          return;
        }
        b := blocks[b].next;
        i := i + 1;
      }
      Exhausted(blocks, order, base, end, size);
    }

    /** Marks a block used, cutting off the rest when it is worth a block. */
    method Taken(b: nat, ghost i: nat, size: nat)
      requires Valid() && i < |order| && order[i] == b && b in blocks && blocks[b].free && blocks[b].size >= size
      requires Aligned(size)
      modifies this`blocks, this`order
      ensures Valid() && b in blocks && Aligned(b + HEADER)
      ensures size <= blocks[b].size <= size + HEADER + ALIGN && CutOff(old(blocks), blocks, b, size)
      ensures Used(blocks) == Used(old(blocks))[b := blocks[b].size]
    {
      hide Coalesced, Tiled, Put, Used, Cut, Marked, CutOff, Aligned;
      PayloadAligned(blocks, order, base, end, i);
      if blocks[b].size > size + HEADER + ALIGN {
        TakePart(blocks, order, base, end, i, size);
        CutFrees(blocks, b, size);
        blocks := Cut(blocks, b, size);
        order := Put(order, i, b + HEADER + size);
      } else {
        TakeWhole(blocks, order, base, end, i);
        WholeFrees(blocks, b, size);
      }
      blocks := Marked(blocks, b, false);
    }

    /** Gives a payload back. Pointers to no block, and to blocks already free, are ignored. */
    method Free(ptr: nat)
      requires Valid()
      modifies this`blocks, this`order
      ensures Valid()
      ensures Used(blocks) == Used(old(blocks)) - (if ptr >= HEADER then {ptr - HEADER} else {})
    {
      if ptr < HEADER || ptr - HEADER !in blocks || blocks[ptr - HEADER].free {
        assert Used(blocks) == Used(blocks) - (if ptr >= HEADER then {ptr - HEADER} else {});
        return;
      }
      var b := ptr - HEADER;
      ghost var i :| 0 <= i < |order| && order[i] == b;
      Released(b, i);
    }

    /** Marks a block free and joins it with its free neighbours. */
    method Released(b: nat, ghost i: nat)
      requires Valid() && i < |order| && order[i] == b && b in blocks && !blocks[b].free
      modifies this`blocks, this`order
      ensures Valid() && Used(blocks) == Used(old(blocks)) - {b}
    {
      hide Marked, Merged, Drop, Coalesced, NearlyCoalesced, LeftOpen, Used;
      ReleaseMark(blocks, order, base, end, i);
      blocks := Marked(blocks, b, true);
      MarkedIs(old(blocks), b, true);
      NextPrevInverse(blocks, order, base, end, b);
      if blocks[b].next != NULL && blocks[blocks[b].next].free {
        MergeNext(blocks, order, base, end, i);
        blocks := Merged(blocks, b);
        order := Drop(order, i);
      } else {
        NextFine(blocks, order, base, end, i);
      }
      NextPrevInverse(blocks, order, base, end, b);
      if blocks[b].prev != NULL && blocks[blocks[b].prev].free {
        MergePrev(blocks, order, base, end, i);
        blocks := Merged(blocks, blocks[b].prev);
        order := Drop(order, i - 1);
      } else {
        PrevFine(blocks, order, base, end, i);
      }
    }
  }
}
