/** Allocating, freeing, reading and filling cluster chains through the volume (src/fs/fat32.c). */
module FatFiles {
  import opened Bits
  import opened FatLayout
  import opened FatChains
  import opened FatVolume

  function ClusterSize(g: Geometry): nat { g.spc * g.bps }

  /** The table and the chains it holds, before and after. */
  ghost predicate Holds(v: Volume, l: Layout)
    reads v.cache, v.cache.entries
  {
    v.Valid() && LayoutOk(v.Fat(), l)
  }

  /** The lowest free cluster, marked as an end and zeroed; 0 when there is none. */
  method AllocCluster(v: Volume, ghost l: Layout) returns (c: nat, ghost l': Layout)
    requires Holds(v, l)
    modifies v.cache, v.cache.entries
    ensures Holds(v, l')
    ensures c == 0 ==> v.Fat() == old(v.Fat()) && v.Data() == old(v.Data()) && l' == l
    ensures c == 0 ==> FreeClusters(old(v.Fat())) == {}
    ensures c != 0 ==>
      && 2 <= c < v.g.total + 2 && old(v.Fat())[c] == 0 && c !in l.owner && c !in l.chains
      && (forall x :: x in FreeClusters(old(v.Fat())) ==> c <= x)
      && v.Fat() == old(v.Fat())[c := 0x0FFF_FFF8] && v.Data() == old(v.Data())[c - 2 := Zeros(ClusterSize(v.g))]
      && l' == Taken(l, c)
  {
    hide LayoutOk, Volume.Valid, Volume.Fat, Volume.Data, Taken, Zeros;
    v.Shape();
    c := 2;
    l' := l;
    while c < v.g.total + 2
      invariant 2 <= c <= v.g.total + 2 && v.Valid() && v.Fat() == old(v.Fat()) && v.Data() == old(v.Data())
      invariant forall x :: 2 <= x < c ==> old(v.Fat())[x] != 0
    {
      var value := v.FatEntry(c);
      if value == 0 {
        TakeKeeps(v.Fat(), l, c);
        v.FatSetEntry(c, EOC);
        v.ClusterWrite(c, Zeros(v.g.spc * v.g.bps));
        l' := Taken(l, c);
        return;
      }
      c := c + 1;
    }
    c := 0;
  }

  /** Clears the entries along a chain. On any table whose links stay in range it ends, even on a cycle. */
  method FreeChain(v: Volume, first: nat)
    requires v.Valid() && LinksOk(v.Fat()) && (first < |v.Fat()| || EOC <= first)
    modifies v.cache, v.cache.entries
    ensures v.Valid() && v.Fat() == Freed(old(v.Fat()), first) && v.Data() == old(v.Data())
  {
    hide Volume.Valid, Volume.Fat, Volume.Data;
    var cluster: nat := first;
    while cluster < EOC && cluster >= 2
      invariant v.Valid() && LinksOk(v.Fat()) && (cluster < |v.Fat()| || EOC <= cluster) && v.Data() == old(v.Data())
      invariant Freed(v.Fat(), cluster) == Freed(old(v.Fat()), first)
      decreases InUse(v.Fat(), |v.Fat()|), if 2 <= cluster < EOC then 1 else 0
    {
      InUseClears(v.Fat(), cluster, |v.Fat()|);
      var next := v.FatEntry(cluster);
      v.FatSetEntry(cluster, 0);
      cluster := next;
    }
  }

  function Min(a: nat, b: nat): nat { if a < b then a else b }

  /** `buf` is what a read has copied once it has passed the clusters `ch`. */
  ghost predicate Copied(data: seq<seq<nat>>, ch: seq<nat>, buf: seq<nat>, most: nat) {
    InData(data, ch) && buf == Join(data, ch)[..Min(|Join(data, ch)|, most)]
  }

  lemma CopyStep(data: seq<seq<nat>>, ch: seq<nat>, buf: seq<nat>, most: nat, c: nat, cnt: nat)
    requires Copied(data, ch, buf, most) && 2 <= c < |data| + 2 && |buf| <= most
    requires cnt == Min(|data[c - 2]|, most - |buf|)
    ensures Copied(data, ch + [c], buf + data[c - 2][..cnt], most)
  {
    JoinNext(data, ch, c);
  }

  lemma CopyDone(data: seq<seq<nat>>, ch: seq<nat>, j: nat, buf: seq<nat>, most: nat)
    requires j <= |ch| && InData(data, ch) && Copied(data, ch[..j], buf, most) && (j == |ch| || |buf| == most)
    ensures Copied(data, ch, buf, most)
  {
    JoinPrefix(data, ch, j);
    assert ch[..|ch|] == ch;
  }

  /** The first bytes of a chain, at most `size` and at most `limit` of them. */
  method ReadChain(v: Volume, first: nat, size: nat, limit: nat, ghost l: Layout) returns (buf: seq<nat>)
    requires Holds(v, l) && (first < 2 || first in l.chains)
    modifies v.cache, v.cache.entries
    ensures Holds(v, l) && v.Fat() == old(v.Fat()) && v.Data() == old(v.Data())
    ensures first < 2 ==> buf == []
    ensures first >= 2 ==> Copied(v.Data(), l.chains[first], buf, Min(size, limit))
  {
    hide Volume.Valid, Volume.Fat, Volume.Data, LayoutOk, Join, Copied;
    ghost var fat, data := v.Fat(), v.Data();
    buf := [];
    if first < 2 {
      return;
    }
    ghost var ch := l.chains[first];
    ChainInRange(fat, l, first);
    CopyNone(data, ch, Min(size, limit));
    var cluster: nat, remaining := first, size;
    ghost var j := 0;
    while cluster < EOC && cluster >= 2 && remaining > 0
      invariant v.Valid() && v.Fat() == fat && v.Data() == data
      invariant 0 <= j <= |ch| && (if j < |ch| then cluster == ch[j] else cluster >= EOC)
      invariant remaining == size - |buf| && |buf| <= Min(size, limit) && Copied(data, ch[..j], buf, Min(size, limit))
      decreases |ch| - j
    {
      ChainStep(fat, l, first, j);
      var src := v.ClusterRead(cluster);
      var cnt := Min(v.g.spc * v.g.bps, remaining);
      if |buf| + cnt > limit {
        cnt := limit - |buf|;
      }
      CopyStep(data, ch[..j], buf, Min(size, limit), cluster, cnt);
      assert ch[..j] + [cluster] == ch[..j + 1];
      buf := buf + src[..cnt];
      remaining := remaining - cnt;
      cluster := v.FatEntry(cluster);
      j := j + 1;
    }
    if j < |ch| { ChainStep(fat, l, first, j); }
    CopyDone(data, ch, j, buf, Min(size, limit));
  }

  lemma CopyNone(data: seq<seq<nat>>, ch: seq<nat>, most: nat)
    ensures Copied(data, ch[..0], [], most)
  {
  }

  // ---- Filling a new chain ----

  /** One chain more, made of clusters that were free; everything that was in a chain is as before. */
  ghost predicate Grown(fat: seq<nat>, data: seq<seq<nat>>, l: Layout, data': seq<seq<nat>>, l': Layout, first: nat,
                        ch: seq<nat>) {
    && |data'| == |data| == |fat| - 2 && l'.root == l.root
    && (if ch == [] then l'.chains == l.chains else first !in l.chains && l'.chains == l.chains[first := ch])
    && (forall c :: c in l.owner ==> c in l'.owner && l'.owner[c] == l.owner[c])
    && l'.owner.Keys == l.owner.Keys + Elements(ch)
    && (forall i :: 0 <= i < |ch| ==> 2 <= ch[i] < |fat| && ch[i] !in l.owner)
    && (forall c: nat {:trigger data'[c - 2]} :: c in l.owner && 2 <= c < |fat| ==> data'[c - 2] == data[c - 2])
  }

  /** The clusters hold the first `done` bytes; all but the last are full. */
  ghost predicate Filled(data: seq<seq<nat>>, ch: seq<nat>, bytes: seq<nat>, done: nat) {
    && InData(data, ch) && done <= |bytes| && bytes[..done] <= Join(data, ch)
    && (done < |bytes| ==> |Join(data, ch)| == done) && (done == 0 ==> ch == [])
  }

  /** A taken cluster that becomes the chain, or the chain's new last cluster. */
  lemma GrownStep(fat: seq<nat>, data: seq<seq<nat>>, l: Layout, fat1: seq<nat>, data1: seq<seq<nat>>, l1: Layout,
                  first0: nat, first: nat, ch: seq<nat>, c: nat, b: seq<nat>)
    requires LayoutOk(fat, l) && LayoutOk(fat1, l1) && Grown(fat, data, l, data1, l1, first0, ch)
    requires |fat1| == |fat| && InRange(fat1, c) && fat1[c] == 0
    requires if ch == [] then first == c else first == first0 && first in l1.chains
    ensures c !in l1.owner && c !in l1.chains && |ch| > 0 ==> first != c
    ensures var l2 := if ch == [] then Taken(l1, c) else Linked(Taken(l1, c), first, c);
            Grown(fat, data, l, data1[c - 2 := b], l2, first, ch + [c])
  {
    hide LayoutOk;
    TakeKeeps(fat1, l1, c);
    if ch != [] { HeadOwned(fat1, l1, first); }
    HeadOwned(fat, l, c);
    GrownLinks(l, l1, first0, first, ch, c);
    hide Taken, Linked;
    GrownByOne(fat, data, l, data1, l1, if ch == [] then Taken(l1, c) else Linked(Taken(l1, c), first, c), first0,
               first, ch, c, b);
  }

  lemma GrownByOne(fat: seq<nat>, data: seq<seq<nat>>, l: Layout, data1: seq<seq<nat>>, l1: Layout, l2: Layout,
                   first0: nat, first: nat, ch: seq<nat>, c: nat, b: seq<nat>)
    requires Grown(fat, data, l, data1, l1, first0, ch) && 2 <= c < |fat| && c !in l1.owner
    requires l2.root == l1.root && first !in l.chains && l2.chains == l.chains[first := ch + [c]]
    requires l2.owner.Keys == l1.owner.Keys + {c} && forall x :: x in l1.owner ==> l2.owner[x] == l1.owner[x]
    ensures Grown(fat, data, l, data1[c - 2 := b], l2, first, ch + [c])
  {
    ElementsMore(ch, c);
    hide Elements;
    var data2 := data1[c - 2 := b];
    forall x: nat | x in l.owner && 2 <= x < |fat| ensures data2[x - 2] == data[x - 2] {
      assert x != c && data1[x - 2] == data[x - 2];
    }
  }

  lemma GrownLinks(l: Layout, l1: Layout, first0: nat, first: nat, ch: seq<nat>, c: nat)
    requires if ch == [] then l1.chains == l.chains else first0 !in l.chains && l1.chains == l.chains[first0 := ch]
    requires if ch == [] then first == c else first == first0
    requires c !in l1.chains && c !in l.chains && c !in l1.owner
    ensures var l2 := if ch == [] then Taken(l1, c) else Linked(Taken(l1, c), first, c);
            && l2.root == l1.root && first !in l.chains && l2.chains == l.chains[first := ch + [c]]
            && l2.owner.Keys == l1.owner.Keys + {c} && forall x :: x in l1.owner ==> l2.owner[x] == l1.owner[x]
  {
    if ch == [] { assert ch + [c] == [c]; }
  }

  lemma ElementsMore(ch: seq<nat>, c: nat)
    ensures Elements(ch + [c]) == Elements(ch) + {c} && forall i :: 0 <= i < |ch| ==> ch[i] in Elements(ch)
  {
  }

  lemma FilledStep(data: seq<seq<nat>>, ch: seq<nat>, bytes: seq<nat>, done: nat, c: nat, b: seq<nat>, cnt: nat)
    requires Filled(data, ch, bytes, done) && done < |bytes| && 2 <= c < |data| + 2 && c !in ch
    requires 0 < cnt <= |bytes| - done && cnt <= |b| && b[..cnt] == bytes[done..done + cnt]
    requires done + cnt < |bytes| ==> cnt == |b|
    ensures Filled(data[c - 2 := b], ch + [c], bytes, done + cnt)
  {
    var data' := data[c - 2 := b];
    JoinSame(data, data', ch);
    JoinNext(data', ch, c);
    assert bytes[..done + cnt] == bytes[..done] + bytes[done..done + cnt];
  }

  /** How many clusters so many bytes take. */
  function ClustersFor(n: nat, size: nat): nat
    requires size > 0
  {
    (n + size - 1) / size
  }

  /** `n` bytes in `k` clusters: all but the last are full, and the last has some. */
  ghost predicate Packed(n: nat, k: nat, size: nat) {
    if k == 0 then n == 0 else (k - 1) * size < n <= k * size
  }

  lemma PackedIs(n: nat, k: nat, size: nat)
    requires size > 0 && Packed(n, k, size)
    ensures ClustersFor(n, size) == k
  {
    if k == 0 {
      DivIs(size - 1, size, 0, size - 1);
    } else {
      assert k * size == (k - 1) * size + size;
      DivIs(n + size - 1, size, k, n - (k - 1) * size - 1);
    }
  }

  lemma PackedMore(n: nat, k: nat, size: nat, cnt: nat)
    requires size > 0 && n == k * size && 0 < cnt <= size
    ensures Packed(n + cnt, k + 1, size) && (cnt == size ==> n + cnt == (k + 1) * size)
  {
    assert (k + 1) * size == k * size + size;
  }

  lemma NotEnough(n: nat, k: nat, size: nat)
    requires size > 0 && k * size < n
    ensures ClustersFor(n, size) > k
  {
    var q := ClustersFor(n, size);
    assert n + size - 1 == q * size + (n + size - 1) % size;
    if q <= k { MulMono(q, k, size); }
  }

  /** The clusters that storing data takes: the lowest free ones first, as many as it needs, or all there are. */
  ghost predicate Allotted(fat: seq<nat>, first: nat, ch: seq<nat>, need: nat, ok: bool) {
    && Elements(ch) <= FreeClusters(fat) && |Elements(ch)| == |ch| && (ch == [] <==> first == 0)
    && (ch != [] ==> first == ch[0] && forall x :: x in FreeClusters(fat) ==> first <= x)
    && (ok <==> need <= |FreeClusters(fat)|) && (if ok then |ch| == need else Elements(ch) == FreeClusters(fat))
  }

  lemma AllottedIs(fat: seq<nat>, data: seq<seq<nat>>, l: Layout, fat': seq<nat>, data': seq<seq<nat>>, l': Layout,
                   first: nat, ch: seq<nat>, need: nat, ok: bool)
    requires LayoutOk(fat, l) && LayoutOk(fat', l') && |fat'| == |fat| && Grown(fat, data, l, data', l', first, ch)
    requires (ch == [] <==> first == 0) && (ch != [] ==> first == ch[0])
    requires ch != [] ==> forall x :: x in FreeClusters(fat) ==> first <= x
    requires ok ==> |ch| == need
    requires !ok ==> |ch| < need && FreeClusters(fat') == {}
    ensures Allotted(fat, first, ch, need, ok) && FreeClusters(fat') == FreeClusters(fat) - Elements(ch)
  {
    hide LayoutOk, Grown, FreeClusters, Elements;
    GrownTakes(fat, data, l, fat', data', l', first, ch);
    GrownDistinct(fat, data, l, fat', data', l', first, ch);
    Parts(FreeClusters(fat), Elements(ch));
  }

  lemma Parts(all: set<nat>, part: set<nat>)
    requires part <= all
    ensures |part| <= |all| && (all - part == {} ==> part == all)
  {
    assert all == part + (all - part);
  }

  lemma GrownTakes(fat: seq<nat>, data: seq<seq<nat>>, l: Layout, fat': seq<nat>, data': seq<seq<nat>>, l': Layout,
                   first: nat, ch: seq<nat>)
    requires LayoutOk(fat, l) && LayoutOk(fat', l') && |fat'| == |fat| && Grown(fat, data, l, data', l', first, ch)
    ensures Elements(ch) <= FreeClusters(fat) && FreeClusters(fat') == FreeClusters(fat) - Elements(ch)
  {
    FreeAre(fat, l);
    FreeAre(fat', l');
    hide LayoutOk;
    forall c | c in Elements(ch) ensures c in FreeClusters(fat) {
      var i :| 0 <= i < |ch| && ch[i] == c;
    }
  }

  lemma GrownDistinct(fat: seq<nat>, data: seq<seq<nat>>, l: Layout, fat': seq<nat>, data': seq<seq<nat>>, l': Layout,
                      first: nat, ch: seq<nat>)
    requires LayoutOk(fat, l) && LayoutOk(fat', l') && |fat'| == |fat| && Grown(fat, data, l, data', l', first, ch)
    ensures |Elements(ch)| == |ch|
  {
    if ch != [] {
      forall i, j | 0 <= i < j < |ch| ensures ch[i] != ch[j] { ChainAcyclic(fat', l', first, i, j); }
    }
    DistinctCard(ch);
  }

  /** Copies bytes into newly allocated clusters and chains them up. It fails exactly when there are fewer free
      clusters than the bytes need, and then takes them all and leaves them behind as a chain nobody refers to. */
  method StoreData(v: Volume, bytes: seq<nat>, ghost l: Layout) returns (ok: bool, first: nat, ghost l': Layout)
    requires Holds(v, l) && Bytes(bytes)
    modifies v.cache, v.cache.entries
    ensures Holds(v, l') && ClusterSize(v.g) > 0
    ensures exists ch ::
      && Grown(old(v.Fat()), old(v.Data()), l, v.Data(), l', first, ch)
      && Allotted(old(v.Fat()), first, ch, ClustersFor(|bytes|, ClusterSize(v.g)), ok)
      && FreeClusters(v.Fat()) == FreeClusters(old(v.Fat())) - Elements(ch)
      && (ok ==> Filled(v.Data(), ch, bytes, |bytes|))
  {
    hide Volume.Valid, Volume.Fat, Volume.Data, LayoutOk, Grown, Filled, FreeClusters, Packed, Elements;
    ghost var fat0, data0, size := v.Fat(), v.Data(), ClusterSize(v.g);
    ghost var ch: seq<nat> := [];
    BigClusters(v);
    l' := l;
    first := 0;
    var done, prev := 0, 0;
    GrownNone(v.Fat(), v.Data(), l, bytes);
    NonePacked(size);
    while done < |bytes|
      invariant Holds(v, l') && done <= |bytes| && (ch == [] <==> first == 0) && (ch == [] <==> prev == 0)
      invariant ch != [] ==> first in l'.chains && l'.chains[first] == ch && prev == ch[|ch| - 1] && first == ch[0]
      invariant Grown(fat0, data0, l, v.Data(), l', first, ch) && Filled(v.Data(), ch, bytes, done)
      invariant Packed(done, |ch|, size) && (done < |bytes| ==> done == |ch| * size)
      invariant if ch == [] then v.Fat() == fat0 else forall x :: x in FreeClusters(fat0) ==> first <= x
    {
      var cnt: nat;
      var more;
      more, first, prev, cnt, l' := StoreCluster(v, bytes, done, first, prev, fat0, data0, l, l', ch);
      if !more {
        NotEnough(|bytes|, |ch|, size);
        AllottedIs(fat0, data0, l, v.Fat(), v.Data(), l', first, ch, ClustersFor(|bytes|, size), false);
        return false, first, l';
      }
      PackedMore(done, |ch|, size, cnt);
      ch := ch + [prev];
      done := done + cnt;
    }
    PackedIs(|bytes|, |ch|, size);
    AllottedIs(fat0, data0, l, v.Fat(), v.Data(), l', first, ch, |ch|, true);
    ok := true;
  }

  lemma NonePacked(size: nat)
    ensures Packed(0, 0, size)
  {
  }

  /** A chain's last cluster points to a chain of one, which becomes its new last cluster. */
  method LinkCluster(v: Volume, h: nat, last: nat, c: nat, ghost l: Layout) returns (ghost l': Layout)
    requires Holds(v, l) && h in l.chains && c in l.chains && l.chains[c] == [c] && h != c
    requires |l.chains[h]| > 0 && last == l.chains[h][|l.chains[h]| - 1]
    modifies v.cache, v.cache.entries
    ensures Holds(v, l') && l' == Linked(l, h, c) && v.Data() == old(v.Data())
  {
    hide Volume.Valid, Volume.Fat, Volume.Data, LayoutOk, Linked;
    v.Shape();
    LinkLast(v.Fat(), l, h, c);
    LinkKeeps(v.Fat(), l, h, c);
    v.FatSetEntry(last, c);
    l' := Linked(l, h, c);
  }

  /** A new last cluster, or the first one of a new chain. */
  method ExtendFile(v: Volume, first0: nat, prev: nat, ghost l1: Layout, ghost ch: seq<nat>)
    returns (first: nat, c: nat, ghost l2: Layout)
    requires Holds(v, l1) && (ch == [] <==> first0 == 0) && (ch == [] <==> prev == 0)
    requires ch != [] ==> first0 in l1.chains && l1.chains[first0] == ch && prev == ch[|ch| - 1]
    modifies v.cache, v.cache.entries
    ensures Holds(v, l2)
    ensures c == 0 ==> l2 == l1 && first == first0 && v.Data() == old(v.Data()) && v.Fat() == old(v.Fat())
    ensures c == 0 ==> FreeClusters(v.Fat()) == {}
    ensures c != 0 ==> forall x :: x in FreeClusters(old(v.Fat())) ==> c <= x
    ensures c != 0 ==>
      && InRange(old(v.Fat()), c) && old(v.Fat())[c] == 0 && c !in l1.owner && first == (if ch == [] then c else first0)
      && l2 == (if ch == [] then Taken(l1, c) else Linked(Taken(l1, c), first, c))
      && v.Data() == old(v.Data())[c - 2 := Zeros(ClusterSize(v.g))]
  {
    hide Volume.Valid, Volume.Fat, Volume.Data, LayoutOk, Zeros, ClusterSize, FreeClusters;
    first := first0;
    c, l2 := AllocCluster(v, l1);
    if c == 0 {
      return;
    }
    if first == 0 {
      first := c;
    }
    if prev != 0 {
      l2 := LinkCluster(v, first, prev, c, l2);
    }
  }

  /** One cluster of data, allocated, linked and written. */
  method StoreCluster(v: Volume, bytes: seq<nat>, done: nat, first0: nat, prev: nat, ghost fat0: seq<nat>,
                      ghost data0: seq<seq<nat>>, ghost l: Layout, ghost l1: Layout, ghost ch: seq<nat>)
    returns (more: bool, first: nat, c: nat, cnt: nat, ghost l2: Layout)
    requires Holds(v, l1) && LayoutOk(fat0, l) && Bytes(bytes) && done < |bytes| && |fat0| == v.g.total + 2
    requires (ch == [] <==> first0 == 0) && (ch == [] <==> prev == 0)
    requires ch != [] ==> first0 in l1.chains && l1.chains[first0] == ch && prev == ch[|ch| - 1]
    requires Grown(fat0, data0, l, v.Data(), l1, first0, ch) && Filled(v.Data(), ch, bytes, done)
    modifies v.cache, v.cache.entries
    ensures Holds(v, l2)
    ensures !more ==> l2 == l1 && first == first0 && v.Data() == old(v.Data()) && FreeClusters(v.Fat()) == {}
    ensures more ==> c != 0 && first == (if ch == [] then c else first0) && 0 < cnt <= |bytes| - done
    ensures more ==> cnt == Min(ClusterSize(v.g), |bytes| - done)
    ensures more ==> forall x :: x in FreeClusters(old(v.Fat())) ==> c <= x
    ensures more ==> first in l2.chains && l2.chains[first] == ch + [c]
    ensures
      more ==> Grown(fat0, data0, l, v.Data(), l2, first, ch + [c]) && Filled(v.Data(), ch + [c], bytes, done + cnt)
  {
    hide Volume.Valid, Volume.Fat, Volume.Data, LayoutOk, Grown, Filled;
    ghost var fat1, data1 := v.Fat(), v.Data();
    first, c, l2 := ExtendFile(v, first0, prev, l1, ch);
    if c == 0 {
      return false, first, 0, 0, l2;
    }
    var dst := v.ClusterRead(c);
    cnt := Min(v.g.spc * v.g.bps, |bytes| - done);
    BigClusters(v);
    var b := bytes[done..done + cnt] + dst[cnt..];
    assert b[..cnt] == bytes[done..done + cnt];
    v.ClusterWrite(c, b);
    StoreStep(fat0, data0, l, fat1, data1, l1, first0, first, ch, c, bytes, done, cnt, b);
    assert v.Data() == data1[c - 2 := b];
    more := true;
  }

  lemma StoreStep(fat: seq<nat>, data: seq<seq<nat>>, l: Layout, fat1: seq<nat>, data1: seq<seq<nat>>, l1: Layout,
                  first0: nat, first: nat, ch: seq<nat>, c: nat, bytes: seq<nat>, done: nat, cnt: nat, b: seq<nat>)
    requires LayoutOk(fat, l) && LayoutOk(fat1, l1) && Grown(fat, data, l, data1, l1, first0, ch)
    requires |data1| == |fat| - 2 && |fat1| == |fat| && InRange(fat1, c) && fat1[c] == 0 && c !in l1.owner
    requires if ch == [] then first == c else first == first0 && first in l1.chains && l1.chains[first] == ch
    requires Filled(data1, ch, bytes, done) && done < |bytes| && 0 < cnt <= |bytes| - done && cnt <= |b|
    requires b[..cnt] == bytes[done..done + cnt] && (done + cnt < |bytes| ==> cnt == |b|)
    ensures var l2 := if ch == [] then Taken(l1, c) else Linked(Taken(l1, c), first, c);
            && first in l2.chains && l2.chains[first] == ch + [c]
            && Grown(fat, data, l, data1[c - 2 := b], l2, first, ch + [c])
            && Filled(data1[c - 2 := b], ch + [c], bytes, done + cnt)
  {
    GrownStep(fat, data, l, fat1, data1, l1, first0, first, ch, c, b);
    GrownOwned(fat1, l1, first, ch, c);
    FilledStep(data1, ch, bytes, done, c, b, cnt);
    assert [] + [c] == [c];
  }

  lemma BigClusters(v: Volume)
    requires v.Valid()
    ensures v.g.spc * v.g.bps > 0
  {
    v.Shape();
    MulMono(1, v.g.spc, v.g.bps);
  }

  lemma GrownOwned(fat: seq<nat>, l: Layout, first: nat, ch: seq<nat>, c: nat)
    requires LayoutOk(fat, l) && (ch == [] || (first in l.chains && l.chains[first] == ch)) && c !in l.owner
    ensures c !in ch
  {
    forall i | 0 <= i < |ch| ensures ch[i] != c { assert PlaceOk(l, first, i); }
  }

  lemma GrownNone(fat: seq<nat>, data: seq<seq<nat>>, l: Layout, bytes: seq<nat>)
    requires |data| == |fat| - 2
    ensures Grown(fat, data, l, data, l, 0, []) && Filled(data, [], bytes, 0)
  {
  }
}
