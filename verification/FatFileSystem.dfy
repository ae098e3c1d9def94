/** Reading, writing and unlinking files of one directory (src/fs/fat32.c). */
module FatFileSystem {
  import opened Bits
  import opened FatLayout
  import opened FatChains
  import opened FatNames
  import opened FatDirectory
  import opened FatTree
  import opened FatVolume
  import opened FatFiles

  /** The volume keeps the invariant. */
  ghost predicate Sound(v: Volume, l: Layout, dirs: set<nat>)
    reads v.cache, v.cache.entries
  {
    v.Valid() && FsInv(v.Fat(), v.Data(), l, dirs)
  }

  datatype Scan = Found(i: nat) | Stopped(i: nat) | Passed

  /** One cluster of a directory: up to an answer, the end marker, or the end of the cluster. */
  method ScanCluster(base: seq<nat>, name: seq<nat>) returns (r: Scan)
    ensures r.Found? ==> r.i < |SlotsOf(base)| && SlotsOf(base)[r.i][0] != 0 && Answers(SlotsOf(base)[r.i], name)
    ensures r.Stopped? ==> r.i < |SlotsOf(base)| && SlotsOf(base)[r.i][0] == 0
    ensures forall j :: 0 <= j < (if r.Passed? then |SlotsOf(base)| else r.i) ==> Passes(SlotsOf(base)[j], name)
  {
    hide DirentName, LowerAll, To83;
    var target := NameTo83(name);
    var entries := |base| / ENTRY;
    for i := 0 to entries
      invariant forall j :: 0 <= j < i ==> Passes(SlotsOf(base)[j], name)
      invariant target.Length == 11 && target[..] == To83(name)
    {
      var de := base[ENTRY * i..ENTRY * i + ENTRY];
      assert de == SlotsOf(base)[i];
      if de[0] == 0 {
        return Stopped(i);
      }
      if de[0] != DELETED && de[11] != ATTR_LFN {
        if de[..11] == target[..] {
          return Found(i);
        }
        if DirentName(de[..11]) == LowerAll(name) {
          return Found(i);
        }
      }
    }
    return Passed;
  }

  /** Where an entry was found. */
  datatype Place = Place(slot: seq<nat>, cluster: nat, i: nat) | Nowhere

  /** The clusters of a directory are distinct clusters of the volume. */
  lemma DirChain(fat: seq<nat>, data: seq<seq<nat>>, l: Layout, d: nat)
    requires LayoutOk(fat, l) && |fat| == |data| + 2 && d in l.chains
    ensures |l.chains[d]| > 0 && l.chains[d][0] == d && InData(data, l.chains[d])
    ensures forall x, y :: 0 <= x < y < |l.chains[d]| ==> l.chains[d][x] != l.chains[d][y]
  {
    ChainInRange(fat, l, d);
    forall x, y | 0 <= x < y < |l.chains[d]| ensures l.chains[d][x] != l.chains[d][y] { ChainAcyclic(fat, l, d, x, y); }
  }

  /** The entry at index `k` of the directory is the one found in its `j`-th cluster. */
  ghost predicate PlaceIs(data: seq<seq<nat>>, l: Layout, dir: nat, p: Place, j: nat, k: nat) {
    && p.Place? && dir in l.chains && InData(data, l.chains[dir]) && Placed(data, l.chains[dir], j, p.i, k)
    && p.cluster == l.chains[dir][j] && k < |SlotsIn(data, l, dir)| && p.slot == SlotsIn(data, l, dir)[k]
  }

  /** Everything in the clusters already searched was passed. */
  lemma PassedMore(data: seq<seq<nat>>, ch: seq<nat>, j: nat, name: seq<nat>, b: seq<seq<nat>>, n: nat)
    requires InData(data, ch) && j < |ch| && b == SlotsOf(data[ch[j] - 2]) && n <= |b|
    requires forall x :: 0 <= x < |DirSlots(data, ch[..j])| ==> Passes(DirSlots(data, ch[..j])[x], name)
    requires forall x :: 0 <= x < n ==> Passes(b[x], name)
    ensures |DirSlots(data, ch[..j])| + n <= |DirSlots(data, ch)|
    ensures forall x :: 0 <= x < |DirSlots(data, ch[..j])| + n ==> Passes(DirSlots(data, ch)[x], name)
    ensures DirSlots(data, ch[..j + 1]) == DirSlots(data, ch[..j]) + b
  {
    assert ch[..j + 1] == ch[..j] + [ch[j]];
    DirSlotsNext(data, ch[..j], ch[j]);
    DirSlotsPrefix(data, ch, j + 1);
    var a, all := DirSlots(data, ch[..j]), DirSlots(data, ch);
    forall x | 0 <= x < |a| + n ensures Passes(all[x], name) {
      assert all[x] == (a + b)[x];
    }
  }

  /** Searches a directory. */
  method FindInDir(v: Volume, dir: nat, name: seq<nat>, ghost l: Layout) returns (p: Place, ghost j: nat, ghost k: nat)
    requires Holds(v, l) && dir in l.chains
    modifies v.cache, v.cache.entries
    ensures Holds(v, l) && v.Fat() == old(v.Fat()) && v.Data() == old(v.Data())
    ensures p.Place? ==> PlaceIs(v.Data(), l, dir, p, j, k) && FoundAt(SlotsIn(v.Data(), l, dir), name, k)
    ensures p.Nowhere? ==> Missing(SlotsIn(v.Data(), l, dir), name)
  {
    hide Volume.Valid, Volume.Fat, Volume.Data, LayoutOk, DirSlots, Answers, Passes;
    ghost var fat, data, ch := v.Fat(), v.Data(), l.chains[dir];
    DirChain(fat, data, l, dir);
    NoSlots(data, ch);
    var cluster: nat := dir;
    j, k := 0, 0;
    while cluster < EOC && cluster >= 2
      invariant Holds(v, l) && v.Fat() == fat && v.Data() == data && j <= |ch|
      invariant if j < |ch| then cluster == ch[j] else cluster >= EOC
      invariant forall x :: 0 <= x < |DirSlots(data, ch[..j])| ==> Passes(DirSlots(data, ch[..j])[x], name)
      decreases |ch| - j
    {
      ChainStep(fat, l, dir, j);
      var base := v.ClusterRead(cluster);
      var r := ScanCluster(base, name);
      PassedMore(data, ch, j, name, SlotsOf(base), if r.Passed? then |SlotsOf(base)| else r.i);
      if r.Found? {
        k := |DirSlots(data, ch[..j])| + r.i;
        PlacedSlot(data, ch, j, r.i, k);
        p := Place(SlotsOf(base)[r.i], cluster, r.i);
        return;
      }
      if r.Stopped? {
        ghost var e := |DirSlots(data, ch[..j])| + r.i;
        PlacedSlot(data, ch, j, r.i, e);
        assert EndsAt(SlotsIn(data, l, dir), name, e);
        return Nowhere, j, k;
      }
      cluster := v.FatEntry(cluster);
      j := j + 1;
    }
    if j < |ch| { ChainStep(fat, l, dir, j); }
    assert ch[..|ch|] == ch;
    assert EndsAt(SlotsIn(data, l, dir), name, |SlotsIn(data, l, dir)|);
    p := Nowhere;
  }

  lemma NoSlots(data: seq<seq<nat>>, ch: seq<nat>)
    ensures DirSlots(data, ch[..0]) == []
  {
  }

  // ---- Reading ----

  /** Reads a file by name, at most `limit` bytes of it. */
  method ReadFile(v: Volume, dir: nat, name: seq<nat>, limit: nat, ghost l: Layout, ghost dirs: set<nat>)
    returns (ok: bool, buf: seq<nat>)
    requires Sound(v, l, dirs) && dir in dirs && CanonicalName(name)
    modifies v.cache, v.cache.entries
    ensures Sound(v, l, dirs) && v.Fat() == old(v.Fat()) && v.Data() == old(v.Data())
    ensures forall bytes :: Stored(v.Data(), l, dir, name, bytes) ==> ok && buf == Cut(bytes, limit)
    ensures !ok ==> forall bytes :: !Stored(v.Data(), l, dir, name, bytes)
    ensures ok ==> exists bytes :: Stored(v.Data(), l, dir, name, bytes)
  {
    hide Volume.Valid, Volume.Fat, Volume.Data, LayoutOk, Join, Stored, FsInv, SlotsIn, Content, FoundAt, Missing;
    hide Copied, SlotOk;
    ghost var fat, data := v.Fat(), v.Data();
    DirInTree(fat, data, l, dirs, dir);
    var p, j, k := FindInDir(v, dir, name, l);
    if p.Nowhere? {
      NotStored(data, l, dir, name);
      return false, [];
    }
    FoundFile(fat, data, l, dirs, dir, name, k);
    if p.slot[11] / 16 % 2 == 1 {
      NotAFile(data, l, dir, name, k);
      return false, [];
    }
    buf := ReadChain(v, FirstCluster(p.slot), FileSize(p.slot), limit, l);
    ReadIs(fat, data, l, p.slot, buf, limit);
    StoredIs(data, l, dir, name, k);
    assert Stored(data, l, dir, name, Content(data, l, p.slot));
    ok := true;
  }

  lemma DirInTree(fat: seq<nat>, data: seq<seq<nat>>, l: Layout, dirs: set<nat>, d: nat)
    requires FsInv(fat, data, l, dirs) && d in dirs
    ensures LayoutOk(fat, l) && |fat| == |data| + 2 && d in l.chains && DirOk(SlotsIn(data, l, d), l, dirs)
  {
    assert SlotsIn(data, l, d) == SlotsIn(data, l, d);
  }

  lemma NotStored(data: seq<seq<nat>>, l: Layout, d: nat, name: seq<nat>)
    requires Missing(SlotsIn(data, l, d), name)
    ensures forall bytes :: !Stored(data, l, d, name, bytes)
  {
    forall k: nat ensures !FoundAt(SlotsIn(data, l, d), name, k) {
      if FoundAt(SlotsIn(data, l, d), name, k) { SearchOnce(SlotsIn(data, l, d), name, k, k); }
    }
  }

  lemma NotAFile(data: seq<seq<nat>>, l: Layout, d: nat, name: seq<nat>, k: nat)
    requires FoundAt(SlotsIn(data, l, d), name, k) && IsDirectory(SlotsIn(data, l, d)[k])
    ensures forall bytes :: !Stored(data, l, d, name, bytes)
  {
    forall i: nat
      ensures FoundAt(SlotsIn(data, l, d), name, i) ==> i == k
    {
      SearchOnce(SlotsIn(data, l, d), name, k, i);
    }
  }

  /** A search that finds a file decides what is stored under the name. */
  lemma StoredIs(data: seq<seq<nat>>, l: Layout, d: nat, name: seq<nat>, k: nat)
    requires FoundAt(SlotsIn(data, l, d), name, k) && !IsDirectory(SlotsIn(data, l, d)[k])
    ensures forall bytes :: Stored(data, l, d, name, bytes) <==> bytes == Content(data, l, SlotsIn(data, l, d)[k])
  {
    forall i: nat
      ensures FoundAt(SlotsIn(data, l, d), name, i) ==> i == k
    {
      SearchOnce(SlotsIn(data, l, d), name, k, i);
    }
  }

  lemma FoundFile(fat: seq<nat>, data: seq<seq<nat>>, l: Layout, dirs: set<nat>, d: nat, name: seq<nat>, k: nat)
    requires FsInv(fat, data, l, dirs) && d in dirs && CanonicalName(name) && FoundAt(SlotsIn(data, l, d), name, k)
    ensures Live(SlotsIn(data, l, d)[k]) && Name(SlotsIn(data, l, d)[k]) == To83(name)
    ensures SlotOk(l, dirs, SlotsIn(data, l, d)[k])
    ensures var h := FirstCluster(SlotsIn(data, l, d)[k]); h == 0 || (2 <= h < |fat| && h in l.chains)
  {
    HeadOwned(fat, l, FirstCluster(SlotsIn(data, l, d)[k]));
    DirInTree(fat, data, l, dirs, d);
    assert SlotOk(l, dirs, SlotsIn(data, l, d)[k]);
    AnswerIsLive(l, dirs, SlotsIn(data, l, d)[k], name);
  }

  lemma ReadIs(fat: seq<nat>, data: seq<seq<nat>>, l: Layout, s: seq<nat>, buf: seq<nat>, limit: nat)
    requires LayoutOk(fat, l) && |fat| == |data| + 2 && |s| == ENTRY
    requires var h := FirstCluster(s);
             if h < 2 then h == 0 && buf == []
             else h in l.chains && Copied(data, l.chains[h], buf, Min(FileSize(s), limit))
    ensures buf == Cut(Content(data, l, s), limit)
  {
    HeadsPositive(fat, l);
  }

  // ---- What the steps of a write leave alone ----

  /** A chain keeps its clusters and what they hold. */
  ghost predicate Kept(data: seq<seq<nat>>, l: Layout, data': seq<seq<nat>>, l': Layout, x: nat) {
    && x in l.chains && x in l'.chains && l'.chains[x] == l.chains[x] && |data'| == |data| && InData(data, l.chains[x])
    && forall i :: 0 <= i < |l.chains[x]| ==> data'[l.chains[x][i] - 2] == data[l.chains[x][i] - 2]
  }

  lemma KeptMeans(data: seq<seq<nat>>, l: Layout, data': seq<seq<nat>>, l': Layout, x: nat)
    requires Kept(data, l, data', l', x)
    ensures SlotsIn(data', l', x) == SlotsIn(data, l, x) && SameFile(data, l, data', l', x)
  {
    DirSlotsSame(data, data', l.chains[x]);
    JoinSame(data, data', l.chains[x]);
  }

  lemma KeptTrans(data: seq<seq<nat>>, l: Layout, data1: seq<seq<nat>>, l1: Layout, data2: seq<seq<nat>>, l2: Layout,
                  x: nat)
    requires Kept(data, l, data1, l1, x) && Kept(data1, l1, data2, l2, x)
    ensures Kept(data, l, data2, l2, x)
  {
  }

  lemma KeptRemoved(fat: seq<nat>, data: seq<seq<nat>>, l: Layout, h: nat, x: nat)
    requires LayoutOk(fat, l) && |fat| == |data| + 2 && x in l.chains && x != h
    ensures Kept(data, l, data, Removed(l, h), x)
  {
    ChainInRange(fat, l, x);
  }

  lemma KeptGrown(fat: seq<nat>, data: seq<seq<nat>>, l: Layout, data': seq<seq<nat>>, l': Layout, first: nat,
                  ch: seq<nat>, x: nat)
    requires LayoutOk(fat, l) && Grown(fat, data, l, data', l', first, ch) && x in l.chains
    ensures Kept(data, l, data', l', x)
  {
    ChainInRange(fat, l, x);
    forall i | 0 <= i < |l.chains[x]| ensures data'[l.chains[x][i] - 2] == data[l.chains[x][i] - 2] {
      assert PlaceOk(l, x, i);
    }
  }

  /** Rewriting a cluster of one chain leaves the others. */
  lemma KeptPut(fat: seq<nat>, data: seq<seq<nat>>, l: Layout, d: nat, j: nat, b: seq<nat>, x: nat)
    requires LayoutOk(fat, l) && |fat| == |data| + 2 && d in l.chains && j < |l.chains[d]| && x in l.chains && x != d
    ensures 2 <= l.chains[d][j] < |fat| && Kept(data, l, data[l.chains[d][j] - 2 := b], l, x)
  {
    ChainInRange(fat, l, x);
    ChainInRange(fat, l, d);
    forall i | 0 <= i < |l.chains[x]| ensures l.chains[x][i] != l.chains[d][j] { ChainsDisjoint(fat, l, x, i, d, j); }
  }

  /** Giving one chain a new last cluster leaves the others. */
  lemma KeptExtend(fat: seq<nat>, data: seq<seq<nat>>, l: Layout, d: nat, c: nat, b: seq<nat>, x: nat)
    requires LayoutOk(fat, l) && |fat| == |data| + 2 && d in l.chains && x in l.chains && x != d
    requires 2 <= c < |fat| && c !in l.owner && c !in l.chains
    ensures Kept(data, l, data[c - 2 := b], Linked(Taken(l, c), d, c), x)
  {
    ChainInRange(fat, l, x);
    forall i | 0 <= i < |l.chains[x]| ensures l.chains[x][i] != c { assert PlaceOk(l, x, i); }
  }

  // ---- Writing ----

  const FULL := 0x1_0000_0000

  /** As many bytes as the 32-bit size field can say. */
  function Recorded(bytes: seq<nat>): (r: seq<nat>)
    ensures |r| == |bytes| % FULL && r <= bytes
    ensures r == bytes <==> |bytes| < FULL
  {
    bytes[..|bytes| % FULL]
  }

  /** A file of 2^32 bytes is recorded as empty. */
  lemma RecordedLoses(bytes: seq<nat>)
    requires |bytes| == FULL
    ensures Recorded(bytes) == []
  {
  }

  /** The chains once the old data is freed and new data stored, all of it or as much as fits: every chain but the old
      one is kept, the old one is gone, and there is a new one if anything was stored. */
  ghost predicate Resettled(fat: seq<nat>, data0: seq<seq<nat>>, l0: Layout, data: seq<seq<nat>>, l: Layout, h: nat,
                             first: nat) {
    && LayoutOk(fat, l) && |fat| == |data| + 2 && |data| == |data0| && l.root == l0.root
    && (forall x {:trigger Kept(data0, l0, data, l, x)} :: x in l0.chains && x != h ==> Kept(data0, l0, data, l, x))
    && l.chains.Keys == (l0.chains.Keys - {h}) + (if first == 0 then {} else {first})
    && (first != 0 ==> first in l.chains && (first in l0.chains ==> first == h))
  }

  /** And the new one holds the data. */
  ghost predicate Mid(fat: seq<nat>, data0: seq<seq<nat>>, l0: Layout, data: seq<seq<nat>>, l: Layout, h: nat,
                      first: nat, bytes: seq<nat>) {
    && Resettled(fat, data0, l0, data, l, h, first)
    && (if first == 0 then bytes == [] else InData(data, l.chains[first]) && bytes <= Join(data, l.chains[first]))
  }

  /** The clusters at hand are dealt out: those taken are as many as needed, or all if they do not suffice, and the
      first is the lowest. */
  ghost predicate Dealt(avail: set<nat>, free: set<nat>, taken: set<nat>, first: nat, need: nat, ok: bool) {
    && free == avail - taken && taken <= avail && (ok <==> need <= |avail|)
    && (if ok then |taken| == need else taken == avail) && (taken == {} <==> first == 0)
    && (first != 0 ==> first in taken && forall x :: x in avail ==> first <= x)
  }

  lemma RestGrown(fat0: seq<nat>, data0: seq<seq<nat>>, l0: Layout, h: nat, fat1: seq<nat>, l1: Layout,
                  fat: seq<nat>, data: seq<seq<nat>>, l: Layout, first: nat, ch: seq<nat>)
    requires LayoutOk(fat0, l0) && |fat0| == |data0| + 2 && l1 == (if h == 0 then l0 else Removed(l0, h))
    requires LayoutOk(fat1, l1) && |fat1| == |fat0| && LayoutOk(fat, l) && |fat| == |fat0|
    requires Grown(fat1, data0, l1, data, l, first, ch) && (ch == [] <==> first == 0)
    ensures Resettled(fat, data0, l0, data, l, h, first)
    ensures ClustersOf(l, first) == Elements(ch) && (ch != [] ==> l.chains[first] == ch)
  {
    forall x | x in l0.chains && x != h ensures Kept(data0, l0, data, l, x) {
      if h == 0 { KeptGrown(fat1, data0, l1, data, l, first, ch, x); } else {
        KeptRemoved(fat0, data0, l0, h, x);
        KeptGrown(fat1, data0, l1, data, l, first, ch, x);
        KeptTrans(data0, l0, data0, l1, data, l, x);
      }
    }
    HeadsPositive(fat0, l0);
    HeadsPositive(fat, l);
  }

  lemma MidGrown(fat: seq<nat>, data0: seq<seq<nat>>, l0: Layout, data: seq<seq<nat>>, l: Layout, h: nat, first: nat,
                 ch: seq<nat>, bytes: seq<nat>)
    requires Resettled(fat, data0, l0, data, l, h, first) && (ch == [] <==> first == 0)
    requires (ch != [] ==> l.chains[first] == ch) && Filled(data, ch, bytes, |bytes|)
    ensures Mid(fat, data0, l0, data, l, h, first, bytes)
  {
    assert bytes[..|bytes|] == bytes;
    if first == 0 { assert Join(data, ch) == []; }
  }

  lemma AllDealt(fat: seq<nat>, first: nat, ch: seq<nat>, need: nat, ok: bool)
    requires Allotted(fat, first, ch, need, ok)
    ensures Dealt(FreeClusters(fat), FreeClusters(fat) - Elements(ch), Elements(ch), first, need, ok)
  {
    if ch != [] { assert ch[0] in Elements(ch); }
  }

  /** Frees the old chain, if there is one, and stores the new data.  It fails exactly when the free clusters and those
      of the old chain together are too few, and then it takes them all. */
  method Restore(v: Volume, h: nat, bytes: seq<nat>, ghost l: Layout) returns (ok: bool, first: nat, ghost l': Layout)
    requires Holds(v, l) && Bytes(bytes) && (h == 0 || (2 <= h < |v.Fat()| && h in l.chains))
    modifies v.cache, v.cache.entries
    ensures Holds(v, l') && ClusterSize(v.g) > 0
    ensures Resettled(v.Fat(), old(v.Data()), l, v.Data(), l', h, first)
    ensures ok ==> Mid(v.Fat(), old(v.Data()), l, v.Data(), l', h, first, bytes)
    ensures Dealt(FreeClusters(old(v.Fat())) + ClustersOf(l, h), FreeClusters(v.Fat()), ClustersOf(l', first), first,
                  ClustersFor(|bytes|, ClusterSize(v.g)), ok)
  {
    hide Volume.Valid, Volume.Fat, Volume.Data, LayoutOk, Mid, Grown, Filled, Freed, FreeClusters, ClustersOf, Elements;
    hide Resettled, Allotted, Dealt, ClustersFor;
    ghost var fat0, data0 := v.Fat(), v.Data();
    LayoutLinks(fat0, l);
    FreeChain(v, h);
    ghost var l1 := if h == 0 then l else Removed(l, h);
    FreedIs(fat0, l, h);
    ghost var fat1 := v.Fat();
    AllFreed(fat0, l, fat1, h);
    ok, first, l' := StoreData(v, bytes, l1);
    ghost var need := ClustersFor(|bytes|, ClusterSize(v.g));
    ghost var ch :|
      && Grown(fat1, data0, l1, v.Data(), l', first, ch) && Allotted(fat1, first, ch, need, ok)
      && FreeClusters(v.Fat()) == FreeClusters(fat1) - Elements(ch)
      && (ok ==> Filled(v.Data(), ch, bytes, |bytes|));
    NoneFirst(fat1, first, ch, need, ok);
    RestGrown(fat0, data0, l, h, fat1, l1, v.Fat(), v.Data(), l', first, ch);
    AllDealt(fat1, first, ch, need, ok);
    if ok { MidGrown(v.Fat(), data0, l, v.Data(), l', h, first, ch, bytes); }
  }

  lemma NoneFirst(fat: seq<nat>, first: nat, ch: seq<nat>, need: nat, ok: bool)
    requires Allotted(fat, first, ch, need, ok)
    ensures ch == [] <==> first == 0
  {
  }

  // ---- When a write fails ----

  /** The clusters at hand are none, or the old head is the lowest of them. */
  ghost predicate Survives(avail: set<nat>, h: nat) { avail == {} || (h in avail && forall x :: x in avail ==> h <= x) }

  /** The chain of the old data was replaced by one with the same head: the entry just has other data. */
  lemma SameHeadsSurvive(fat: seq<nat>, data: seq<seq<nat>>, l: Layout, dirs: set<nat>, fat': seq<nat>,
                         data': seq<seq<nat>>, l': Layout, h: nat)
    requires FsInv(fat, data, l, dirs) && Resettled(fat', data, l, data', l', h, h) && h !in dirs
    requires h == 0 || h in l.chains
    ensures FsInv(fat', data', l', dirs)
  {
    HeadsPositive(fat, l);
    HeadsPositive(fat', l');
    assert l'.chains.Keys == l.chains.Keys;
    SameSlots(fat, data, l, dirs, fat', data', l', h, h);
    forall d | d in dirs ensures d in l'.chains && DirOk(SlotsIn(data', l', d), l', dirs) {
      DirInTree(fat, data, l, dirs, d);
      var slots := SlotsIn(data, l, d);
      assert SlotsIn(data', l', d) == slots;
      forall k | 0 <= k < |slots| ensures SlotOk(l', dirs, slots[k]) { assert SlotOk(l, dirs, slots[k]); }
    }
    SameOwners(data, l, data', l', dirs);
  }

  /** Every directory reads as before. */
  lemma SameSlots(fat: seq<nat>, data: seq<seq<nat>>, l: Layout, dirs: set<nat>, fat': seq<nat>, data': seq<seq<nat>>,
                  l': Layout, h: nat, first: nat)
    requires FsInv(fat, data, l, dirs) && Resettled(fat', data, l, data', l', h, first) && h !in dirs
    ensures forall d {:trigger SlotsIn(data', l', d)} :: d in dirs ==> SlotsIn(data', l', d) == SlotsIn(data, l, d)
  {
    forall d | d in dirs ensures SlotsIn(data', l', d) == SlotsIn(data, l, d) {
      DirInTree(fat, data, l, dirs, d);
      assert Kept(data, l, data', l', d);
      KeptMeans(data, l, data', l', d);
    }
  }

  lemma SameOwners(data: seq<seq<nat>>, l: Layout, data': seq<seq<nat>>, l': Layout, dirs: set<nat>)
    requires forall d {:trigger SlotsIn(data', l', d)} :: d in dirs ==> SlotsIn(data', l', d) == SlotsIn(data, l, d)
    requires Exclusive(data, l, dirs) && NoOrphans(data, l, dirs) && AllReached(data, l, dirs)
    requires l'.root == l.root && l'.chains.Keys == l.chains.Keys
    ensures Exclusive(data', l', dirs) && NoOrphans(data', l', dirs) && AllReached(data', l', dirs)
  {
    hide SlotsIn;
    forall d: nat, i: nat, h: nat ensures Owns(data', l', dirs, d, i, h) <==> Owns(data, l, dirs, d, i, h) {
      if d in dirs { assert SlotsIn(data', l', d) == SlotsIn(data, l, d); }
    }
    hide Owns;
    forall h: nat ensures Claimed(data', l', dirs, h) <==> Claimed(data, l, dirs, h) {}
    forall x: nat, y: nat ensures Lists(data', l', dirs, x, y) <==> Lists(data, l, dirs, x, y) {}
    hide Lists;
    forall d | d in dirs ensures exists way :: Leads(data', l', dirs, way, d) {
      var way :| Leads(data, l, dirs, way, d);
      assert Leads(data', l', dirs, way, d);
    }
  }

  /** Otherwise the new chain is nobody's, in whatever layout. */
  lemma OrphanLeft(fat: seq<nat>, data: seq<seq<nat>>, l: Layout, dirs: set<nat>, fat': seq<nat>,
                   data': seq<seq<nat>>, l': Layout, h: nat, first: nat, m: Layout)
    requires FsInv(fat, data, l, dirs) && Resettled(fat', data, l, data', l', h, first) && h !in dirs
    requires first != 0 && first != h
    ensures !FsInv(fat', data', m, dirs)
  {
    if FsInv(fat', data', m, dirs) {
      OneLayout(fat', l', m);
      assert first !in dirs by { if first in dirs { DirInTree(fat, data, l, dirs, first); } }
      assert NoOrphans(data', m, dirs);
      assert first in m.chains && first != m.root;
      assert Claimed(data', m, dirs, first);
      var d: nat, i: nat :| Owns(data', m, dirs, d, i, first);
      SameSlots(fat, data, l, dirs, fat', data', l', h, first);
      assert SlotsIn(data', m, d) == SlotsIn(data', l', d) == SlotsIn(data, l, d);
      OwnedIsHead(fat, data, l, dirs, d, i, first);
    }
  }

  lemma OwnedIsHead(fat: seq<nat>, data: seq<seq<nat>>, l: Layout, dirs: set<nat>, d: nat, i: nat, h: nat)
    requires FsInv(fat, data, l, dirs) && Owns(data, l, dirs, d, i, h)
    ensures h in l.chains
  {
    DirInTree(fat, data, l, dirs, d);
    assert SlotOk(l, dirs, SlotsIn(data, l, d)[i]);
  }

  /** What a write that fails leaves satisfies the invariant, in some layout, exactly when it took nothing, or when the
      lowest cluster at hand was the head of the old data. */
  lemma FailedWrite(fat: seq<nat>, data: seq<seq<nat>>, l: Layout, dirs: set<nat>, fat': seq<nat>,
                    data': seq<seq<nat>>, l': Layout, h: nat, first: nat, avail: set<nat>)
    requires FsInv(fat, data, l, dirs) && Resettled(fat', data, l, data', l', h, first) && h !in dirs
    requires avail == FreeClusters(fat) + ClustersOf(l, h) && (h == 0 || h in l.chains)
    requires (avail == {} <==> first == 0) && (first != 0 ==> first in avail && forall x :: x in avail ==> first <= x)
    ensures (exists m :: FsInv(fat', data', m, dirs)) <==> Survives(avail, h)
  {
    hide FsInv, Resettled;
    OldHead(fat, data, l, dirs, h);
    if first == h {
      SameHeadsSurvive(fat, data, l, dirs, fat', data', l', h);
    } else {
      forall m ensures !FsInv(fat', data', m, dirs) {
        OrphanLeft(fat, data, l, dirs, fat', data', l', h, first, m);
      }
    }
  }

  lemma OldHead(fat: seq<nat>, data: seq<seq<nat>>, l: Layout, dirs: set<nat>, h: nat)
    requires FsInv(fat, data, l, dirs) && (h == 0 || h in l.chains)
    ensures h != 0 ==> h in ClustersOf(l, h)
    ensures h == 0 ==> h !in FreeClusters(fat) + ClustersOf(l, h)
  {
    HeadsPositive(fat, l);
    if h != 0 { assert HeadOk(fat, l, h); }
  }

  lemma FreedIs(fat: seq<nat>, l: Layout, h: nat)
    requires LayoutOk(fat, l) && LinksOk(fat) && (h == 0 || (2 <= h < |fat| && h in l.chains))
    ensures LayoutOk(Freed(fat, h), if h == 0 then l else Removed(l, h))
  {
    if h != 0 { FreedChain(fat, l, h); }
  }

  /** The slot at `k` holds the name's present entry, with data at `h`, or is the first free one for a name that
      has none. */
  ghost predicate Target(slots: seq<seq<nat>>, z: seq<seq<nat>>, k: nat, name: seq<nat>, h: nat)
    requires AllSlots(slots)
  {
    && EndMarks(z) && k < |slots + z|
    && if k < |slots| && FoundAt(slots, name, k) then z == [] && FirstCluster(slots[k]) == h && !IsDirectory(slots[k])
       else
         && h == 0 && Missing(slots, name) && ((slots + z)[k][0] == 0 || (slots + z)[k][0] == DELETED)
         && forall j :: 0 <= j < k ==> (slots + z)[j][0] != 0 && (slots + z)[j][0] != DELETED
  }

  /** An entry for the written file. */
  ghost predicate FileEntry(s: seq<nat>, name: seq<nat>, first: nat, size: nat) {
    && IsSlot(s) && Live(s) && Name(s) == To83(name) && !IsDirectory(s) && FirstCluster(s) == first
    && FileSize(s) == size % FULL
  }

  /** The same chains, of which only `d`'s may have grown. */
  ghost predicate SameHeads(l: Layout, l': Layout, d: nat) {
    && l'.root == l.root && l'.chains.Keys == l.chains.Keys && d in l.chains
    && l.chains[d] <= l'.chains[d]
  }

  /** The old state, the state with the data freed and stored, and the state with the entry rewritten. */
  ghost predicate Moved(fat: seq<nat>, data: seq<seq<nat>>, l: Layout, dirs: set<nat>, d: nat, name: seq<nat>, k: nat,
                        h: nat, fat1: seq<nat>, data1: seq<seq<nat>>, l1: Layout, fat2: seq<nat>, data2: seq<seq<nat>>,
                        l2: Layout, s: seq<nat>, z: seq<seq<nat>>, first: nat, bytes: seq<nat>) {
    && FsInv(fat, data, l, dirs) && d in dirs && CanonicalName(name) && Target(SlotsIn(data, l, d), z, k, name, h)
    && Mid(fat1, data, l, data1, l1, h, first, bytes) && |s| == ENTRY
    && LayoutOk(fat2, l2) && |fat2| == |data2| + 2 && |data2| == |data1| && d in l2.chains && SameHeads(l1, l2, d)
    && SlotsIn(data2, l2, d) == (SlotsIn(data, l, d) + z)[k := s]
    && (forall x {:trigger Kept(data1, l1, data2, l2, x)} :: x in l1.chains && x != d ==> Kept(data1, l1, data2, l2, x))
  }

  /** Besides, the entry is the file's. */
  ghost predicate Wrote(fat: seq<nat>, data: seq<seq<nat>>, l: Layout, dirs: set<nat>, d: nat, name: seq<nat>, k: nat,
                        h: nat, fat1: seq<nat>, data1: seq<seq<nat>>, l1: Layout, fat2: seq<nat>, data2: seq<seq<nat>>,
                        l2: Layout, s: seq<nat>, z: seq<seq<nat>>, first: nat, bytes: seq<nat>) {
    && Moved(fat, data, l, dirs, d, name, k, h, fat1, data1, l1, fat2, data2, l2, s, z, first, bytes)
    && FileEntry(s, name, first, |bytes|)
  }

  /** The old data is no directory. */
  lemma OldIsFile(fat: seq<nat>, data: seq<seq<nat>>, l: Layout, dirs: set<nat>, d: nat, name: seq<nat>,
                  z: seq<seq<nat>>, k: nat, h: nat)
    requires FsInv(fat, data, l, dirs) && d in dirs && CanonicalName(name) && Target(SlotsIn(data, l, d), z, k, name, h)
    ensures h !in dirs
    ensures h != 0 ==> Owns(data, l, dirs, d, k, h)
  {
    var slots := SlotsIn(data, l, d);
    HeadsPositive(fat, l);
    if k < |slots| && FoundAt(slots, name, k) {
      FoundFile(fat, data, l, dirs, d, name, k);
    } else {
      if 0 in dirs { DirInTree(fat, data, l, dirs, 0); }
    }
  }

  /** A chain that was neither the old data nor the directory is kept to the end. */
  lemma KeptThrough(fat: seq<nat>, data: seq<seq<nat>>, l: Layout, dirs: set<nat>, d: nat, name: seq<nat>, k: nat,
                    h: nat, fat1: seq<nat>, data1: seq<seq<nat>>, l1: Layout, fat2: seq<nat>, data2: seq<seq<nat>>,
                    l2: Layout, s: seq<nat>, z: seq<seq<nat>>, first: nat, bytes: seq<nat>, x: nat)
    requires Moved(fat, data, l, dirs, d, name, k, h, fat1, data1, l1, fat2, data2, l2, s, z, first, bytes)
    requires x in l.chains && x != h && x != d
    ensures Kept(data, l, data2, l2, x)
  {
    assert Kept(data, l, data1, l1, x);
    assert Kept(data1, l1, data2, l2, x);
    KeptTrans(data, l, data1, l1, data2, l2, x);
  }

  lemma MovedChanged(fat: seq<nat>, data: seq<seq<nat>>, l: Layout, dirs: set<nat>, d: nat, name: seq<nat>, k: nat,
                     h: nat, fat1: seq<nat>, data1: seq<seq<nat>>, l1: Layout, fat2: seq<nat>, data2: seq<seq<nat>>,
                     l2: Layout, s: seq<nat>, z: seq<seq<nat>>, first: nat, bytes: seq<nat>)
    requires Moved(fat, data, l, dirs, d, name, k, h, fat1, data1, l1, fat2, data2, l2, s, z, first, bytes)
    requires first != 0 ==> Live(s) && FirstCluster(s) == first
    ensures Changed1(data, l, data2, l2, dirs, d, k, s, z) && FilesKept(data, l, data2, l2, dirs, d, k)
  {
    OldIsFile(fat, data, l, dirs, d, name, z, k, h);
    forall g | g in l2.chains && g != first ensures g in l.chains && !Owns(data, l, dirs, d, k, g) {
      TargetOwner(data, l, dirs, d, name, z, k, h, g);
    }
    HeadsPositive(fat2, l2);
    forall x | x in dirs ensures x in l2.chains && (x != d ==> SlotsIn(data2, l2, x) == SlotsIn(data, l, x)) {
      DirInTree(fat, data, l, dirs, x);
      if x != d {
        KeptThrough(fat, data, l, dirs, d, name, k, h, fat1, data1, l1, fat2, data2, l2, s, z, first, bytes, x);
        KeptMeans(data, l, data2, l2, x);
      }
    }
    forall x: nat, i: nat, g: nat | Owns(data, l, dirs, x, i, g) && (x, i) != (d, k)
      ensures g in l2.chains && (g !in dirs ==> SameFile(data, l, data2, l2, g))
    {
      NotOld(fat, data, l, dirs, d, name, z, k, h, x, i, g);
      if g != d {
        KeptThrough(fat, data, l, dirs, d, name, k, h, fat1, data1, l1, fat2, data2, l2, s, z, first, bytes, g);
        KeptMeans(data, l, data2, l2, g);
      }
    }
  }

  /** The entry being replaced owns the old data and nothing else. */
  lemma TargetOwner(data: seq<seq<nat>>, l: Layout, dirs: set<nat>, d: nat, name: seq<nat>, z: seq<seq<nat>>, k: nat,
                    h: nat, g: nat)
    requires Target(SlotsIn(data, l, d), z, k, name, h) && g != h
    ensures !Owns(data, l, dirs, d, k, g)
  {
  }

  /** The other entries' chains are not the one being replaced. */
  lemma NotOld(fat: seq<nat>, data: seq<seq<nat>>, l: Layout, dirs: set<nat>, d: nat, name: seq<nat>, z: seq<seq<nat>>,
               k: nat, h: nat, x: nat, i: nat, g: nat)
    requires FsInv(fat, data, l, dirs) && d in dirs && CanonicalName(name) && Target(SlotsIn(data, l, d), z, k, name, h)
    requires Owns(data, l, dirs, x, i, g) && (x, i) != (d, k)
    ensures g in l.chains && g != h
  {
    OldIsFile(fat, data, l, dirs, d, name, z, k, h);
    DirInTree(fat, data, l, dirs, x);
    assert SlotOk(l, dirs, SlotsIn(data, l, x)[i]);
    if h != 0 { OwnersDiffer(data, l, dirs, d, k, h, x, i, g); }
  }

  lemma OwnersDiffer(data: seq<seq<nat>>, l: Layout, dirs: set<nat>, d: nat, k: nat, h: nat, x: nat, i: nat, g: nat)
    requires Exclusive(data, l, dirs) && Owns(data, l, dirs, d, k, h) && Owns(data, l, dirs, x, i, g)
    requires (x, i) != (d, k)
    ensures g != h
  {
    hide Owns;
  }

  /** A missing name is no live entry's. */
  lemma MissingName(l: Layout, dirs: set<nat>, slots: seq<seq<nat>>, name: seq<nat>, j: nat)
    requires AllSlots(slots) && DirOk(slots, l, dirs) && Missing(slots, name) && j < |slots| && Live(slots[j])
    ensures Name(slots[j]) != To83(name)
  {
    var e :| EndsAt(slots, name, e);
    assert j < e;
    assert Passes(slots[j], name);
  }

  /** The new data's chain is still there at the end, and is no directory. */
  lemma NewChain(fat: seq<nat>, data: seq<seq<nat>>, l: Layout, dirs: set<nat>, d: nat, name: seq<nat>, k: nat, h: nat,
                 fat1: seq<nat>, data1: seq<seq<nat>>, l1: Layout, fat2: seq<nat>, data2: seq<seq<nat>>, l2: Layout,
                 s: seq<nat>, z: seq<seq<nat>>, first: nat, bytes: seq<nat>)
    requires Wrote(fat, data, l, dirs, d, name, k, h, fat1, data1, l1, fat2, data2, l2, s, z, first, bytes)
    requires first != 0
    ensures first !in dirs && first in l2.chains && InData(data2, l2.chains[first])
    ensures bytes <= Join(data2, l2.chains[first])
  {
    OldIsFile(fat, data, l, dirs, d, name, z, k, h);
    if first in dirs { DirInTree(fat, data, l, dirs, first); }
    assert Kept(data1, l1, data2, l2, first);
    KeptMeans(data1, l1, data2, l2, first);
  }

  lemma WroteFits(fat: seq<nat>, data: seq<seq<nat>>, l: Layout, dirs: set<nat>, d: nat, name: seq<nat>, k: nat, h: nat,
                  fat1: seq<nat>, data1: seq<seq<nat>>, l1: Layout, fat2: seq<nat>, data2: seq<seq<nat>>, l2: Layout,
                  s: seq<nat>, z: seq<seq<nat>>, first: nat, bytes: seq<nat>)
    requires Wrote(fat, data, l, dirs, d, name, k, h, fat1, data1, l1, fat2, data2, l2, s, z, first, bytes)
    ensures Fits(data, l, l2, dirs, d, k, s, z)
  {
    var slots := SlotsIn(data, l, d);
    OldIsFile(fat, data, l, dirs, d, name, z, k, h);
    DirInTree(fat, data, l, dirs, d);
    NoZeroDir(fat, data, l, dirs);
    assert NoOrphans(data, l, dirs);
    if first != 0 {
      NewChain(fat, data, l, dirs, d, name, k, h, fat1, data1, l1, fat2, data2, l2, s, z, first, bytes);
    } else {
      NoZeroDir(fat, data, l, dirs);
    }
    forall j | 0 <= j < |slots + z| && j != k && Live((slots + z)[j]) ensures Name((slots + z)[j]) != Name(s) {
      OtherName(l, dirs, slots, z, k, name, h, j);
    }
    forall x: nat, i: nat, g: nat | Owns(data, l, dirs, x, i, g) && (x, i) != (d, k) ensures first != 0 ==> g != first {
      NotOld(fat, data, l, dirs, d, name, z, k, h, x, i, g);
    }
    forall j | 0 <= j < k ensures (slots + z)[j][0] != 0 {
      if k < |slots| && FoundAt(slots, name, k) { assert Passes(slots[j], name); }
    }
  }

  lemma NoZeroDir(fat: seq<nat>, data: seq<seq<nat>>, l: Layout, dirs: set<nat>)
    requires FsInv(fat, data, l, dirs)
    ensures 0 !in dirs
  {
    HeadsPositive(fat, l);
    if 0 in dirs { DirInTree(fat, data, l, dirs, 0); }
  }

  lemma OtherName(l: Layout, dirs: set<nat>, slots: seq<seq<nat>>, z: seq<seq<nat>>, k: nat, name: seq<nat>, h: nat,
                  j: nat)
    requires AllSlots(slots) && DirOk(slots, l, dirs) && CanonicalName(name) && Target(slots, z, k, name, h)
    requires j < |slots + z| && j != k && Live((slots + z)[j])
    ensures Name((slots + z)[j]) != To83(name)
  {
    if j < |slots| {
      if k < |slots| && FoundAt(slots, name, k) {
        assert SlotOk(l, dirs, slots[k]);
        AnswerIsLive(l, dirs, slots[k], name);
      } else {
        MissingName(l, dirs, slots, name, j);
      }
    }
  }

  /** The written file is found and holds the bytes; the size field keeps 32 bits of their number. */
  lemma WroteStored(fat: seq<nat>, data: seq<seq<nat>>, l: Layout, dirs: set<nat>, d: nat, name: seq<nat>, k: nat,
                    h: nat, fat1: seq<nat>, data1: seq<seq<nat>>, l1: Layout, fat2: seq<nat>, data2: seq<seq<nat>>,
                    l2: Layout, s: seq<nat>, z: seq<seq<nat>>, first: nat, bytes: seq<nat>)
    requires Wrote(fat, data, l, dirs, d, name, k, h, fat1, data1, l1, fat2, data2, l2, s, z, first, bytes)
    ensures Stored(data2, l2, d, name, Recorded(bytes))
  {
    var slots, now := SlotsIn(data, l, d), SlotsIn(data2, l2, d);
    TargetFound(slots, z, k, name, h, s, now);
    if first != 0 {
      NewChain(fat, data, l, dirs, d, name, k, h, fat1, data1, l1, fat2, data2, l2, s, z, first, bytes);
    } else {
      HeadsPositive(fat2, l2);
    }
    assert FoundAt(now, name, k);
  }

  lemma TargetFound(slots: seq<seq<nat>>, z: seq<seq<nat>>, k: nat, name: seq<nat>, h: nat, s: seq<nat>,
                    now: seq<seq<nat>>)
    requires AllSlots(slots) && AllSlots(now) && Target(slots, z, k, name, h) && now == (slots + z)[k := s]
    requires |s| == ENTRY && Live(s) && Name(s) == To83(name)
    ensures FoundAt(now, name, k)
  {
    forall j | 0 <= j < k ensures Passes(now[j], name) {
      if k < |slots| && FoundAt(slots, name, k) {
        assert Passes(slots[j], name);
      } else {
        var e :| EndsAt(slots, name, e);
        PassedBefore(slots, z, k, name, e, j);
      }
    }
  }

  lemma PassedBefore(slots: seq<seq<nat>>, z: seq<seq<nat>>, k: nat, name: seq<nat>, e: int, j: nat)
    requires AllSlots(slots) && EndMarks(z) && k < |slots + z| && j < k && EndsAt(slots, name, e)
    requires forall i :: 0 <= i < k ==> (slots + z)[i][0] != 0
    ensures j < |slots| && Passes(slots[j], name)
  {
    assert (slots + z)[j][0] != 0;
    assert e < |slots| ==> (slots + z)[e] == slots[e];
  }

  /** The chains before and after a change to one name in directory `d`: the name's old data is gone and its new data
      is there, every other chain but the directory's is as before, and what went is free but for what came. */
  ghost predicate Moves(fat: seq<nat>, data: seq<seq<nat>>, l: Layout, fat': seq<nat>, data': seq<seq<nat>>, l': Layout,
                        d: nat, name: seq<nat>) {
    var h, first := HeadOf(data, l, d, name), HeadOf(data', l', d, name);
    && Rechained(l, l', d, h, first)
    && FreeClusters(fat') + ClustersOf(l', first) + ClustersOf(l', d) ==
         FreeClusters(fat) + ClustersOf(l, h) + ClustersOf(l, d)
  }

  lemma MovedChains(fat: seq<nat>, data: seq<seq<nat>>, l: Layout, dirs: set<nat>, d: nat, name: seq<nat>, k: nat,
                    h: nat, fat1: seq<nat>, data1: seq<seq<nat>>, l1: Layout, fat2: seq<nat>, data2: seq<seq<nat>>,
                    l2: Layout, s: seq<nat>, z: seq<seq<nat>>, first: nat, bytes: seq<nat>)
    requires Moved(fat, data, l, dirs, d, name, k, h, fat1, data1, l1, fat2, data2, l2, s, z, first, bytes)
    ensures Rechained(l, l2, d, h, first)
    ensures FreeClusters(fat2) + ClustersOf(l2, first) + ClustersOf(l2, d) ==
      FreeClusters(fat) + ClustersOf(l, h) + ClustersOf(l, d)
  {
    OldIsFile(fat, data, l, dirs, d, name, z, k, h);
    DirInTree(fat, data, l, dirs, d);
    HeadsPositive(fat, l);
    assert Kept(data, l, data1, l1, d);
    forall x | x in l.chains && x != h
      ensures x in l2.chains && if x == d then l.chains[x] <= l2.chains[x] else l2.chains[x] == l.chains[x]
    {
      if x != d {
        KeptThrough(fat, data, l, dirs, d, name, k, h, fat1, data1, l1, fat2, data2, l2, s, z, first, bytes, x);
      }
    }
    Reclaimed(fat, l, fat2, l2, d, h, first);
  }

  lemma WroteHeads(fat: seq<nat>, data: seq<seq<nat>>, l: Layout, dirs: set<nat>, d: nat, name: seq<nat>, k: nat,
                   h: nat, fat1: seq<nat>, data1: seq<seq<nat>>, l1: Layout, fat2: seq<nat>, data2: seq<seq<nat>>,
                   l2: Layout, s: seq<nat>, z: seq<seq<nat>>, first: nat, bytes: seq<nat>)
    requires Wrote(fat, data, l, dirs, d, name, k, h, fat1, data1, l1, fat2, data2, l2, s, z, first, bytes)
    ensures HeadOf(data, l, d, name) == h && HeadOf(data2, l2, d, name) == first
  {
    TargetHead(data, l, d, name, z, k, h);
    TargetFound(SlotsIn(data, l, d), z, k, name, h, s, SlotsIn(data2, l2, d));
    HeadFound(data2, l2, d, name, k);
  }

  lemma TargetHead(data: seq<seq<nat>>, l: Layout, d: nat, name: seq<nat>, z: seq<seq<nat>>, k: nat, h: nat)
    requires Target(SlotsIn(data, l, d), z, k, name, h)
    ensures HeadOf(data, l, d, name) == h
  {
    var slots := SlotsIn(data, l, d);
    if k < |slots| && FoundAt(slots, name, k) { HeadFound(data, l, d, name, k); } else { MissingMeans(slots, name); }
  }

  /** A write that reaches its end keeps the invariant, stores the file and touches no other. */
  lemma WriteDone(fat: seq<nat>, data: seq<seq<nat>>, l: Layout, dirs: set<nat>, d: nat, name: seq<nat>, k: nat, h: nat,
                  fat1: seq<nat>, data1: seq<seq<nat>>, l1: Layout, fat2: seq<nat>, data2: seq<seq<nat>>, l2: Layout,
                  s: seq<nat>, z: seq<seq<nat>>, first: nat, bytes: seq<nat>)
    requires Wrote(fat, data, l, dirs, d, name, k, h, fat1, data1, l1, fat2, data2, l2, s, z, first, bytes)
    ensures FsInv(fat2, data2, l2, dirs)
    ensures Stored(data2, l2, d, name, Recorded(bytes))
    ensures OthersSame(data, l, data2, l2, dirs, d, name)
    ensures Moves(fat, data, l, fat2, data2, l2, d, name)
  {
    MovedChains(fat, data, l, dirs, d, name, k, h, fat1, data1, l1, fat2, data2, l2, s, z, first, bytes);
    WroteHeads(fat, data, l, dirs, d, name, k, h, fat1, data1, l1, fat2, data2, l2, s, z, first, bytes);
    MovedChanged(fat, data, l, dirs, d, name, k, h, fat1, data1, l1, fat2, data2, l2, s, z, first, bytes);
    WroteFits(fat, data, l, dirs, d, name, k, h, fat1, data1, l1, fat2, data2, l2, s, z, first, bytes);
    WroteStored(fat, data, l, dirs, d, name, k, h, fat1, data1, l1, fat2, data2, l2, s, z, first, bytes);
    ChangeKeepsInv(fat, data, l, fat2, data2, l2, dirs, d, k, s, z);
    TargetForName(fat, data, l, dirs, d, name, k, h, z);
    ChangeKeepsOthers(fat, data, l, fat2, data2, l2, dirs, d, k, s, z, name);
  }

  lemma TargetForName(fat: seq<nat>, data: seq<seq<nat>>, l: Layout, dirs: set<nat>, d: nat, name: seq<nat>, k: nat,
                      h: nat, z: seq<seq<nat>>)
    requires FsInv(fat, data, l, dirs) && d in dirs && CanonicalName(name) && Target(SlotsIn(data, l, d), z, k, name, h)
    ensures ForName((SlotsIn(data, l, d) + z)[k], name)
  {
    var slots := SlotsIn(data, l, d);
    if k < |slots| && FoundAt(slots, name, k) { FoundFile(fat, data, l, dirs, d, name, k); }
  }

  // ---- Writing the entry ----

  predicate IsFree(s: seq<nat>)
    requires |s| == ENTRY
  {
    s[0] == 0 || s[0] == DELETED
  }

  /** The first `n` entries are in use. */
  ghost predicate UsedBefore(slots: seq<seq<nat>>, n: nat)
    requires AllSlots(slots) && n <= |slots|
  {
    forall j :: 0 <= j < n ==> !IsFree(slots[j])
  }

  /** The first free entry of a cluster, or the number of entries. */
  method ScanFree(base: seq<nat>) returns (i: nat)
    ensures i <= |SlotsOf(base)| && (i < |SlotsOf(base)| ==> IsFree(SlotsOf(base)[i]))
    ensures UsedBefore(SlotsOf(base), i)
  {
    i := 0;
    while i < |base| / ENTRY && !IsFree(base[ENTRY * i..ENTRY * i + ENTRY])
      invariant i <= |SlotsOf(base)| && UsedBefore(SlotsOf(base), i)
    {
      assert SlotsOf(base)[i] == base[ENTRY * i..ENTRY * i + ENTRY];
      i := i + 1;
    }
    assert i < |SlotsOf(base)| ==> SlotsOf(base)[i] == base[ENTRY * i..ENTRY * i + ENTRY];
  }

  /** Rewrites one entry of a cluster. */
  method PutEntry(v: Volume, cluster: nat, base: seq<nat>, i: nat, s: seq<nat>, ghost l: Layout)
    requires Holds(v, l) && 2 <= cluster < v.g.total + 2 && base == v.Data()[cluster - 2] && i < |SlotsOf(base)|
    requires IsSlot(s)
    modifies v.cache, v.cache.entries
    ensures Holds(v, l) && v.Fat() == old(v.Fat())
    ensures v.Data() == old(v.Data())[cluster - 2 := PutSlot(base, i, s)]
  {
    hide Volume.Valid, Volume.Fat, Volume.Data, LayoutOk, FatDirectory.PutSlot;
    PutSlotIs(base, i, s);
    v.ClusterWrite(cluster, PutSlot(base, i, s));
  }

  /** The directory with entry `k` rewritten through its cluster. */
  lemma EntryPut(fat: seq<nat>, data: seq<seq<nat>>, l: Layout, d: nat, j: nat, i: nat, k: nat, s: seq<nat>)
    requires LayoutOk(fat, l) && |fat| == |data| + 2 && d in l.chains && InData(data, l.chains[d])
    requires Placed(data, l.chains[d], j, i, k) && |s| == ENTRY
    ensures var c := l.chains[d][j];
            && ENTRY * i + ENTRY <= |data[c - 2]| && k < |SlotsIn(data, l, d)|
            && SlotsIn(data[c - 2 := PutSlot(data[c - 2], i, s)], l, d) == SlotsIn(data, l, d)[k := s]
            && forall x {:trigger Kept(data, l, data[c - 2 := PutSlot(data[c - 2], i, s)], l, x)} ::
                 x in l.chains && x != d ==>
              Kept(data, l, data[c - 2 := PutSlot(data[c - 2], i, s)], l, x)
  {
    DirChain(fat, data, l, d);
    var c := l.chains[d][j];
    PutInDirectory(data, l.chains[d], j, i, k, s);
    forall x | x in l.chains && x != d ensures Kept(data, l, data[c - 2 := PutSlot(data[c - 2], i, s)], l, x) {
      KeptPut(fat, data, l, d, j, PutSlot(data[c - 2], i, s), x);
    }
  }

  lemma ExtendedSlots(fat: seq<nat>, data: seq<seq<nat>>, l: Layout, d: nat, c: nat, n: nat)
    requires LayoutOk(fat, l) && |fat| == |data| + 2 && d in l.chains && 2 <= c < |fat| && c !in l.owner
    ensures var ch, data' := l.chains[d], data[c - 2 := Zeros(n)];
            && InData(data', ch) && DirSlots(data', ch) == SlotsIn(data, l, d) && EndMarks(SlotsOf(Zeros(n)))
            && InData(data', ch + [c]) && DirSlots(data', ch + [c]) == SlotsIn(data, l, d) + SlotsOf(Zeros(n))
  {
    var ch, data' := l.chains[d], data[c - 2 := Zeros(n)];
    DirChain(fat, data, l, d);
    forall i | 0 <= i < |ch| ensures ch[i] != c { assert PlaceOk(l, d, i); }
    DirSlotsSame(data, data', ch);
    DirSlotsNext(data', ch, c);
  }

  /** The directory with a zeroed cluster added. */
  lemma DirExtended(fat: seq<nat>, data: seq<seq<nat>>, l: Layout, d: nat, c: nat, n: nat)
    requires LayoutOk(fat, l) && |fat| == |data| + 2 && d in l.chains && 2 <= c < |fat| && c !in l.owner
    requires c !in l.chains
    ensures var l', data' := Linked(Taken(l, c), d, c), data[c - 2 := Zeros(n)];
            && SlotsIn(data', l', d) == SlotsIn(data, l, d) + SlotsOf(Zeros(n)) && EndMarks(SlotsOf(Zeros(n)))
            && InData(data', l.chains[d]) && DirSlots(data', l.chains[d]) == SlotsIn(data, l, d)
            && InData(data', l'.chains[d]) && l'.chains[d] == l.chains[d] + [c]
            && forall x {:trigger Kept(data, l, data', l', x)} ::
                 x in l.chains && x != d ==> Kept(data, l, data', l', x)
  {
    var l', data' := Linked(Taken(l, c), d, c), data[c - 2 := Zeros(n)];
    ExtendedSlots(fat, data, l, d, c, n);
    forall x | x in l.chains && x != d
      ensures Kept(data, l, data', l', x)
    {
      KeptExtend(fat, data, l, d, c, Zeros(n), x);
    }
  }

  /** Everything in the clusters already passed is in use. */
  ghost predicate NoneFree(slots: seq<seq<nat>>)
    requires AllSlots(slots)
  {
    forall x :: 0 <= x < |slots| ==> !IsFree(slots[x])
  }

  lemma NoneFreeMore(data: seq<seq<nat>>, ch: seq<nat>, j: nat, b: seq<seq<nat>>)
    requires InData(data, ch) && j < |ch| && b == SlotsOf(data[ch[j] - 2]) && NoneFree(DirSlots(data, ch[..j]))
    requires NoneFree(b)
    ensures NoneFree(DirSlots(data, ch[..j + 1]))
  {
    assert ch[..j + 1] == ch[..j] + [ch[j]];
    DirSlotsNext(data, ch[..j], ch[j]);
  }

  /** The first free entry of the directory, grown by end markers `z`. */
  ghost predicate FirstFree(slots: seq<seq<nat>>, z: seq<seq<nat>>, k: nat)
    requires AllSlots(slots)
  {
    EndMarks(z) && k < |slots + z| && IsFree((slots + z)[k]) && forall j :: 0 <= j < k ==> !IsFree((slots + z)[j])
  }

  lemma FreeFound(data: seq<seq<nat>>, ch: seq<nat>, j: nat, i: nat, slots: seq<seq<nat>>, z: seq<seq<nat>>)
    requires InData(data, ch) && j < |ch| && i < |SlotsOf(data[ch[j] - 2])| && NoneFree(DirSlots(data, ch[..j]))
    requires AllSlots(slots) && EndMarks(z) && DirSlots(data, ch) == slots + z
    requires IsFree(SlotsOf(data[ch[j] - 2])[i])
    requires UsedBefore(SlotsOf(data[ch[j] - 2]), i)
    ensures var k := |DirSlots(data, ch[..j])| + i;
            Placed(data, ch, j, i, k) && FirstFree(slots, z, k) && (slots + z)[k] == SlotsOf(data[ch[j] - 2])[i]
  {
    hide DirSlots, SlotsOf;
    var a, b, k := DirSlots(data, ch[..j]), SlotsOf(data[ch[j] - 2]), |DirSlots(data, ch[..j])| + i;
    PlacedSlot(data, ch, j, i, k);
    assert ch[..j + 1] == ch[..j] + [ch[j]];
    DirSlotsNext(data, ch[..j], ch[j]);
    DirSlotsPrefix(data, ch, j + 1);
    forall x | 0 <= x < k ensures !IsFree((slots + z)[x]) {
      assert (slots + z)[x] == (a + b)[x];
    }
  }

  /** What adding an entry does: the first free slot takes it, and every other chain is kept. */
  ghost predicate Inserted(data: seq<seq<nat>>, l: Layout, data': seq<seq<nat>>, l': Layout, d: nat, k: nat,
                           s: seq<nat>, z: seq<seq<nat>>) {
    && FirstFree(SlotsIn(data, l, d), z, k) && d in l'.chains && |s| == ENTRY && SameHeads(l, l', d)
    && |data'| == |data|
    && SlotsIn(data', l', d) == (SlotsIn(data, l, d) + z)[k := s]
    && (forall x {:trigger Kept(data, l, data', l', x)} :: x in l.chains && x != d ==> Kept(data, l, data', l', x))
  }

  /** The directory so far: as it was, or grown by one zeroed cluster. */
  ghost predicate Growing(data: seq<seq<nat>>, l: Layout, data': seq<seq<nat>>, l': Layout, d: nat, z: seq<seq<nat>>) {
    && EndMarks(z) && d in l'.chains && InData(data', l'.chains[d]) && SlotsIn(data', l', d) == SlotsIn(data, l, d) + z
    && SameHeads(l, l', d) && |data'| == |data|
    && (forall x {:trigger Kept(data, l, data', l', x)} :: x in l.chains && x != d ==> Kept(data, l, data', l', x))
  }

  lemma NotGrown(fat: seq<nat>, data: seq<seq<nat>>, l: Layout, d: nat)
    requires LayoutOk(fat, l) && |fat| == |data| + 2 && d in l.chains
    ensures Growing(data, l, data, l, d, [])
  {
    DirChain(fat, data, l, d);
    assert SlotsIn(data, l, d) + [] == SlotsIn(data, l, d);
    forall x | x in l.chains && x != d ensures Kept(data, l, data, l, x) { ChainInRange(fat, l, x); }
  }

  lemma GrowThenPut(fat: seq<nat>, data: seq<seq<nat>>, l: Layout, data1: seq<seq<nat>>, l1: Layout, d: nat,
                    z: seq<seq<nat>>, j: nat, i: nat, s: seq<nat>)
    requires Growing(data, l, data1, l1, d, z) && LayoutOk(fat, l1) && |fat| == |data1| + 2 && |s| == ENTRY
    requires j < |l1.chains[d]| && i < |SlotsOf(data1[l1.chains[d][j] - 2])|
    requires NoneFree(DirSlots(data1, l1.chains[d][..j]))
    requires IsFree(SlotsOf(data1[l1.chains[d][j] - 2])[i])
    requires UsedBefore(SlotsOf(data1[l1.chains[d][j] - 2]), i)
    ensures var c, k := l1.chains[d][j], |DirSlots(data1, l1.chains[d][..j])| + i;
            && k < |SlotsIn(data, l, d) + z| && (SlotsIn(data, l, d) + z)[k] == SlotsOf(data1[c - 2])[i]
            && Inserted(data, l, data1[c - 2 := PutSlot(data1[c - 2], i, s)], l1, d, k, s, z)
  {
    hide NoneFree, UsedBefore, PutSlot, FirstFree, Placed;
    var c, k := l1.chains[d][j], |DirSlots(data1, l1.chains[d][..j])| + i;
    FreeFound(data1, l1.chains[d], j, i, SlotsIn(data, l, d), z);
    EntryPut(fat, data1, l1, d, j, i, k, s);
    var data2 := data1[c - 2 := PutSlot(data1[c - 2], i, s)];
    forall x | x in l.chains && x != d ensures Kept(data, l, data2, l1, x) {
      assert Kept(data, l, data1, l1, x);
      assert Kept(data1, l1, data2, l1, x);
      KeptTrans(data, l, data1, l1, data2, l1, x);
    }
  }

  lemma AllUsed(b: seq<seq<nat>>)
    requires AllSlots(b) && UsedBefore(b, |b|)
    ensures NoneFree(b) && (|b| > 0 ==> !IsFree(b[0]))
  {
  }

  lemma NothingFree(data: seq<seq<nat>>, ch: seq<nat>)
    ensures NoneFree(DirSlots(data, ch[..0]))
  {
  }

  lemma NewEntryIs(base: seq<nat>, i: nat, name: seq<nat>, first: nat, size: nat)
    requires Bytes(base) && i < |SlotsOf(base)| && Bytes(To83(name)) && first < FULL
    ensures IsSlot(NewEntry(SlotsOf(base)[i], To83(name), first, size))
  {
    var s := SlotsOf(base)[i];
    RedirectedIs(To83(name) + [ATTR_ARCHIVE] + s[12..], first, size);
  }

  /** A zeroed cluster has room. */
  lemma ZerosHaveRoom(v: Volume)
    requires v.Valid()
    ensures |SlotsOf(Zeros(ClusterSize(v.g)))| > 0 && IsFree(SlotsOf(Zeros(ClusterSize(v.g)))[0])
  {
    v.Shape();
    MulMono(1, v.g.spc, v.g.bps);
  }

  /** One zeroed cluster more at the end of a directory. */
  method ExtendDir(v: Volume, dir: nat, last: nat,
                   ghost l: Layout) returns (more: bool, nx: nat, ghost l': Layout, ghost z: seq<seq<nat>>)
    requires Holds(v, l) && dir in l.chains && |l.chains[dir]| > 0 && last == l.chains[dir][|l.chains[dir]| - 1]
    requires InData(v.Data(), l.chains[dir]) && NoneFree(DirSlots(v.Data(), l.chains[dir]))
    modifies v.cache, v.cache.entries
    ensures Holds(v, l')
    ensures !more ==> FreeClusters(v.Fat()) == {} && l' == l && v.Fat() == old(v.Fat()) && v.Data() == old(v.Data())
    ensures more ==> nx in FreeClusters(old(v.Fat())) && FreeClusters(v.Fat()) == FreeClusters(old(v.Fat())) - {nx}
    ensures more ==> Growing(old(v.Data()), l, v.Data(), l', dir, z) && z != []
    ensures more ==> dir in l'.chains && l'.chains[dir] == l.chains[dir] + [nx] && InData(v.Data(), l'.chains[dir])
    ensures more ==>
      v.Data()[nx - 2] == Zeros(ClusterSize(v.g)) && NoneFree(DirSlots(v.Data(), l'.chains[dir][..|l.chains[dir]|]))
  {
    hide Volume.Valid, Volume.Fat, Volume.Data, LayoutOk, Growing, NoneFree, SlotsIn, IsFree, DirSlots, EndMarks;
    hide FreeClusters, Zeros, ClusterSize;
    ghost var fat, data := v.Fat(), v.Data();
    z := [];
    nx, l' := AllocCluster(v, l);
    if nx == 0 {
      return false, 0, l', z;
    }
    ZerosHaveRoom(v);
    DirGrown(fat, data, l, dir, nx, ClusterSize(v.g));
    l' := LinkCluster(v, dir, last, nx, l');
    OneTaken(fat, l, v.Fat(), l', nx);
    z := SlotsOf(Zeros(ClusterSize(v.g)));
    more := true;
  }

  lemma OneTaken(fat: seq<nat>, l: Layout, fat': seq<nat>, l': Layout, c: nat)
    requires LayoutOk(fat, l) && LayoutOk(fat', l') && |fat'| == |fat| && InRange(fat, c) && c !in l.owner
    requires l'.owner.Keys == l.owner.Keys + {c}
    ensures c in FreeClusters(fat) && FreeClusters(fat') == FreeClusters(fat) - {c}
  {
    FreeAre(fat, l);
    FreeAre(fat', l');
  }

  lemma DirGrown(fat: seq<nat>, data: seq<seq<nat>>, l: Layout, d: nat, c: nat, n: nat)
    requires LayoutOk(fat, l) && |fat| == |data| + 2 && d in l.chains && 2 <= c < |fat| && c !in l.owner
    requires c !in l.chains
    requires InData(data, l.chains[d]) && NoneFree(DirSlots(data, l.chains[d]))
    ensures var l', data' := Linked(Taken(l, c), d, c), data[c - 2 := Zeros(n)];
            && Growing(data, l, data', l', d, SlotsOf(Zeros(n)))
            && d in l'.chains && l'.chains[d] == l.chains[d] + [c] && InData(data', l'.chains[d])
            && NoneFree(DirSlots(data', l'.chains[d][..|l.chains[d]|]))
  {
    DirExtended(fat, data, l, d, c, n);
    var l' := Linked(Taken(l, c), d, c);
    assert l'.chains[d][..|l.chains[d]|] == l.chains[d];
  }

  /** The clusters a directory grows by when it gets an entry. */
  ghost function Grows(slots: seq<seq<nat>>): nat
    requires AllSlots(slots)
  {
    if NoneFree(slots) then 1 else 0
  }

  lemma RoomFound(slots: seq<seq<nat>>, z: seq<seq<nat>>, k: nat)
    requires AllSlots(slots) && FirstFree(slots, z, k) && z == []
    ensures Grows(slots) == 0
  {
    assert slots + [] == slots;
  }

  lemma OneLess(free: set<nat>, c: nat)
    requires c in free
    ensures |free - {c}| == |free| - 1
  {
  }

  lemma InsertedFree(data: seq<seq<nat>>, l: Layout, data': seq<seq<nat>>, l': Layout, d: nat, k: nat, s: seq<nat>,
                     z: seq<seq<nat>>)
    requires Inserted(data, l, data', l', d, k, s, z)
    ensures z == [] ==> Grows(SlotsIn(data, l, d)) == 0
  {
    if z == [] { RoomFound(SlotsIn(data, l, d), z, k); }
  }

  /** The new entry goes to the first free slot, number `i` of the directory's cluster `c`. */
  method EnterAt(v: Volume, c: nat, base: seq<nat>, i: nat, name: seq<nat>, first: nat, size: nat, ghost dir: nat,
                 ghost j: nat, ghost data: seq<seq<nat>>, ghost l: Layout, ghost l': Layout, ghost z: seq<seq<nat>>)
    returns (ghost k: nat, ghost s: seq<nat>)
    requires Holds(v, l') && Growing(data, l, v.Data(), l', dir, z) && Bytes(To83(name)) && first < FULL
    requires dir in l'.chains && j < |l'.chains[dir]| && c == l'.chains[dir][j] && InData(v.Data(), l'.chains[dir])
    requires NoneFree(DirSlots(v.Data(), l'.chains[dir][..j])) && base == v.Data()[c - 2] && Bytes(base)
    requires i < |SlotsOf(base)| && IsFree(SlotsOf(base)[i]) && UsedBefore(SlotsOf(base), i)
    modifies v.cache, v.cache.entries
    ensures Holds(v, l') && v.Fat() == old(v.Fat()) && Inserted(data, l, v.Data(), l', dir, k, s, z)
    ensures s == NewEntry((SlotsIn(data, l, dir) + z)[k], To83(name), first, size) && IsSlot(s)
    ensures z == [] ==> Grows(SlotsIn(data, l, dir)) == 0
  {
    hide Volume.Valid, Volume.Fat, Volume.Data, LayoutOk, Growing, Inserted, NoneFree, SlotsIn, IsFree, DirSlots;
    hide UsedBefore, NewEntry, To83, FatDirectory.PutSlot, Grows;
    NewEntryIs(base, i, name, first, size);
    s := NewEntry(SlotsOf(base)[i], To83(name), first, size);
    GrowThenPut(v.Fat(), data, l, v.Data(), l', dir, z, j, i, s);
    k := |DirSlots(v.Data(), l'.chains[dir][..j])| + i;
    PutEntry(v, c, base, i, NewEntry(SlotsOf(base)[i], To83(name), first, size), l');
    InsertedFree(data, l, v.Data(), l', dir, k, s, z);
  }

  /** Adds an entry in the first free slot, growing the directory when all slots are used. Fails exactly when they are
      and no cluster is free. The walk along the directory cannot leave the loop any other way. */
  method InsertEntry(v: Volume, dir: nat, name: seq<nat>, first: nat, size: nat, ghost l: Layout)
    returns (ok: bool, ghost l': Layout, ghost k: nat, ghost s: seq<nat>, ghost z: seq<seq<nat>>)
    requires Holds(v, l) && dir in l.chains && Bytes(To83(name)) && first < FULL
    modifies v.cache, v.cache.entries
    ensures Holds(v, l')
    ensures ok ==> Inserted(old(v.Data()), l, v.Data(), l', dir, k, s, z)
    ensures ok ==> s == NewEntry((SlotsIn(old(v.Data()), l, dir) + z)[k], To83(name), first, size) && IsSlot(s)
    ensures !ok ==> l' == l && v.Fat() == old(v.Fat()) && v.Data() == old(v.Data())
    ensures ok <==> Grows(SlotsIn(old(v.Data()), l, dir)) <= |FreeClusters(old(v.Fat()))|
    ensures ok ==> FreeClusters(v.Fat()) <= FreeClusters(old(v.Fat()))
    ensures ok ==>
      && |FreeClusters(v.Fat())| + Grows(SlotsIn(old(v.Data()), l, dir)) == |FreeClusters(old(v.Fat()))|
      && dir in l'.chains && |l'.chains[dir]| == |l.chains[dir]| + Grows(SlotsIn(old(v.Data()), l, dir))
  {
    hide Volume.Valid, Volume.Fat, Volume.Data, LayoutOk, Growing, Inserted, NoneFree, SlotsIn, IsFree, DirSlots;
    hide UsedBefore, NewEntry, To83, FatDirectory.PutSlot, FreeClusters, Grows;
    ghost var data0, fat0, free := v.Data(), v.Fat(), FreeClusters(v.Fat());
    l' := l;
    k, s, z := 0, [], [];
    NotGrown(v.Fat(), data0, l, dir);
    DirChain(v.Fat(), data0, l, dir);
    ghost var j := 0;
    NothingFree(data0, l.chains[dir]);
    var c := dir;
    while true
      invariant Holds(v, l') && Growing(data0, l, v.Data(), l', dir, z) && dir in l'.chains
      invariant InData(v.Data(), l'.chains[dir])
      invariant j < |l'.chains[dir]| && c == l'.chains[dir][j] && NoneFree(DirSlots(v.Data(), l'.chains[dir][..j]))
      invariant z == [] ==> l' == l && v.Data() == data0 && v.Fat() == fat0
      invariant z != [] ==> j == |l'.chains[dir]| - 1 && v.Data()[c - 2] == Zeros(ClusterSize(v.g))
      invariant z != [] ==> Grows(SlotsIn(data0, l, dir)) == 1 && |l'.chains[dir]| == |l.chains[dir]| + 1
      invariant z != [] ==> FreeClusters(v.Fat()) <= free && |FreeClusters(v.Fat())| + 1 == |free|
      decreases if z == [] then 1 else 0, |l'.chains[dir]| - j
    {
      ChainStep(v.Fat(), l', dir, j);
      ghost var data1 := v.Data();
      var base := v.ClusterRead(c);
      var i := ScanFree(base);
      if i < |base| / ENTRY {
        k, s := EnterAt(v, c, base, i, name, first, size, dir, j, data0, l, l', z);
        return true, l', k, s, z;
      }
      ZerosHaveRoom(v);
      AllUsed(SlotsOf(base));
      assert z == [];
      NoneFreeMore(data1, l'.chains[dir], j, SlotsOf(base));
      var nx := v.FatEntry(c);
      if nx >= EOC {
        assert l.chains[dir][..j + 1] == l.chains[dir];
        AllInUse(data0, l, dir);
        var more;
        more, nx, l', z := ExtendDir(v, dir, c, l);
        if !more {
          return false, l', 0, [], z;
        }
        OneLess(free, nx);
      }
      c := nx;
      j := j + 1;
    }
  }

  lemma AllInUse(data: seq<seq<nat>>, l: Layout, d: nat)
    requires d in l.chains && InData(data, l.chains[d]) && NoneFree(DirSlots(data, l.chains[d]))
    ensures Grows(SlotsIn(data, l, d)) == 1
  {
  }

  // ---- The two ways a write ends ----

  /** The name had an entry: it is redirected in place. */
  lemma WroteOver(fat: seq<nat>, data: seq<seq<nat>>, l: Layout, dirs: set<nat>, d: nat, name: seq<nat>, j: nat, i: nat,
                  k: nat, h: nat, fat1: seq<nat>, data1: seq<seq<nat>>, l1: Layout, s: seq<nat>, first: nat,
                  bytes: seq<nat>)
    requires FsInv(fat, data, l, dirs) && d in dirs && CanonicalName(name) && d in l.chains && InData(data, l.chains[d])
    requires Placed(data, l.chains[d], j, i, k) && FoundAt(SlotsIn(data, l, d), name, k)
    requires FirstCluster(SlotsIn(data, l, d)[k]) == h && !IsDirectory(SlotsIn(data, l, d)[k]) && first < FULL
    requires Mid(fat1, data, l, data1, l1, h, first, bytes)
    requires s == Redirected(SlotsIn(data, l, d)[k], first, |bytes|)
    ensures var c := l.chains[d][j];
            && 2 <= c < |fat1| && i < |SlotsOf(data1[c - 2])| && SlotsOf(data1[c - 2])[i] == SlotsIn(data, l, d)[k]
            && IsSlot(s)
            && Wrote(fat, data, l, dirs, d, name, k, h, fat1, data1, l1, fat1,
                     data1[c - 2 := PutSlot(data1[c - 2], i, s)], l1, s, [], first, bytes)
  {
    hide SlotsIn, LayoutOk, FsInv, Redirected, Kept, Placed, SlotOk;
    var slots := SlotsIn(data, l, d);
    assert slots + [] == slots;
    FoundFile(fat, data, l, dirs, d, name, k);
    OldIsFile(fat, data, l, dirs, d, name, [], k, h);
    OverEntry(l, dirs, slots[k], name, first, |bytes|);
    assert Kept(data, l, data1, l1, d);
    OverData(fat1, data, l, data1, l1, d, j, i, k, s);
  }

  lemma OverEntry(l: Layout, dirs: set<nat>, was: seq<nat>, name: seq<nat>, first: nat, size: nat)
    requires SlotOk(l, dirs, was) && Live(was) && Name(was) == To83(name) && !IsDirectory(was) && first < FULL
    ensures FileEntry(Redirected(was, first, size), name, first, size)
  {
    RedirectedIs(was, first, size);
    Redirects(was, Redirected(was, first, size));
  }

  lemma OverData(fat1: seq<nat>, data: seq<seq<nat>>, l: Layout, data1: seq<seq<nat>>, l1: Layout, d: nat, j: nat,
                 i: nat, k: nat, s: seq<nat>)
    requires Kept(data, l, data1, l1, d) && LayoutOk(fat1, l1) && |fat1| == |data1| + 2
    requires Placed(data, l.chains[d], j, i, k) && |s| == ENTRY
    ensures var c := l.chains[d][j];
            && 2 <= c < |fat1| && i < |SlotsOf(data1[c - 2])| && d in l1.chains && k < |SlotsIn(data, l, d)|
            && SlotsOf(data1[c - 2])[i] == SlotsIn(data, l, d)[k]
            && SlotsIn(data1[c - 2 := PutSlot(data1[c - 2], i, s)], l1, d) == SlotsIn(data, l, d)[k := s]
            && forall x {:trigger Kept(data1, l1, data1[c - 2 := PutSlot(data1[c - 2], i, s)], l1, x)} ::
                 x in l1.chains && x != d ==>
              Kept(data1, l1, data1[c - 2 := PutSlot(data1[c - 2], i, s)], l1, x)
  {
    PlacedKept(data, l, data1, l1, d, j, i, k);
    PlacedSlot(data, l.chains[d], j, i, k);
    KeptMeans(data, l, data1, l1, d);
    EntryPut(fat1, data1, l1, d, j, i, k, s);
  }

  lemma Redirects(s: seq<nat>, s': seq<nat>)
    requires |s| == ENTRY && |s'| == ENTRY && s'[..20] == s[..20]
    ensures Name(s') == Name(s) && (Live(s') <==> Live(s)) && (IsDirectory(s') <==> IsDirectory(s))
  {
    assert s'[0] == s'[..20][0] && s[0] == s[..20][0] && s'[11] == s'[..20][11] && s[11] == s[..20][11];
    assert s'[..11] == s'[..20][..11] && s[..11] == s[..20][..11];
  }

  lemma PlacedKept(data: seq<seq<nat>>, l: Layout, data': seq<seq<nat>>, l': Layout, d: nat, j: nat, i: nat, k: nat)
    requires Kept(data, l, data', l', d) && Placed(data, l.chains[d], j, i, k)
    ensures InData(data', l'.chains[d]) && Placed(data', l'.chains[d], j, i, k)
  {
    DirSlotsSame(data, data', l.chains[d][..j]);
  }

  /** The name had none: a new entry is added. */
  lemma WroteNew(fat: seq<nat>, data: seq<seq<nat>>, l: Layout, dirs: set<nat>, d: nat, name: seq<nat>, k: nat,
                 fat1: seq<nat>, data1: seq<seq<nat>>, l1: Layout, fat2: seq<nat>, data2: seq<seq<nat>>, l2: Layout,
                 s: seq<nat>, z: seq<seq<nat>>, first: nat, bytes: seq<nat>)
    requires FsInv(fat, data, l, dirs) && d in dirs && CanonicalName(name) && Missing(SlotsIn(data, l, d), name)
    requires first < FULL
    requires Mid(fat1, data, l, data1, l1, 0, first, bytes) && Inserted(data1, l1, data2, l2, d, k, s, z)
    requires s == NewEntry((SlotsIn(data1, l1, d) + z)[k], To83(name), first, |bytes|) && IsSlot(s)
    requires LayoutOk(fat2, l2) && |fat2| == |data2| + 2
    ensures Wrote(fat, data, l, dirs, d, name, k, 0, fat1, data1, l1, fat2, data2, l2, s, z, first, bytes)
  {
    DirInTree(fat, data, l, dirs, d);
    NoZeroDir(fat, data, l, dirs);
    var slots := SlotsIn(data, l, d);
    assert Kept(data, l, data1, l1, d);
    KeptMeans(data, l, data1, l1, d);
    NewIsFile((slots + z)[k], name, first, |bytes|);
    if k < |slots| && FoundAt(slots, name, k) { SearchOnce(slots, name, k, k); }
  }

  lemma NewIsFile(was: seq<nat>, name: seq<nat>, first: nat, size: nat)
    requires |was| == ENTRY && CanonicalName(name) && first < FULL && IsSlot(NewEntry(was, To83(name), first, size))
    ensures FileEntry(NewEntry(was, To83(name), first, size), name, first, size)
  {
    var t, s := To83(name) + [ATTR_ARCHIVE] + was[12..], NewEntry(was, To83(name), first, size);
    WordLow(size);
    NewFields(t, first, size);
    assert t[..11] == To83(name) && t[11] == ATTR_ARCHIVE && t[0] == To83(name)[0];
    Redirects(t, s);
    FirstLetter(To83(name));
  }

  lemma NewFields(t: seq<nat>, first: nat, size: nat)
    requires |t| == ENTRY && first < FULL
    ensures
      var s := Redirected(t, first, size); FirstCluster(s) == first && FileSize(s) == size % FULL && s[..20] == t[..20]
  {
    SplitWord(first);
    SplitWord(size % FULL);
    WordLow(size);
  }

  lemma FirstLetter(d: seq<nat>)
    requires Canonical83(d)
    ensures d[0] != 0 && d[0] != DELETED && d[0] != DOT
  {
    assert |Trim(d[..8])| > 0;
    assert Plain(d[..8][0]);
  }

  /** The clusters a write can use: the free ones, and those of the data it replaces. */
  ghost function AtHand(fat: seq<nat>, data: seq<seq<nat>>, l: Layout, d: nat, name: seq<nat>): set<nat> {
    FreeClusters(fat) + ClustersOf(l, HeadOf(data, l, d, name))
  }

  /** What the directory grows by. */
  ghost function DirGrowth(data: seq<seq<nat>>, l: Layout, d: nat, name: seq<nat>): nat {
    if Find(SlotsIn(data, l, d), name) < 0 then Grows(SlotsIn(data, l, d)) else 0
  }

  /** A write succeeds exactly when the clusters at hand suffice for the data and for a directory that must grow, and
      then it uses exactly these many.  When they do not, all are used up, and the invariant is lost unless there were
      none, or the lowest was the head of the old data. */
  ghost predicate WriteResult(fat: seq<nat>, data: seq<seq<nat>>, l: Layout, dirs: set<nat>, d: nat, name: seq<nat>,
                              need: nat, fat': seq<nat>, data': seq<seq<nat>>, l': Layout, ok: bool) {
    var avail, grows := AtHand(fat, data, l, d, name), DirGrowth(data, l, d, name);
    && (ok <==> need + grows <= |avail|)
    && (ok ==>
          && |FreeClusters(fat')| + need + grows == |avail|
          && |ClustersOf(l', HeadOf(data', l', d, name))| == need
          && d in l.chains && d in l'.chains && |l'.chains[d]| == |l.chains[d]| + grows)
    && (!ok ==>
          && FreeClusters(fat') == {}
          && ((exists m :: FsInv(fat', data', m, dirs)) <==> Survives(avail, HeadOf(data, l, d, name))))
  }

  lemma DealtSizes(avail: set<nat>, free: set<nat>, taken: set<nat>, first: nat, need: nat, ok: bool)
    requires Dealt(avail, free, taken, first, need, ok)
    ensures |free| + |taken| == |avail| && (!ok || free == {} ==> taken == avail && free == {})
  {
    assert avail == free + taken;
  }

  lemma OverwriteResult(fat: seq<nat>, data: seq<seq<nat>>, l: Layout, dirs: set<nat>, d: nat, name: seq<nat>, k: nat,
                        h: nat, need: nat, fat1: seq<nat>, data1: seq<seq<nat>>, l1: Layout, first: nat,
                        data2: seq<seq<nat>>, ok: bool)
    requires FsInv(fat, data, l, dirs) && d in dirs && h !in dirs && (h == 0 || h in l.chains)
    requires FoundAt(SlotsIn(data, l, d), name, k) && HeadOf(data, l, d, name) == h
    requires Resettled(fat1, data, l, data1, l1, h, first)
    requires Dealt(FreeClusters(fat) + ClustersOf(l, h), FreeClusters(fat1), ClustersOf(l1, first), first, need, ok)
    requires if ok then HeadOf(data2, l1, d, name) == first else data2 == data1
    ensures WriteResult(fat, data, l, dirs, d, name, need, fat1, data2, l1, ok)
  {
    hide FreeClusters, ClustersOf, FsInv;
    var avail := FreeClusters(fat) + ClustersOf(l, h);
    DealtSizes(avail, FreeClusters(fat1), ClustersOf(l1, first), first, need, ok);
    if ok {
      DirInTree(fat, data, l, dirs, d);
      assert Kept(data, l, data1, l1, d);
    } else {
      FailedWrite(fat, data, l, dirs, fat1, data1, l1, h, first, avail);
    }
  }

  /** The data of a new name could not be stored, or could and no cluster was left for the directory. */
  lemma NewFails(fat: seq<nat>, data: seq<seq<nat>>, l: Layout, dirs: set<nat>, d: nat, name: seq<nat>, need: nat,
                 fat1: seq<nat>, data1: seq<seq<nat>>, l1: Layout, first: nat, stored: bool)
    requires FsInv(fat, data, l, dirs) && d in dirs && Find(SlotsIn(data, l, d), name) < 0
    requires Resettled(fat1, data, l, data1, l1, 0, first)
    requires Dealt(FreeClusters(fat) + ClustersOf(l, 0), FreeClusters(fat1), ClustersOf(l1, first), first, need, stored)
    requires stored ==> Grows(SlotsIn(data, l, d)) > |FreeClusters(fat1)|
    ensures WriteResult(fat, data, l, dirs, d, name, need, fat1, data1, l1, false)
  {
    hide FreeClusters, ClustersOf, FsInv, SlotsIn;
    NoZeroDir(fat, data, l, dirs);
    var avail := FreeClusters(fat) + ClustersOf(l, 0);
    DealtSizes(avail, FreeClusters(fat1), ClustersOf(l1, first), first, need, stored);
    FailedWrite(fat, data, l, dirs, fat1, data1, l1, 0, first, avail);
  }

  lemma NewResult(fat: seq<nat>, data: seq<seq<nat>>, l: Layout, dirs: set<nat>, d: nat, name: seq<nat>, need: nat,
                  fat1: seq<nat>, data1: seq<seq<nat>>, l1: Layout, first: nat, fat2: seq<nat>, data2: seq<seq<nat>>,
                  l2: Layout, k: nat, s: seq<nat>, z: seq<seq<nat>>)
    requires FsInv(fat, data, l, dirs) && d in dirs && Find(SlotsIn(data, l, d), name) < 0 && LayoutOk(fat2, l2)
    requires Resettled(fat1, data, l, data1, l1, 0, first) && Inserted(data1, l1, data2, l2, d, k, s, z)
    requires Dealt(FreeClusters(fat) + ClustersOf(l, 0), FreeClusters(fat1), ClustersOf(l1, first), first, need, true)
    requires d in l1.chains && d in l2.chains && HeadOf(data2, l2, d, name) == first
    requires Grows(SlotsIn(data, l, d)) <= |FreeClusters(fat1)|
    requires |FreeClusters(fat2)| + Grows(SlotsIn(data, l, d)) == |FreeClusters(fat1)|
    requires |l2.chains[d]| == |l1.chains[d]| + Grows(SlotsIn(data, l, d))
    ensures WriteResult(fat, data, l, dirs, d, name, need, fat2, data2, l2, true)
  {
    hide FreeClusters, FsInv, SlotsIn;
    DirInTree(fat, data, l, dirs, d);
    NoZeroDir(fat, data, l, dirs);
    HeadsPositive(fat2, l2);
    HeadsPositive(fat1, l1);
    DealtSizes(FreeClusters(fat) + ClustersOf(l, 0), FreeClusters(fat1), ClustersOf(l1, first), first, need, true);
    assert Kept(data, l, data1, l1, d);
    if first != 0 { assert Kept(data1, l1, data2, l2, first); }
  }

  /** Writes a whole file. When it succeeds, the name holds the bytes (as many as the size field can count), every
      other name in every directory is as before, and the volume's invariant is kept. */
  method WriteFile(v: Volume, dir: nat, name: seq<nat>, bytes: seq<nat>, ghost l: Layout, ghost dirs: set<nat>)
    returns (ok: bool, ghost l': Layout)
    requires Sound(v, l, dirs) && dir in dirs && CanonicalName(name) && Bytes(bytes)
    requires forall k: nat {:trigger FoundAt(SlotsIn(v.Data(), l, dir), name, k)} ::
      FoundAt(SlotsIn(v.Data(), l, dir), name, k) ==> !IsDirectory(SlotsIn(v.Data(), l, dir)[k])
    modifies v.cache, v.cache.entries
    ensures Holds(v, l')
    ensures ok ==> Sound(v, l', dirs) && Stored(v.Data(), l', dir, name, Recorded(bytes))
    ensures ok ==> OthersSame(old(v.Data()), l, v.Data(), l', dirs, dir, name)
    ensures ok ==> Moves(old(v.Fat()), old(v.Data()), l, v.Fat(), v.Data(), l', dir, name)
    ensures ClusterSize(v.g) > 0
    ensures WriteResult(old(v.Fat()), old(v.Data()), l, dirs, dir, name, ClustersFor(|bytes|, ClusterSize(v.g)),
                        v.Fat(), v.Data(), l', ok)
  {
    hide Volume.Valid, Volume.Fat, Volume.Data, LayoutOk, FsInv, Mid, SlotsIn, FoundAt, Missing, Stored, OthersSame;
    hide Placed, Moves, WriteResult;
    ghost var fat0, data0 := v.Fat(), v.Data();
    DirInTree(fat0, data0, l, dirs, dir);
    var p, j, k := FindInDir(v, dir, name, l);
    if p.Place? {
      FoundFile(fat0, data0, l, dirs, dir, name, k);
      ok, l' := Overwrite(v, dir, name, bytes, p, l, dirs, j, k);
    } else {
      ok, l' := WriteNew(v, dir, name, bytes, l, dirs);
    }
  }

  /** A write to a name that has an entry: its chain is freed first, and the entry redirected last. */
  method Overwrite(v: Volume, dir: nat, name: seq<nat>, bytes: seq<nat>, p: Place, ghost l: Layout,
                   ghost dirs: set<nat>, ghost j: nat, ghost k: nat) returns (ok: bool, ghost l': Layout)
    requires Sound(v, l, dirs) && dir in dirs && CanonicalName(name) && Bytes(bytes)
    requires PlaceIs(v.Data(), l, dir, p, j, k) && FoundAt(SlotsIn(v.Data(), l, dir), name, k) && |p.slot| == ENTRY
    requires !IsDirectory(p.slot)
    modifies v.cache, v.cache.entries
    ensures Holds(v, l')
    ensures ok ==> Sound(v, l', dirs) && Stored(v.Data(), l', dir, name, Recorded(bytes))
    ensures ok ==> OthersSame(old(v.Data()), l, v.Data(), l', dirs, dir, name)
    ensures ok ==> Moves(old(v.Fat()), old(v.Data()), l, v.Fat(), v.Data(), l', dir, name)
    ensures ClusterSize(v.g) > 0
    ensures WriteResult(old(v.Fat()), old(v.Data()), l, dirs, dir, name, ClustersFor(|bytes|, ClusterSize(v.g)),
                        v.Fat(), v.Data(), l', ok)
  {
    hide Volume.Valid, Volume.Fat, Volume.Data, LayoutOk, FsInv, Mid, SlotsIn, FoundAt, Stored, OthersSame, Moves;
    hide Placed, Wrote, SlotOk, Redirected, Recorded, WriteResult, Resettled, Dealt, FreeClusters, ClustersOf;
    hide ClustersFor, IsDirectory;
    ghost var fat0, data0 := v.Fat(), v.Data();
    DirInTree(fat0, data0, l, dirs, dir);
    FoundFile(fat0, data0, l, dirs, dir, name, k);
    var h, first := FirstCluster(p.slot), 0;
    v.Shape();
    OldData(fat0, data0, l, dirs, dir, name, k, h);
    ok, first, l' := Restore(v, h, bytes, l);
    ghost var fat1, data1, need := v.Fat(), v.Data(), ClustersFor(|bytes|, ClusterSize(v.g));
    if !ok {
      OverwriteResult(fat0, data0, l, dirs, dir, name, k, h, need, fat1, data1, l', first, data1, false);
      return;
    }
    MidFirst(v.Fat(), data0, l, v.Data(), l', h, first, bytes);
    ghost var s := Redirected(p.slot, first, |bytes|);
    WroteOver(fat0, data0, l, dirs, dir, name, j, p.i, k, h, fat1, data1, l', s, first, bytes);
    var base := v.ClusterRead(p.cluster);
    PutEntry(v, p.cluster, base, p.i, Redirected(SlotsOf(base)[p.i], first, |bytes|), l');
    WriteDone(fat0, data0, l, dirs, dir, name, k, h, fat1, data1, l', v.Fat(), v.Data(), l', s, [], first, bytes);
    WroteHeads(fat0, data0, l, dirs, dir, name, k, h, fat1, data1, l', v.Fat(), v.Data(), l', s, [], first, bytes);
    OverwriteResult(fat0, data0, l, dirs, dir, name, k, h, need, fat1, data1, l', first, v.Data(), true);
  }

  lemma OldData(fat: seq<nat>, data: seq<seq<nat>>, l: Layout, dirs: set<nat>, d: nat, name: seq<nat>, k: nat, h: nat)
    requires FsInv(fat, data, l, dirs) && d in dirs && CanonicalName(name) && FoundAt(SlotsIn(data, l, d), name, k)
    requires !IsDirectory(SlotsIn(data, l, d)[k]) && h == FirstCluster(SlotsIn(data, l, d)[k])
    ensures HeadOf(data, l, d, name) == h && h !in dirs && (h == 0 || h in l.chains)
  {
    FoundFile(fat, data, l, dirs, d, name, k);
    HeadFound(data, l, d, name, k);
  }

  lemma MidFirst(fat: seq<nat>, data0: seq<seq<nat>>, l0: Layout, data: seq<seq<nat>>, l: Layout, h: nat, first: nat,
                 bytes: seq<nat>)
    requires Mid(fat, data0, l0, data, l, h, first, bytes)
    ensures first < FULL
  {
    HeadOwned(fat, l, first);
  }

  /** A write to a name that has no entry yet. */
  method WriteNew(v: Volume, dir: nat, name: seq<nat>, bytes: seq<nat>, ghost l: Layout, ghost dirs: set<nat>)
    returns (ok: bool, ghost l': Layout)
    requires Sound(v, l, dirs) && dir in dirs && CanonicalName(name) && Bytes(bytes)
    requires Missing(SlotsIn(v.Data(), l, dir), name)
    modifies v.cache, v.cache.entries
    ensures Holds(v, l')
    ensures ok ==> Sound(v, l', dirs) && Stored(v.Data(), l', dir, name, Recorded(bytes))
    ensures ok ==> OthersSame(old(v.Data()), l, v.Data(), l', dirs, dir, name)
    ensures ok ==> Moves(old(v.Fat()), old(v.Data()), l, v.Fat(), v.Data(), l', dir, name)
    ensures ClusterSize(v.g) > 0
    ensures WriteResult(old(v.Fat()), old(v.Data()), l, dirs, dir, name, ClustersFor(|bytes|, ClusterSize(v.g)),
                        v.Fat(), v.Data(), l', ok)
  {
    hide Volume.Valid, Volume.Fat, Volume.Data, LayoutOk, FsInv, Mid, SlotsIn, FoundAt, Missing, Stored, OthersSame;
    hide Moves, Wrote, Inserted, WriteResult, Resettled, Dealt, FreeClusters, ClustersOf, ClustersFor, Grows;
    ghost var fat0, data0 := v.Fat(), v.Data();
    DirInTree(fat0, data0, l, dirs, dir);
    NoZeroDir(fat0, data0, l, dirs);
    var first := 0;
    MissingMeans(SlotsIn(data0, l, dir), name);
    ok, first, l' := Restore(v, 0, bytes, l);
    ghost var need := ClustersFor(|bytes|, ClusterSize(v.g));
    if !ok {
      NewFails(fat0, data0, l, dirs, dir, name, need, v.Fat(), v.Data(), l', first, false);
      return;
    }
    MidFirst(v.Fat(), data0, l, v.Data(), l', 0, first, bytes);
    MidKeeps(v.Fat(), data0, l, v.Data(), l', 0, first, bytes, dir);
    NameBytes(name);
    ghost var fat1, data1, l1 := v.Fat(), v.Data(), l';
    ghost var k, s, z;
    ok, l', k, s, z := InsertEntry(v, dir, name, first, |bytes|, l');
    if !ok {
      NewFails(fat0, data0, l, dirs, dir, name, need, v.Fat(), v.Data(), l', first, true);
    } else {
      WroteNew(fat0, data0, l, dirs, dir, name, k, fat1, data1, l1, v.Fat(), v.Data(), l', s, z, first, bytes);
      WriteDone(fat0, data0, l, dirs, dir, name, k, 0, fat1, data1, l1, v.Fat(), v.Data(), l', s, z, first, bytes);
      WroteHeads(fat0, data0, l, dirs, dir, name, k, 0, fat1, data1, l1, v.Fat(), v.Data(), l', s, z, first, bytes);
      NewResult(fat0, data0, l, dirs, dir, name, need, fat1, data1, l1, first, v.Fat(), v.Data(), l', k, s, z);
    }
  }

  lemma MidKeeps(fat: seq<nat>, data0: seq<seq<nat>>, l0: Layout, data: seq<seq<nat>>, l: Layout, h: nat, first: nat,
                 bytes: seq<nat>, x: nat)
    requires Mid(fat, data0, l0, data, l, h, first, bytes) && x in l0.chains && x != h
    ensures x in l.chains && SlotsIn(data, l, x) == SlotsIn(data0, l0, x)
  {
    assert Kept(data0, l0, data, l, x);
    KeptMeans(data0, l0, data, l, x);
  }

  lemma NameBytes(name: seq<nat>)
    requires CanonicalName(name)
    ensures Bytes(To83(name))
  {
    var d := To83(name);
    forall i | 0 <= i < 11 ensures d[i] < 256 {
      if i < 8 { assert d[i] == d[..8][i]; } else { assert d[i] == d[8..][i - 8]; }
    }
  }

  // ---- Unlinking ----

  /** The state once a file's entry is marked deleted and its chain freed. */
  lemma Unlinked(fat: seq<nat>, data: seq<seq<nat>>, l: Layout, dirs: set<nat>, d: nat, name: seq<nat>, k: nat, h: nat,
                 fat1: seq<nat>, l1: Layout, data2: seq<seq<nat>>, s: seq<nat>)
    requires Moved(fat, data, l, dirs, d, name, k, h, fat1, data, l1, fat1, data2, l1, s, [], 0, []) && IsSlot(s)
    requires s[0] == DELETED && k < |SlotsIn(data, l, d)| && FoundAt(SlotsIn(data, l, d), name, k)
    ensures FsInv(fat1, data2, l1, dirs) && OthersSame(data, l, data2, l1, dirs, d, name)
    ensures Moves(fat, data, l, fat1, data2, l1, d, name) && HeadOf(data, l, d, name) == h
    ensures HeadOf(data2, l1, d, name) == 0
    ensures forall i: nat {:trigger FoundAt(SlotsIn(data2, l1, d), name, i)} :: !FoundAt(SlotsIn(data2, l1, d), name, i)
  {
    var slots := SlotsIn(data, l, d);
    MovedChanged(fat, data, l, dirs, d, name, k, h, fat1, data, l1, fat1, data2, l1, s, [], 0, []);
    DirInTree(fat, data, l, dirs, d);
    FoundFile(fat, data, l, dirs, d, name, k);
    assert slots + [] == slots;
    assert Fits(data, l, l1, dirs, d, k, s, []) by {
      forall j | 0 <= j < k ensures slots[j][0] != 0 { assert Passes(slots[j], name); }
    }
    ChangeKeepsInv(fat, data, l, fat1, data2, l1, dirs, d, k, s, []);
    ChangeKeepsOthers(fat, data, l, fat1, data2, l1, dirs, d, k, s, [], name);
    forall i: nat ensures !FoundAt(SlotsIn(data2, l1, d), name, i) {
      NameGone(fat1, data2, l1, dirs, d, slots, k, s, name, i);
    }
    MovedChains(fat, data, l, dirs, d, name, k, h, fat1, data, l1, fat1, data2, l1, s, [], 0, []);
    TargetHead(data, l, d, name, [], k, h);
  }

  lemma NameGone(fat: seq<nat>, data: seq<seq<nat>>, l: Layout, dirs: set<nat>, d: nat, slots: seq<seq<nat>>, k: nat,
                 s: seq<nat>, name: seq<nat>, i: nat)
    requires FsInv(fat, data, l, dirs) && d in dirs && CanonicalName(name) && AllSlots(slots) && k < |slots|
    requires |s| == ENTRY
    requires SlotsIn(data, l, d) == slots[k := s] && s[0] == DELETED && Live(slots[k]) && Name(slots[k]) == To83(name)
    requires
      forall i, j :: 0 <= i < j < |slots| && Live(slots[i]) && Live(slots[j]) ==> Name(slots[i]) != Name(slots[j])
    ensures !FoundAt(SlotsIn(data, l, d), name, i)
  {
    if FoundAt(SlotsIn(data, l, d), name, i) {
      FoundFile(fat, data, l, dirs, d, name, i);
    }
  }

  /** Removes a file: its clusters become free, its name is no longer found, and every other name is as before.
      Directories and missing names are refused. */
  method Unlink(v: Volume, dir: nat, name: seq<nat>, ghost l: Layout,
                ghost dirs: set<nat>) returns (ok: bool, ghost l': Layout)
    requires Sound(v, l, dirs) && dir in dirs && CanonicalName(name)
    modifies v.cache, v.cache.entries
    ensures Sound(v, l', dirs)
    ensures !ok ==> l' == l && v.Fat() == old(v.Fat()) && v.Data() == old(v.Data())
    ensures ok <==> exists bytes :: Stored(old(v.Data()), l, dir, name, bytes)
    ensures ok ==>
      forall i: nat {:trigger FoundAt(SlotsIn(v.Data(), l', dir), name, i)} ::
        !FoundAt(SlotsIn(v.Data(), l', dir), name, i)
    ensures ok ==> OthersSame(old(v.Data()), l, v.Data(), l', dirs, dir, name)
    ensures ok ==> Moves(old(v.Fat()), old(v.Data()), l, v.Fat(), v.Data(), l', dir, name)
    ensures
      ok ==> FreeClusters(v.Fat()) == FreeClusters(old(v.Fat())) + ClustersOf(l, HeadOf(old(v.Data()), l, dir, name))
  {
    hide Volume.Valid, Volume.Fat, Volume.Data, LayoutOk, FsInv, SlotsIn, FoundAt, Missing, Stored, OthersSame, SlotOk;
    hide Moves, HeadOf, FreeClusters, ClustersOf;
    ghost var fat0, data0 := v.Fat(), v.Data();
    DirInTree(fat0, data0, l, dirs, dir);
    l' := l;
    var p, j, k := FindInDir(v, dir, name, l);
    if p.Nowhere? {
      NotStored(data0, l, dir, name);
      return false, l';
    }
    FoundFile(fat0, data0, l, dirs, dir, name, k);
    if p.slot[11] / 16 % 2 == 1 {
      NotAFile(data0, l, dir, name, k);
      return false, l';
    }
    StoredIs(data0, l, dir, name, k);
    assert Stored(data0, l, dir, name, Content(data0, l, p.slot));
    l' := Erase(v, dir, name, p, l, dirs, j, k);
    ok := true;
  }

  /** Frees a file's chain and marks its entry deleted. */
  method Erase(v: Volume, dir: nat, name: seq<nat>, p: Place, ghost l: Layout, ghost dirs: set<nat>, ghost j: nat,
               ghost k: nat)
    returns (ghost l': Layout)
    requires Sound(v, l, dirs) && dir in dirs && CanonicalName(name)
    requires PlaceIs(v.Data(), l, dir, p, j, k) && FoundAt(SlotsIn(v.Data(), l, dir), name, k) && |p.slot| == ENTRY
    requires !IsDirectory(p.slot)
    modifies v.cache, v.cache.entries
    ensures Sound(v, l', dirs)
    ensures forall i: nat {:trigger FoundAt(SlotsIn(v.Data(), l', dir), name, i)} ::
      !FoundAt(SlotsIn(v.Data(), l', dir), name, i)
    ensures OthersSame(old(v.Data()), l, v.Data(), l', dirs, dir, name)
    ensures Moves(old(v.Fat()), old(v.Data()), l, v.Fat(), v.Data(), l', dir, name)
    ensures FreeClusters(v.Fat()) == FreeClusters(old(v.Fat())) + ClustersOf(l, HeadOf(old(v.Data()), l, dir, name))
  {
    hide Volume.Valid, Volume.Fat, Volume.Data, LayoutOk, FsInv, SlotsIn, FoundAt, OthersSame, Placed, Moved, SlotOk;
    hide Freed, Moves, HeadOf, FreeClusters, ClustersOf, CanonicalName, FirstCluster, Removed, IsDirectory;
    ghost var fat0, data0 := v.Fat(), v.Data();
    DirInTree(fat0, data0, l, dirs, dir);
    FoundFile(fat0, data0, l, dirs, dir, name, k);
    var h := FirstCluster(p.slot);
    LayoutLinks(fat0, l);
    FreedIs(fat0, l, h);
    FreeChain(v, h);
    l' := if h == 0 then l else Removed(l, h);
    ghost var fat1 := v.Fat();
    ghost var s := p.slot[0 := DELETED];
    ErasedEntry(fat0, data0, l, dirs, dir, name, j, p.i, k, h, fat1, l', s);
    var base := v.ClusterRead(p.cluster);
    PutEntry(v, p.cluster, base, p.i, SlotsOf(base)[p.i][0 := DELETED], l');
    Unlinked(fat0, data0, l, dirs, dir, name, k, h, fat1, l', v.Data(), s);
    AllFreed(fat0, l, fat1, h);
  }

  /** Exactly the removed chain's clusters are free now. */
  lemma AllFreed(fat: seq<nat>, l: Layout, fat': seq<nat>, h: nat)
    requires LayoutOk(fat, l) && LayoutOk(fat', if h == 0 then l else Removed(l, h)) && |fat'| == |fat|
    requires (h == 0 || h in l.chains)
    ensures FreeClusters(fat') == FreeClusters(fat) + ClustersOf(l, h)
  {
    var l' := if h == 0 then l else Removed(l, h);
    HeadsPositive(fat, l);
    HeadsPositive(fat', l');
    forall c: nat ensures c in FreeClusters(fat') <==> c in FreeClusters(fat) + ClustersOf(l, h) {
      FreeIsUnowned(fat, l, h, 0, c);
      FreeIsUnowned(fat', l', 0, 0, c);
      if c in l.owner { assert OwnerOk(l, c); }
      if c in l'.owner { assert OwnerOk(l', c); }
    }
  }

  lemma ErasedEntry(fat: seq<nat>, data: seq<seq<nat>>, l: Layout, dirs: set<nat>, d: nat, name: seq<nat>, j: nat,
                    i: nat, k: nat, h: nat, fat1: seq<nat>, l1: Layout, s: seq<nat>)
    requires FsInv(fat, data, l, dirs) && d in dirs && CanonicalName(name) && d in l.chains && InData(data, l.chains[d])
    requires Placed(data, l.chains[d], j, i, k) && FoundAt(SlotsIn(data, l, d), name, k)
    requires FirstCluster(SlotsIn(data, l, d)[k]) == h && !IsDirectory(SlotsIn(data, l, d)[k])
    requires LayoutOk(fat1, l1) && |fat1| == |fat| && l1 == (if h == 0 then l else Removed(l, h))
    requires s == SlotsIn(data, l, d)[k][0 := DELETED]
    ensures var c := l.chains[d][j];
            && 2 <= c < |fat1| && i < |SlotsOf(data[c - 2])| && SlotsOf(data[c - 2])[i] == SlotsIn(data, l, d)[k]
            && IsSlot(s)
            && Moved(fat, data, l, dirs, d, name, k, h, fat1, data, l1, fat1, data[c - 2 := PutSlot(data[c - 2], i, s)],
                     l1, s, [], 0, [])
  {
    hide SlotsIn, LayoutOk, FsInv, Placed;
    var slots := SlotsIn(data, l, d);
    assert slots + [] == slots;
    FoundFile(fat, data, l, dirs, d, name, k);
    OldIsFile(fat, data, l, dirs, d, name, [], k, h);
    DirInTree(fat, data, l, dirs, d);
    RemovedMid(fat, data, l, h, fat1, l1);
    assert Kept(data, l, data, l1, d);
    OverData(fat1, data, l, data, l1, d, j, i, k, s);
  }

  lemma RemovedMid(fat: seq<nat>, data: seq<seq<nat>>, l: Layout, h: nat, fat1: seq<nat>, l1: Layout)
    requires LayoutOk(fat, l) && |fat| == |data| + 2 && LayoutOk(fat1, l1) && |fat1| == |fat|
    requires l1 == (if h == 0 then l else Removed(l, h))
    ensures Mid(fat1, data, l, data, l1, h, 0, [])
  {
    HeadsPositive(fat, l);
    forall x | x in l.chains && x != h ensures Kept(data, l, data, l1, x) {
      if h == 0 { ChainInRange(fat, l, x); } else { KeptRemoved(fat, data, l, h, x); }
    }
  }

  /** A buffer large enough for what was written gets it all back exactly when its number fits the size field. */
  lemma RecordedRead(bytes: seq<nat>, limit: nat)
    requires limit >= |bytes|
    ensures Cut(Recorded(bytes), limit) == bytes <==> |bytes| < FULL
  {
  }

  /** Reading back what was written, through any state of the cache: the bytes come back exactly when their number
      fits the 32-bit size field. */
  method WriteThenRead(v: Volume, dir: nat, name: seq<nat>, bytes: seq<nat>, limit: nat, ghost l: Layout,
                       ghost dirs: set<nat>)
    returns (ok: bool, buf: seq<nat>, ghost l': Layout)
    requires Sound(v, l, dirs) && dir in dirs && CanonicalName(name) && Bytes(bytes) && limit >= |bytes|
    requires forall k: nat {:trigger FoundAt(SlotsIn(v.Data(), l, dir), name, k)} ::
      FoundAt(SlotsIn(v.Data(), l, dir), name, k) ==> !IsDirectory(SlotsIn(v.Data(), l, dir)[k])
    modifies v.cache, v.cache.entries
    ensures Holds(v, l')
    ensures ok ==> Sound(v, l', dirs) && (buf == bytes <==> |bytes| < FULL)
    ensures ClusterSize(v.g) > 0
    ensures var need := ClustersFor(|bytes|, ClusterSize(v.g)) + DirGrowth(old(v.Data()), l, dir, name);
      ok <==> need <= |AtHand(old(v.Fat()), old(v.Data()), l, dir, name)|
  {
    hide Volume.Valid, Volume.Fat, Volume.Data, LayoutOk, FsInv, SlotsIn, FoundAt, Stored, OthersSame, Recorded, Cut;
    hide FreeClusters;
    RecordedRead(bytes, limit);
    buf := [];
    ok, l' := WriteFile(v, dir, name, bytes, l, dirs);
    if ok {
      var found;
      found, buf := ReadFile(v, dir, name, limit, l', dirs);
    }
  }

  // ---- A write that loses clusters ----

  lemma LossyEntry(root: seq<nat>, name: seq<nat>)
    requires |root| >= ENTRY && CanonicalName(name) && forall i :: 0 <= i < |root| ==> root[i] == 0
    ensures |SlotsOf(root)| > 0
    ensures var s := NewEntry(SlotsOf(root)[0], To83(name), 4, 1); FileEntry(s, name, 4, 1)
  {
    NameBytes(name);
    NewEntryIs(root, 0, name, 4, 1);
    NewIsFile(SlotsOf(root)[0], name, 4, 1);
  }

  lemma LossyPlace(data: seq<seq<nat>>)
    requires data != [] && |SlotsOf(data[0])| > 0
    ensures Placed(data, [2], 0, 0, 0)
  {
    assert [2][..0] == [];
  }

  lemma LossyChange(data0: seq<seq<nat>>, data: seq<seq<nat>>, l: Layout, s: seq<nat>, name: seq<nat>)
    requires data0 != [] && InData(data0, [2]) && DirSlots(data0, [2]) == SlotsOf(data0[0])
    requires l == Taken(EMPTY_LAYOUT, 4)
    requires EndMarks(SlotsOf(data0[0])) && |SlotsOf(data0[0])| > 0 && FileEntry(s, name, 4, 1) && CanonicalName(name)
    requires SlotsIn(data, l, 2) == SlotsIn(data0, l, 2)[0 := s]
    ensures Changed1(data0, EMPTY_LAYOUT, data, l, {2}, 2, 0, s, [])
    ensures Fits(data0, EMPTY_LAYOUT, l, {2}, 2, 0, s, [])
  {
    hide DirSlots, SlotsOf;
    var slots := SlotsIn(data0, EMPTY_LAYOUT, 2);
    assert slots == SlotsOf(data0[0]) == SlotsIn(data0, l, 2) && slots + [] == slots;
    forall x: nat, i: nat, h: nat ensures !Owns(data0, EMPTY_LAYOUT, {2}, x, i, h) {}
  }

  lemma LossyHead(fat: seq<nat>, data: seq<seq<nat>>, l: Layout, s: seq<nat>, name: seq<nat>)
    requires fat == [0, 0, EOC, 0, EOC] && l == Taken(EMPTY_LAYOUT, 4) && FileEntry(s, name, 4, 1)
    requires |SlotsIn(data, l, 2)| > 0 && SlotsIn(data, l, 2)[0] == s
    ensures HeadOf(data, l, 2, name) == 4 && AtHand(fat, data, l, 2, name) == {3, 4}
  {
    assert FoundAt(SlotsIn(data, l, 2), name, 0);
    HeadFound(data, l, 2, name, 0);
    assert FreeClusters(fat) == {3};
    assert ClustersOf(l, 4) == {4};
  }

  /** A volume of three clusters: the root directory, a free one, and a file of one cluster above it. */
  lemma LossyVolume(root: seq<nat>, spare: seq<seq<nat>>, name: seq<nat>)
    requires |root| >= ENTRY && |spare| == 2 && CanonicalName(name) && forall i :: 0 <= i < |root| ==> root[i] == 0
    ensures ENTRY <= |root| && |SlotsOf(root)| > 0
    ensures var s := NewEntry(SlotsOf(root)[0], To83(name), 4, 1);
            var fat, data, l := [0, 0, EOC, 0, EOC], [PutSlot(root, 0, s)] + spare, Taken(EMPTY_LAYOUT, 4);
            && FsInv(fat, data, l, {2}) && AtHand(fat, data, l, 2, name) == {3, 4} && HeadOf(data, l, 2, name) == 4
            && !Survives({3, 4}, 4)
  {
    hide FsInv, LayoutOk, NewEntry, To83, SlotsOf, SlotsIn, FileEntry, Changed1, Fits, EndMarks, DirSlots, Placed;
    hide CanonicalName, HeadOf, AtHand, InData, FatDirectory.PutSlot;
    LossyEntry(root, name);
    var s, data0 := NewEntry(SlotsOf(root)[0], To83(name), 4, 1), [root] + spare;
    var fat, data, l := [0, 0, EOC, 0, EOC], [PutSlot(root, 0, s)] + spare, Taken(EMPTY_LAYOUT, 4);
    EmptyVolume(data0);
    EmptySlots(data0);
    assert EmptyTable(2)[4 := EOC] == fat;
    EmptyLayout(2);
    TakeKeeps(EmptyTable(2), EMPTY_LAYOUT, 4);
    assert data0[0 := PutSlot(root, 0, s)] == data;
    LossyPlace(data0);
    EntryPut(fat, data0, l, 2, 0, 0, 0, s);
    LossyChange(data0, data, l, s, name);
    ChangeKeepsInv(EmptyTable(2), data0, EMPTY_LAYOUT, fat, data, l, {2}, 2, 0, s, []);
    LossyHead(fat, data, l, s, name);
  }
}
