/** What every successful write and unlink keeps of a FAT32 volume's directories and files (src/fs/fat32.c). */
module FatTree {
  import opened FatLayout
  import opened FatChains
  import opened FatNames
  import opened FatDirectory

  /** The entries of a directory, by the first cluster of its chain. */
  ghost function SlotsIn(data: seq<seq<nat>>, l: Layout, d: nat): (r: seq<seq<nat>>)
    ensures AllSlots(r)
  {
    if d in l.chains && InData(data, l.chains[d]) then DirSlots(data, l.chains[d]) else []
  }

  /** What a file's entry says it holds. */
  ghost function Content(data: seq<seq<nat>>, l: Layout, s: seq<nat>): seq<nat>
    requires |s| == ENTRY
  {
    var h := FirstCluster(s);
    if h in l.chains && InData(data, l.chains[h]) then
      var bytes := Join(data, l.chains[h]);
      if |bytes| < FileSize(s) then bytes else bytes[..FileSize(s)]
    else []
  }

  // ---- The invariant ----

  /** A live entry has a canonical name and no data, or data that is a chain: a directory's or a file's. */
  ghost predicate SlotOk(l: Layout, dirs: set<nat>, s: seq<nat>) {
    && IsSlot(s)
    && (Live(s) ==>
          && Canonical83(Name(s))
          && (FirstCluster(s) == 0 || FirstCluster(s) in l.chains)
          && (IsDirectory(s) <==> FirstCluster(s) in dirs))
  }

  ghost predicate DirOk(slots: seq<seq<nat>>, l: Layout, dirs: set<nat>)
    requires AllSlots(slots)
  {
    && CleanTail(slots)
    && (forall k {:trigger SlotOk(l, dirs, slots[k])} :: 0 <= k < |slots| ==> SlotOk(l, dirs, slots[k]))
    && (forall i, j :: 0 <= i < j < |slots| && Live(slots[i]) && Live(slots[j]) ==> Name(slots[i]) != Name(slots[j]))
  }

  /** Entry `i` of directory `d` owns the chain that starts at `h`. */
  ghost predicate Owns(data: seq<seq<nat>>, l: Layout, dirs: set<nat>, d: nat, i: nat, h: nat) {
    && d in dirs && i < |SlotsIn(data, l, d)| && Live(SlotsIn(data, l, d)[i])
    && FirstCluster(SlotsIn(data, l, d)[i]) == h && h != 0
  }

  /** No two entries own the same chain. */
  ghost predicate Exclusive(data: seq<seq<nat>>, l: Layout, dirs: set<nat>) {
    forall d: nat, i: nat, d': nat, i': nat, h: nat
      {:trigger Owns(data, l, dirs, d, i, h), Owns(data, l, dirs, d', i', h)} ::
      Owns(data, l, dirs, d, i, h) && Owns(data, l, dirs, d', i', h) ==> d == d' && i == i'
  }

  /** Some entry owns the chain that starts at `h`. */
  ghost predicate Claimed(data: seq<seq<nat>>, l: Layout, dirs: set<nat>, h: nat) {
    exists d: nat, i: nat :: Owns(data, l, dirs, d, i, h)
  }

  /** Every chain is the root directory's, which no entry owns, or some entry's. */
  ghost predicate NoOrphans(data: seq<seq<nat>>, l: Layout, dirs: set<nat>) {
    && l.root in dirs && !Claimed(data, l, dirs, l.root)
    && forall h {:trigger Claimed(data, l, dirs, h)} :: h in l.chains && h != l.root ==> Claimed(data, l, dirs, h)
  }

  /** Directory `x` has an entry for directory `y`. */
  ghost predicate Lists(data: seq<seq<nat>>, l: Layout, dirs: set<nat>, x: nat, y: nat) {
    y in dirs && exists i: nat :: Owns(data, l, dirs, x, i, y)
  }

  /** A way from the root directory to directory `d`, entry by entry. */
  ghost predicate Leads(data: seq<seq<nat>>, l: Layout, dirs: set<nat>, way: seq<nat>, d: nat) {
    && way != [] && way[0] == l.root && way[|way| - 1] == d
    && forall n :: 0 <= n < |way| - 1 ==> Lists(data, l, dirs, way[n], way[n + 1])
  }

  /** Every directory is reached from the root. */
  ghost predicate AllReached(data: seq<seq<nat>>, l: Layout, dirs: set<nat>) {
    forall d {:trigger d in dirs} :: d in dirs ==> exists way :: Leads(data, l, dirs, way, d)
  }

  ghost predicate FsInv(fat: seq<nat>, data: seq<seq<nat>>, l: Layout, dirs: set<nat>) {
    && LayoutOk(fat, l) && |fat| == |data| + 2
    && (forall d {:trigger SlotsIn(data, l, d)} :: d in dirs ==> d in l.chains && DirOk(SlotsIn(data, l, d), l, dirs))
    && Exclusive(data, l, dirs) && NoOrphans(data, l, dirs) && AllReached(data, l, dirs)
  }

  /** The chains of the root directory and of the entries. */
  ghost function OwnedHeads(data: seq<seq<nat>>, l: Layout, dirs: set<nat>): set<nat> {
    set h | h in l.chains && (h == l.root || Claimed(data, l, dirs, h))
  }

  /** Free clusters and the clusters of the root directory and of what the entries own add up to the volume. */
  lemma ClustersAccounted(fat: seq<nat>, data: seq<seq<nat>>, l: Layout, dirs: set<nat>)
    requires FsInv(fat, data, l, dirs)
    ensures |FreeClusters(fat)| + Lengths(l, OwnedHeads(data, l, dirs)) == |data|
  {
    ClustersSplit(fat, l);
    assert NoOrphans(data, l, dirs);
    assert DirOk(SlotsIn(data, l, l.root), l, dirs);
    forall h: nat | h in l.chains && h != l.root
      ensures h in OwnedHeads(data, l, dirs)
    {
      assert Claimed(data, l, dirs, h);
    }
    assert OwnedHeads(data, l, dirs) == l.chains.Keys;
  }

  /** The table of a volume that has only a root directory, of one cluster, and `n` free clusters. */
  function EmptyTable(n: nat): seq<nat> { [0, 0, EOC] + seq(n, _ => 0) }

  const EMPTY_LAYOUT: Layout := Layout(map[2 := [2]], map[2 := (2, 0)], 2)

  lemma EmptyLayout(n: nat)
    requires n + 3 <= EOC
    ensures LayoutOk(EmptyTable(n), EMPTY_LAYOUT)
  {
    var fat, l := EmptyTable(n), EMPTY_LAYOUT;
    assert HeadOk(fat, l, 2) && PlaceOk(l, 2, 0) && OwnerOk(l, 2);
  }

  lemma EmptySlots(data: seq<seq<nat>>)
    requires data != [] && forall i :: 0 <= i < |data[0]| ==> data[0][i] == 0
    ensures EndMarks(SlotsOf(data[0])) && InData(data, [2]) && DirSlots(data, [2]) == SlotsOf(data[0])
  {
    DirSlotsNext(data, [], 2);
    assert [] + [2] == [2];
  }

  /** A volume with an empty root directory is in order. */
  lemma EmptyVolume(data: seq<seq<nat>>)
    requires data != [] && |data| + 2 <= EOC && forall i :: 0 <= i < |data[0]| ==> data[0][i] == 0
    ensures FsInv(EmptyTable(|data| - 1), data, EMPTY_LAYOUT, {2})
  {
    hide LayoutOk, DirSlots, SlotsOf, InData;
    EmptyLayout(|data| - 1);
    EmptySlots(data);
    var l := EMPTY_LAYOUT;
    var slots := SlotsIn(data, l, 2);
    assert slots == SlotsOf(data[0]);
    forall k {:trigger SlotOk(l, {2}, slots[k])} | 0 <= k < |slots|
      ensures SlotOk(l, {2}, slots[k])
    {
      assert slots[k][0] == 0;
    }
    assert Leads(data, l, {2}, [2], 2);
  }

  // ---- One entry changed ----

  ghost predicate EndMarks(z: seq<seq<nat>>) { forall i :: 0 <= i < |z| ==> IsSlot(z[i]) && z[i][0] == 0 }

  /** Directory `d` has entry `k` replaced by `s`, after having perhaps grown by end markers; nothing else that is
      live changed. */
  ghost predicate Changed1(data: seq<seq<nat>>, l: Layout, data': seq<seq<nat>>, l': Layout, dirs: set<nat>,
                           d: nat, k: nat, s: seq<nat>, z: seq<seq<nat>>) {
    && d in dirs && EndMarks(z) && k < |SlotsIn(data, l, d) + z| && |s| == ENTRY
    && SlotsIn(data', l', d) == (SlotsIn(data, l, d) + z)[k := s]
    && (forall x {:trigger SlotsIn(data', l', x)} ::
          x in dirs && x != d ==> SlotsIn(data', l', x) == SlotsIn(data, l, x))
    && (forall x :: x in dirs ==> x in l'.chains)
    && l'.root == l.root
    && (forall g {:trigger g in l'.chains} :: g in l'.chains ==>
          (Live(s) && g == FirstCluster(s)) || (g in l.chains && !Owns(data, l, dirs, d, k, g)))
    && (forall x: nat, i: nat, h: nat {:trigger Owns(data, l, dirs, x, i, h)} ::
          Owns(data, l, dirs, x, i, h) && (x, i) != (d, k) ==> h in l'.chains)
  }

  /** The slot at `k` may take `s`. */
  ghost predicate Fits(data: seq<seq<nat>>, l: Layout, l': Layout, dirs: set<nat>, d: nat, k: nat, s: seq<nat>,
                       z: seq<seq<nat>>)
    requires EndMarks(z) && k < |SlotsIn(data, l, d) + z|
  {
    var slots := SlotsIn(data, l, d) + z;
    && SlotOk(l', dirs, s) && s[0] != 0 && (Live(s) ==> FirstCluster(s) != l'.root)
    && (forall j :: 0 <= j < k ==> slots[j][0] != 0)
    && (Live(s) ==> forall j :: 0 <= j < |slots| && j != k && Live(slots[j]) ==> Name(slots[j]) != Name(s))
    && (Live(s) && FirstCluster(s) != 0 ==>
          forall x: nat, i: nat, h: nat {:trigger Owns(data, l, dirs, x, i, h)} ::
            Owns(data, l, dirs, x, i, h) && (x, i) != (d, k) ==>
            h != FirstCluster(s))
  }

  lemma ChangedDir(data: seq<seq<nat>>, l: Layout, data': seq<seq<nat>>, l': Layout, dirs: set<nat>,
                   d: nat, k: nat, s: seq<nat>, z: seq<seq<nat>>)
    requires Changed1(data, l, data', l', dirs, d, k, s, z) && Fits(data, l, l', dirs, d, k, s, z)
    requires DirOk(SlotsIn(data, l, d), l, dirs)
    ensures DirOk(SlotsIn(data', l', d), l', dirs)
  {
    var was, slots := SlotsIn(data, l, d), SlotsIn(data', l', d);
    var wide := was + z;
    forall i | 0 <= i < |slots| ensures SlotOk(l', dirs, slots[i]) {
      if i != k {
        assert slots[i] == wide[i];
        if i < |was| {
          assert SlotOk(l, dirs, was[i]);
          if Live(was[i]) && FirstCluster(was[i]) != 0 { assert Owns(data, l, dirs, d, i, FirstCluster(was[i])); }
        }
      }
    }
    forall i, j | 0 <= i < j < |slots| && Live(slots[i]) && Live(slots[j]) ensures Name(slots[i]) != Name(slots[j]) {
      assert i != k ==> slots[i] == wide[i];
      assert j != k ==> slots[j] == wide[j];
    }
    forall i, j | 0 <= i < j < |slots| && slots[i][0] == 0 ensures slots[j][0] == 0 {
      assert i != k && slots[i] == wide[i];
      assert j != k ==> slots[j] == wide[j];
    }
  }

  lemma OtherDir(data: seq<seq<nat>>, l: Layout, data': seq<seq<nat>>, l': Layout, dirs: set<nat>,
                 d: nat, k: nat, s: seq<nat>, z: seq<seq<nat>>, x: nat)
    requires Changed1(data, l, data', l', dirs, d, k, s, z) && x in dirs && x != d
    requires DirOk(SlotsIn(data, l, x), l, dirs)
    ensures DirOk(SlotsIn(data', l', x), l', dirs)
  {
    var slots := SlotsIn(data, l, x);
    assert SlotsIn(data', l', x) == slots;
    forall i | 0 <= i < |slots| ensures SlotOk(l', dirs, slots[i]) {
      assert SlotOk(l, dirs, slots[i]);
      if Live(slots[i]) && FirstCluster(slots[i]) != 0 { assert Owns(data, l, dirs, x, i, FirstCluster(slots[i])); }
    }
  }

  /** An owner after the change is the changed entry or was an owner before. */
  lemma OwnerBefore(data: seq<seq<nat>>, l: Layout, data': seq<seq<nat>>, l': Layout, dirs: set<nat>,
                    d: nat, k: nat, s: seq<nat>, z: seq<seq<nat>>, x: nat, i: nat, h: nat)
    requires Changed1(data, l, data', l', dirs, d, k, s, z) && Owns(data', l', dirs, x, i, h)
    ensures (x, i) == (d, k) ==> FirstCluster(s) == h && Live(s)
    ensures (x, i) != (d, k) ==> Owns(data, l, dirs, x, i, h)
  {
    if x == d {
      assert SlotsIn(data', l', d)[i] == (SlotsIn(data, l, d) + z)[k := s][i];
    } else {
      assert SlotsIn(data', l', x) == SlotsIn(data, l, x);
    }
  }

  /** The invariant survives a change that fits. */
  lemma ChangeKeepsInv(fat: seq<nat>, data: seq<seq<nat>>, l: Layout, fat': seq<nat>, data': seq<seq<nat>>, l': Layout,
                       dirs: set<nat>, d: nat, k: nat, s: seq<nat>, z: seq<seq<nat>>)
    requires FsInv(fat, data, l, dirs) && LayoutOk(fat', l') && |fat'| == |data'| + 2
    requires Changed1(data, l, data', l', dirs, d, k, s, z) && Fits(data, l, l', dirs, d, k, s, z)
    ensures FsInv(fat', data', l', dirs)
  {
    forall x | x in dirs ensures x in l'.chains && DirOk(SlotsIn(data', l', x), l', dirs) {
      assert DirOk(SlotsIn(data, l, x), l, dirs);
      if x == d {
        ChangedDir(data, l, data', l', dirs, d, k, s, z);
      } else {
        OtherDir(data, l, data', l', dirs, d, k, s, z, x);
      }
    }
    forall x: nat, i: nat, x': nat, i': nat, h: nat | Owns(data', l', dirs, x, i, h) && Owns(data', l', dirs, x', i', h)
      ensures x == x' && i == i'
    {
      OwnerBefore(data, l, data', l', dirs, d, k, s, z, x, i, h);
      OwnerBefore(data, l, data', l', dirs, d, k, s, z, x', i', h);
    }
    ChangeKeepsClaims(fat, data, l, fat', data', l', dirs, d, k, s, z);
    ChangeKeepsWays(fat, data, l, fat', data', l', dirs, d, k, s, z);
  }

  /** Directories stay reached: the changed entry keeps the directory it had, if it had one. */
  lemma ChangeKeepsWays(fat: seq<nat>, data: seq<seq<nat>>, l: Layout, fat': seq<nat>, data': seq<seq<nat>>,
                        l': Layout, dirs: set<nat>, d: nat, k: nat, s: seq<nat>, z: seq<seq<nat>>)
    requires FsInv(fat, data, l, dirs) && LayoutOk(fat', l')
    requires Changed1(data, l, data', l', dirs, d, k, s, z) && Fits(data, l, l', dirs, d, k, s, z)
    ensures AllReached(data', l', dirs)
  {
    HeadsPositive(fat', l');
    forall e | e in dirs ensures exists way :: Leads(data', l', dirs, way, e) {
      var way :| Leads(data, l, dirs, way, e);
      forall n | 0 <= n < |way| - 1 ensures Lists(data', l', dirs, way[n], way[n + 1]) {
        assert Lists(data, l, dirs, way[n], way[n + 1]);
        StillLists(data, l, data', l', dirs, d, k, s, z, way[n], way[n + 1]);
      }
      assert Leads(data', l', dirs, way, e);
    }
  }

  lemma StillLists(data: seq<seq<nat>>, l: Layout, data': seq<seq<nat>>, l': Layout, dirs: set<nat>, d: nat, k: nat,
                   s: seq<nat>, z: seq<seq<nat>>, x: nat, y: nat)
    requires Changed1(data, l, data', l', dirs, d, k, s, z) && Lists(data, l, dirs, x, y)
    ensures Lists(data', l', dirs, x, y)
  {
    var i: nat :| Owns(data, l, dirs, x, i, y);
    if (x, i) == (d, k) {
      assert y in l'.chains;
      assert SlotsIn(data', l', d)[k] == s;
      assert Owns(data', l', dirs, d, k, y);
    } else {
      OwnerAfter(data, l, data', l', dirs, d, k, s, z, x, i, y);
    }
  }

  /** An owner before the change, unless it was the changed entry, is one after it. */
  lemma OwnerAfter(data: seq<seq<nat>>, l: Layout, data': seq<seq<nat>>, l': Layout, dirs: set<nat>,
                   d: nat, k: nat, s: seq<nat>, z: seq<seq<nat>>, x: nat, i: nat, h: nat)
    requires Changed1(data, l, data', l', dirs, d, k, s, z) && Owns(data, l, dirs, x, i, h) && (x, i) != (d, k)
    ensures Owns(data', l', dirs, x, i, h)
  {
    if x == d {
      assert SlotsIn(data', l', d)[i] == (SlotsIn(data, l, d) + z)[k := s][i] == SlotsIn(data, l, d)[i];
    } else {
      assert SlotsIn(data', l', x) == SlotsIn(data, l, x);
    }
  }

  lemma ChangeKeepsClaims(fat: seq<nat>, data: seq<seq<nat>>, l: Layout, fat': seq<nat>, data': seq<seq<nat>>,
                          l': Layout, dirs: set<nat>, d: nat, k: nat, s: seq<nat>, z: seq<seq<nat>>)
    requires FsInv(fat, data, l, dirs) && LayoutOk(fat', l')
    requires Changed1(data, l, data', l', dirs, d, k, s, z) && Fits(data, l, l', dirs, d, k, s, z)
    ensures NoOrphans(data', l', dirs)
  {
    HeadsPositive(fat', l');
    forall g | g in l'.chains && g != l'.root ensures Claimed(data', l', dirs, g) {
      if Live(s) && g == FirstCluster(s) {
        assert SlotsIn(data', l', d)[k] == s;
        assert Owns(data', l', dirs, d, k, g);
      } else {
        assert Claimed(data, l, dirs, g);
        var x: nat, i: nat :| Owns(data, l, dirs, x, i, g);
        OwnerAfter(data, l, data', l', dirs, d, k, s, z, x, i, g);
      }
    }
    if Claimed(data', l', dirs, l'.root) {
      var x: nat, i: nat :| Owns(data', l', dirs, x, i, l'.root);
      OwnerBefore(data, l, data', l', dirs, d, k, s, z, x, i, l'.root);
      assert Claimed(data, l, dirs, l.root);
    }
  }

  // ---- Searches after the change ----

  /** Searches that neither the old nor the new entry answers come out the same. */
  lemma SearchSame(slots: seq<seq<nat>>, z: seq<seq<nat>>, k: nat, s: seq<nat>, m: seq<nat>, i: nat)
    requires AllSlots(slots) && EndMarks(z) && k < |slots + z| && |s| == ENTRY && AllSlots((slots + z)[k := s])
    requires CleanTail(slots) && s[0] != 0 && !Answers(s, m)
    requires forall j :: 0 <= j < k ==> (slots + z)[j][0] != 0
    requires (slots + z)[k][0] == 0 || !Answers((slots + z)[k], m)
    ensures FoundAt((slots + z)[k := s], m, i) <==> FoundAt(slots, m, i)
    ensures FoundAt(slots, m, i) ==> (slots + z)[k := s][i] == slots[i]
  {
    var wide := slots + z;
    var now := wide[k := s];
    forall j | 0 <= j < |slots| ensures now[j] == if j == k then s else slots[j] {}
    if FoundAt(slots, m, i) {
      assert i < k || wide[k][0] != 0;
      forall j | 0 <= j < i ensures Passes(now[j], m) { assert Passes(slots[j], m); }
    }
    if FoundAt(now, m, i) {
      BeyondIsEnd(slots, z, k, s, i);
      forall j | 0 <= j < i ensures Passes(slots[j], m) { assert Passes(now[j], m); }
    }
  }

  /** Past a replaced end marker there are only end markers. */
  lemma BeyondIsEnd(slots: seq<seq<nat>>, z: seq<seq<nat>>, k: nat, s: seq<nat>, i: nat)
    requires AllSlots(slots) && EndMarks(z) && k < |slots + z| && |s| == ENTRY && CleanTail(slots)
    requires i < |slots + z| && (slots + z)[k := s][i][0] != 0 && i != k
    ensures i < |slots| && ((slots + z)[k][0] == 0 ==> i < k)
  {
    assert (slots + z)[k := s][i] == (slots + z)[i];
  }

  // ---- Files before and after ----

  /** The chain that starts at `h` holds the same bytes. */
  ghost predicate SameFile(data: seq<seq<nat>>, l: Layout, data': seq<seq<nat>>, l': Layout, h: nat) {
    && h in l.chains && h in l'.chains && InData(data, l.chains[h]) && InData(data', l'.chains[h])
    && Join(data', l'.chains[h]) == Join(data, l.chains[h])
  }

  ghost predicate FilesKept(data: seq<seq<nat>>, l: Layout, data': seq<seq<nat>>, l': Layout, dirs: set<nat>, d: nat,
                            k: nat) {
    forall x: nat, i: nat, h: nat {:trigger Owns(data, l, dirs, x, i, h)} ::
      Owns(data, l, dirs, x, i, h) && (x, i) != (d, k) && h !in dirs ==> SameFile(data, l, data', l', h)
  }

  /** Looking up `name` in directory `d` finds a plain file holding `bytes`. */
  ghost predicate Stored(data: seq<seq<nat>>, l: Layout, d: nat, name: seq<nat>, bytes: seq<nat>) {
    exists k: nat {:trigger FoundAt(SlotsIn(data, l, d), name, k)} ::
      FoundAt(SlotsIn(data, l, d), name, k) && !IsDirectory(SlotsIn(data, l, d)[k])
      && Content(data, l, SlotsIn(data, l, d)[k]) == bytes
  }

  /** Looking up `m` in directory `x` finds the same entry as before, and a file holds the same. */
  ghost predicate SameLookup(data: seq<seq<nat>>, l: Layout, data': seq<seq<nat>>, l': Layout, x: nat, m: seq<nat>) {
    forall i: nat {:trigger FoundAt(SlotsIn(data, l, x), m, i)} {:trigger FoundAt(SlotsIn(data', l', x), m, i)} ::
      && (FoundAt(SlotsIn(data', l', x), m, i) <==> FoundAt(SlotsIn(data, l, x), m, i))
      && (FoundAt(SlotsIn(data, l, x), m, i) ==>
            && SlotsIn(data', l', x)[i] == SlotsIn(data, l, x)[i]
            && (!IsDirectory(SlotsIn(data, l, x)[i]) ==>
                  Content(data', l', SlotsIn(data, l, x)[i]) == Content(data, l, SlotsIn(data, l, x)[i])))
  }

  /** Every other name, in every directory, is looked up and read as before. */
  ghost predicate OthersSame(data: seq<seq<nat>>, l: Layout, data': seq<seq<nat>>, l': Layout, dirs: set<nat>,
                             d: nat, name: seq<nat>) {
    forall x: nat, m: seq<nat> {:trigger SameLookup(data, l, data', l', x, m)} ::
      x in dirs && CanonicalName(m) && (x != d || To83(m) != To83(name)) ==> SameLookup(data, l, data', l', x, m)
  }

  /** The entry a search finds, by its index, or -1. */
  ghost function Find(slots: seq<seq<nat>>, name: seq<nat>): (k: int)
    requires AllSlots(slots)
    ensures k >= 0 ==> FoundAt(slots, name, k)
    ensures k < 0 ==> forall i: nat :: !FoundAt(slots, name, i)
  {
    if i: nat :| FoundAt(slots, name, i) then i else -1
  }

  lemma MissingMeans(slots: seq<seq<nat>>, name: seq<nat>)
    requires AllSlots(slots) && Missing(slots, name)
    ensures Find(slots, name) < 0
  {
    var k := Find(slots, name);
    if k >= 0 { SearchOnce(slots, name, k, k); }
  }

  /** Where the data of the entry under a name starts; 0 when it has none, or there is no entry. */
  ghost function HeadOf(data: seq<seq<nat>>, l: Layout, d: nat, name: seq<nat>): nat {
    var slots := SlotsIn(data, l, d);
    if Find(slots, name) < 0 then 0 else FirstCluster(slots[Find(slots, name)])
  }

  lemma HeadFound(data: seq<seq<nat>>, l: Layout, d: nat, name: seq<nat>, k: nat)
    requires FoundAt(SlotsIn(data, l, d), name, k)
    ensures HeadOf(data, l, d, name) == FirstCluster(SlotsIn(data, l, d)[k])
  {
    var slots := SlotsIn(data, l, d);
    if Find(slots, name) >= 0 { SearchOnce(slots, name, k, Find(slots, name)); }
  }

  /** What answers a canonical name is live and stored under it. */
  lemma AnswerIsLive(l: Layout, dirs: set<nat>, s: seq<nat>, m: seq<nat>)
    requires SlotOk(l, dirs, s) && CanonicalName(m) && s[0] != 0 && Answers(s, m)
    ensures Live(s) && Name(s) == To83(m)
  {
    if s[0] == DOT { DotsNeverHit(Name(s), m); }
    HitIsStored(Name(s), m);
  }

  lemma HeadsPositive(fat: seq<nat>, l: Layout)
    requires LayoutOk(fat, l)
    ensures 0 !in l.chains
  {
    HeadOwned(fat, l, 0);
  }

  /** An entry whose chain is kept reads the same. */
  lemma ContentSame(fat: seq<nat>, data: seq<seq<nat>>, l: Layout, fat': seq<nat>, data': seq<seq<nat>>, l': Layout,
                    dirs: set<nat>, d: nat, k: nat, x: nat, i: nat)
    requires FsInv(fat, data, l, dirs) && LayoutOk(fat', l') && FilesKept(data, l, data', l', dirs, d, k)
    requires x in dirs && i < |SlotsIn(data, l, x)| && (x, i) != (d, k)
    requires Live(SlotsIn(data, l, x)[i]) && !IsDirectory(SlotsIn(data, l, x)[i])
    ensures Content(data', l', SlotsIn(data, l, x)[i]) == Content(data, l, SlotsIn(data, l, x)[i])
  {
    var s := SlotsIn(data, l, x)[i];
    assert DirOk(SlotsIn(data, l, x), l, dirs);
    assert SlotOk(l, dirs, s);
    var h := FirstCluster(s);
    if h == 0 {
      HeadsPositive(fat, l);
      HeadsPositive(fat', l');
    } else {
      assert Owns(data, l, dirs, x, i, h);
    }
  }

  /** The entry being replaced was free or went by this name, and so does its replacement. */
  ghost predicate ForName(s: seq<nat>, name: seq<nat>)
    requires |s| == ENTRY
  {
    s[0] == 0 || s[0] == DELETED || (Live(s) && Canonical83(Name(s)) && Name(s) == To83(name))
  }

  lemma ForNameOnly(s: seq<nat>, name: seq<nat>, m: seq<nat>)
    requires |s| == ENTRY && ForName(s, name) && To83(m) != To83(name)
    ensures s[0] == 0 || !Answers(s, m)
  {
    if Live(s) && Canonical83(Name(s)) { HitIsStored(Name(s), m); }
  }

  /** A change to one name's entry leaves every other name's lookup alone. */
  lemma ChangeKeepsOthers(fat: seq<nat>, data: seq<seq<nat>>, l: Layout, fat': seq<nat>, data': seq<seq<nat>>,
                          l': Layout, dirs: set<nat>, d: nat, k: nat, s: seq<nat>, z: seq<seq<nat>>, name: seq<nat>)
    requires FsInv(fat, data, l, dirs) && LayoutOk(fat', l')
    requires Changed1(data, l, data', l', dirs, d, k, s, z) && Fits(data, l, l', dirs, d, k, s, z)
    requires FilesKept(data, l, data', l', dirs, d, k)
    requires ForName((SlotsIn(data, l, d) + z)[k], name) && ForName(s, name)
    ensures OthersSame(data, l, data', l', dirs, d, name)
  {
    forall x: nat, m: seq<nat> | x in dirs && CanonicalName(m) && (x != d || To83(m) != To83(name))
      ensures SameLookup(data, l, data', l', x, m)
    {
      OneLookup(fat, data, l, fat', data', l', dirs, d, k, s, z, name, x, m);
    }
  }

  lemma OneLookup(fat: seq<nat>, data: seq<seq<nat>>, l: Layout, fat': seq<nat>, data': seq<seq<nat>>, l': Layout,
                  dirs: set<nat>, d: nat, k: nat, s: seq<nat>, z: seq<seq<nat>>, name: seq<nat>, x: nat, m: seq<nat>)
    requires FsInv(fat, data, l, dirs) && LayoutOk(fat', l')
    requires Changed1(data, l, data', l', dirs, d, k, s, z) && Fits(data, l, l', dirs, d, k, s, z)
    requires FilesKept(data, l, data', l', dirs, d, k)
    requires ForName((SlotsIn(data, l, d) + z)[k], name) && ForName(s, name)
    requires x in dirs && CanonicalName(m) && (x != d || To83(m) != To83(name))
    ensures SameLookup(data, l, data', l', x, m)
  {
    var slots, now := SlotsIn(data, l, x), SlotsIn(data', l', x);
    assert DirOk(slots, l, dirs);
    forall i: nat
      ensures FoundAt(now, m, i) <==> FoundAt(slots, m, i)
      ensures FoundAt(slots, m, i) ==>
        now[i] == slots[i] && (!IsDirectory(slots[i]) ==> Content(data', l', slots[i]) == Content(data, l, slots[i]))
    {
      if x == d {
        ForNameOnly(s, name, m);
        ForNameOnly((slots + z)[k], name, m);
        SearchSame(slots, z, k, s, m, i);
      }
      if FoundAt(slots, m, i) {
        assert SlotOk(l, dirs, slots[i]);
        AnswerIsLive(l, dirs, slots[i], m);
        NotReplaced(slots, z, k, s, m, i, x == d);
        if !IsDirectory(slots[i]) { ContentSame(fat, data, l, fat', data', l', dirs, d, k, x, i); }
      }
    }
  }

  lemma NotReplaced(slots: seq<seq<nat>>, z: seq<seq<nat>>, k: nat, s: seq<nat>, m: seq<nat>, i: nat, here: bool)
    requires AllSlots(slots) && FoundAt(slots, m, i)
    requires
      here ==> k < |slots + z| && |(slots + z)[k]| == ENTRY && ((slots + z)[k][0] == 0 || !Answers((slots + z)[k], m))
    ensures here ==> i != k
  {
  }
}
