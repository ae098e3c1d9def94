/** Whole runs of writes and unlinks: a FAT32 volume is a flat map from names to contents (src/fs/fat32.c). */
module FatRuns {
  import opened Bits
  import opened FatChains
  import opened FatNames
  import opened FatDirectory
  import opened FatTree
  import opened FatVolume
  import opened FatFiles
  import opened FatFileSystem
  import opened FatPaths

  datatype Change = Put(dir: nat, name: seq<nat>, bytes: seq<nat>) | Remove(dir: nat, name: seq<nat>)

  /** What a name in a directory stands for. */
  datatype Meaning = Absent | Directory | Plain(bytes: seq<nat>)

  ghost function What(data: seq<seq<nat>>, l: Layout, d: nat, name: seq<nat>): Meaning {
    var slots := SlotsIn(data, l, d);
    var k := Find(slots, name);
    if k < 0 then Absent else if IsDirectory(slots[k]) then Directory else Plain(Content(data, l, slots[k]))
  }

  /** What it stands for after a change: names are compared in their stored form, directories are left alone, and the
      size field counts modulo 2^32. */
  ghost function After(c: Change, d: nat, name: seq<nat>, was: Meaning): Meaning {
    if d != c.dir || To83(name) != To83(c.name) || was.Directory? then was
    else if c.Put? then Plain(Recorded(c.bytes))
    else Absent
  }

  ghost function AfterAll(script: seq<Change>, d: nat, name: seq<nat>, was: Meaning): Meaning {
    if script == [] then was else After(script[|script| - 1], d, name, AfterAll(script[..|script| - 1], d, name, was))
  }

  /** Every name in every directory stands for what the changes leave. */
  ghost predicate Follows(script: seq<Change>, data: seq<seq<nat>>, l: Layout, data': seq<seq<nat>>, l': Layout,
                          dirs: set<nat>) {
    forall d: nat, m: seq<nat> {:trigger What(data', l', d, m)} :: d in dirs && CanonicalName(m) ==>
      What(data', l', d, m) == AfterAll(script, d, m, What(data, l, d, m))
  }

  ghost predicate Changes(c: Change, data: seq<seq<nat>>, l: Layout, data': seq<seq<nat>>, l': Layout, dirs: set<nat>) {
    forall d: nat, m: seq<nat> {:trigger What(data', l', d, m)} :: d in dirs && CanonicalName(m) ==>
      What(data', l', d, m) == After(c, d, m, What(data, l, d, m))
  }

  lemma FollowsMore(script: seq<Change>, c: Change, data: seq<seq<nat>>, l: Layout, data1: seq<seq<nat>>, l1: Layout,
                    data2: seq<seq<nat>>, l2: Layout, dirs: set<nat>)
    requires Follows(script, data, l, data1, l1, dirs) && Changes(c, data1, l1, data2, l2, dirs)
    ensures Follows(script + [c], data, l, data2, l2, dirs)
  {
    hide What;
    assert (script + [c])[..|script|] == script;
    forall d: nat, m: seq<nat> | d in dirs && CanonicalName(m)
      ensures What(data2, l2, d, m) == AfterAll(script + [c], d, m, What(data, l, d, m))
    {
      assert What(data1, l1, d, m) == AfterAll(script, d, m, What(data, l, d, m));
    }
  }

  lemma WhatIs(data: seq<seq<nat>>, l: Layout, d: nat, m: seq<nat>, k: nat)
    requires FoundAt(SlotsIn(data, l, d), m, k)
    ensures k < |SlotsIn(data, l, d)|
    ensures var s := SlotsIn(data, l, d)[k];
            What(data, l, d, m) == if IsDirectory(s) then Directory else Plain(Content(data, l, s))
  {
    var slots := SlotsIn(data, l, d);
    assert Find(slots, m) >= 0;
    SearchOnce(slots, m, k, Find(slots, m));
  }

  lemma WhatStored(data: seq<seq<nat>>, l: Layout, d: nat, m: seq<nat>, bytes: seq<nat>)
    ensures Stored(data, l, d, m, bytes) <==> What(data, l, d, m) == Plain(bytes)
  {
    if Stored(data, l, d, m, bytes) {
      var k: nat :| FoundAt(SlotsIn(data, l, d), m, k) && !IsDirectory(SlotsIn(data, l, d)[k])
                    && Content(data, l, SlotsIn(data, l, d)[k]) == bytes;
      WhatIs(data, l, d, m, k);
    }
  }

  lemma WhatSame(data: seq<seq<nat>>, l: Layout, data': seq<seq<nat>>, l': Layout, d: nat, m: seq<nat>)
    requires SameLookup(data, l, data', l', d, m)
    ensures What(data', l', d, m) == What(data, l, d, m)
  {
    hide FoundAt, SlotsIn;
    var slots' := SlotsIn(data', l', d);
    if Find(slots', m) >= 0 { WhatIs(data, l, d, m, Find(slots', m)); }
  }

  /** Names with the same stored form stand for the same. */
  lemma WhatAlias(fat: seq<nat>, data: seq<seq<nat>>, l: Layout, dirs: set<nat>, d: nat, a: seq<nat>, b: seq<nat>)
    requires FsInv(fat, data, l, dirs) && d in dirs && CanonicalName(a) && CanonicalName(b) && To83(a) == To83(b)
    ensures What(data, l, d, a) == What(data, l, d, b)
  {
    hide FsInv, FoundAt, SlotsIn;
    var slots := SlotsIn(data, l, d);
    SameName(fat, data, l, dirs, d, a, b);
    SameName(fat, data, l, dirs, d, b, a);
    if Find(slots, b) >= 0 { WhatIs(data, l, d, a, Find(slots, b)); }
  }

  /** A change of one name that leaves the others alone. */
  lemma ChangesOne(c: Change, fat: seq<nat>, data: seq<seq<nat>>, l: Layout, fat': seq<nat>, data': seq<seq<nat>>,
                   l': Layout, dirs: set<nat>)
    requires FsInv(fat, data, l, dirs) && FsInv(fat', data', l', dirs) && c.dir in dirs && CanonicalName(c.name)
    requires OthersSame(data, l, data', l', dirs, c.dir, c.name)
    requires What(data', l', c.dir, c.name) == After(c, c.dir, c.name, What(data, l, c.dir, c.name))
    ensures Changes(c, data, l, data', l', dirs)
  {
    hide FsInv, What, SameLookup;
    forall d: nat, m: seq<nat> | d in dirs && CanonicalName(m)
      ensures What(data', l', d, m) == After(c, d, m, What(data, l, d, m))
    {
      if d != c.dir || To83(m) != To83(c.name) {
        assert SameLookup(data, l, data', l', d, m);
        WhatSame(data, l, data', l', d, m);
      } else {
        WhatAlias(fat, data, l, dirs, d, m, c.name);
        WhatAlias(fat', data', l', dirs, d, m, c.name);
      }
    }
  }

  /** A bound on the clusters a change takes: those of the data, and one for the directory. */
  function ChangeCost(c: Change, size: nat): nat
    requires size > 0
  {
    if c.Put? then ClustersFor(|c.bytes|, size) + 1 else 0
  }

  function Cost(script: seq<Change>, size: nat): nat
    requires size > 0
  {
    if script == [] then 0 else Cost(script[..|script| - 1], size) + ChangeCost(script[|script| - 1], size)
  }

  lemma {:induction false} CostMono(script: seq<Change>, n: nat, size: nat)
    requires size > 0 && n <= |script|
    ensures Cost(script[..n], size) <= Cost(script, size)
    decreases |script|
  {
    if n < |script| {
      CostMono(script[..|script| - 1], n, size);
      assert script[..|script| - 1][..n] == script[..n];
    } else {
      assert script[..n] == script;
    }
  }

  lemma CostStep(script: seq<Change>, n: nat, size: nat)
    requires size > 0 && n < |script|
    ensures Cost(script[..n + 1], size) == Cost(script[..n], size) + ChangeCost(script[n], size) <= Cost(script, size)
  {
    assert script[..n + 1][..n] == script[..n];
    CostMono(script, n + 1, size);
  }

  /** The clusters at hand suffice for a write; an unlink, and a write to a directory's name, needs none. */
  ghost predicate HasRoom(c: Change, fat: seq<nat>, data: seq<seq<nat>>, l: Layout, size: nat)
    requires size > 0
  {
    c.Put? && !What(data, l, c.dir, c.name).Directory? ==>
      ClustersFor(|c.bytes|, size) + DirGrowth(data, l, c.dir, c.name) <= |AtHand(fat, data, l, c.dir, c.name)|
  }

  /** What a write that fails leaves is in order exactly when it took nothing or got the old head back. */
  ghost predicate Breaks(c: Change, fat: seq<nat>, data: seq<seq<nat>>, l: Layout, dirs: set<nat>, fat': seq<nat>,
                         data': seq<seq<nat>>) {
    (exists m :: FsInv(fat', data', m, dirs)) <==>
    Survives(AtHand(fat, data, l, c.dir, c.name), HeadOf(data, l, c.dir, c.name))
  }

  /** What a change costs, when it fits. */
  lemma RoomCost(c: Change, fat: seq<nat>, data: seq<seq<nat>>, l: Layout, size: nat)
    requires size > 0 && c.Put?
    ensures ClustersFor(|c.bytes|, size) + DirGrowth(data, l, c.dir, c.name) <= ChangeCost(c, size)
    ensures |FreeClusters(fat)| <= |AtHand(fat, data, l, c.dir, c.name)|
  {
    var free, all := FreeClusters(fat), AtHand(fat, data, l, c.dir, c.name);
    assert all == free + (all - free);
  }

  /** A change whose cost is no more than the free clusters fits. */
  lemma CheapFits(c: Change, fat: seq<nat>, data: seq<seq<nat>>, l: Layout, size: nat)
    requires size > 0 && ChangeCost(c, size) <= |FreeClusters(fat)|
    ensures HasRoom(c, fat, data, l, size)
  {
    if c.Put? { RoomCost(c, fat, data, l, size); }
  }

  /** Any run of writes and unlinks, up to the first write for which the clusters at hand do not suffice, which there is
      none if the free clusters cover the cost of the script; writes to a directory's name are passed over.
      `fat1`, `data1` and `l1` are the volume then.  Until then every name in
        every directory stands for what the changes leave, the invariant
      holds, and every cluster is free or on the chain of the root directory or of exactly one entry. */
  method RunChanges(v: Volume, script: seq<Change>, ghost l: Layout,
                    ghost dirs: set<nat>)
    returns (n: nat, ghost l': Layout, ghost fat1: seq<nat>, ghost data1: seq<seq<nat>>, ghost l1: Layout)
    requires Sound(v, l, dirs)
    requires forall c :: c in script ==> c.dir in dirs && CanonicalName(c.name) && (c.Put? ==> Bytes(c.bytes))
    modifies v.cache, v.cache.entries
    ensures Holds(v, l') && n <= |script|
    ensures ClusterSize(v.g) > 0 && (Cost(script, ClusterSize(v.g)) <= |FreeClusters(old(v.Fat()))| ==> n == |script|)
    ensures n < |script| ==>
      && FsInv(fat1, data1, l1, dirs) && Follows(script[..n], old(v.Data()), l, data1, l1, dirs)
      && !HasRoom(script[n], fat1, data1, l1, ClusterSize(v.g))
      && Breaks(script[n], fat1, data1, l1, dirs, v.Fat(), v.Data())
    ensures n == |script| ==>
      && Sound(v, l', dirs) && Follows(script, old(v.Data()), l, v.Data(), l', dirs)
      && |FreeClusters(v.Fat())| + Lengths(l', OwnedHeads(v.Data(), l', dirs)) == |v.Data()|
  {
    hide Volume.Valid, Volume.Fat, Volume.Data, LayoutOk, FsInv, SlotsIn, FoundAt, What, Changes, Follows, OwnedHeads;
    hide FreeClusters, ClustersOf, Lengths, HasRoom, ChangeCost, Breaks, Cost;
    l', n := l, 0;
    ghost var data0, size, free := v.Data(), ClusterSize(v.g), |FreeClusters(v.Fat())|;
    fat1, data1, l1 := v.Fat(), v.Data(), l;
    BigClusters(v);
    FollowsNone(data0, l, dirs);
    NoCost(script, size);
    while n < |script|
      invariant n <= |script| && Sound(v, l', dirs) && Follows(script[..n], data0, l, v.Data(), l', dirs)
      invariant |FreeClusters(v.Fat())| + Cost(script[..n], size) >= free
    {
      assert script[n] in script;
      fat1, data1, l1 := v.Fat(), v.Data(), l';
      CostStep(script, n, size);
      var ok;
      ok, l' := OneChange(v, script[n], l', dirs);
      if !ok {
        if ChangeCost(script[n], size) <= |FreeClusters(fat1)| { CheapFits(script[n], fat1, data1, l1, size); }
        return;
      }
      FollowsMore(script[..n], script[n], data0, l, data1, l1, v.Data(), l', dirs);
      assert script[..n + 1] == script[..n] + [script[n]];
      n := n + 1;
    }
    assert script[..n] == script;
    SoundHolds(v, l', dirs);
  }

  lemma NoCost(script: seq<Change>, size: nat)
    requires size > 0
    ensures Cost(script[..0], size) == 0
  {
  }

  lemma FollowsNone(data: seq<seq<nat>>, l: Layout, dirs: set<nat>)
    ensures Follows([], data, l, data, l, dirs)
  {
  }

  method OneChange(v: Volume, c: Change, ghost l: Layout, ghost dirs: set<nat>) returns (ok: bool, ghost l': Layout)
    requires Sound(v, l, dirs) && c.dir in dirs && CanonicalName(c.name) && (c.Put? ==> Bytes(c.bytes))
    modifies v.cache, v.cache.entries
    ensures Holds(v, l')
    ensures ok ==> Sound(v, l', dirs) && Changes(c, old(v.Data()), l, v.Data(), l', dirs)
    ensures ClusterSize(v.g) > 0 && (ok <==> HasRoom(c, old(v.Fat()), old(v.Data()), l, ClusterSize(v.g)))
    ensures ok ==> |FreeClusters(v.Fat())| + ChangeCost(c, ClusterSize(v.g)) >= |FreeClusters(old(v.Fat()))|
    ensures !ok ==> Breaks(c, old(v.Fat()), old(v.Data()), l, dirs, v.Fat(), v.Data())
  {
    hide Volume.Valid, Volume.Fat, Volume.Data, LayoutOk, FsInv, SlotsIn, FoundAt, Missing, Stored, OthersSame, Moves;
    hide HeadOf, FreeClusters, ClustersOf, What, Changes, AtHand, DirGrowth, ClustersFor;
    SoundHolds(v, l, dirs);
    ghost var fat, data := v.Fat(), v.Data();
    match c {
      case Put(dir, name, bytes) =>
        DirInTree(v.Fat(), v.Data(), l, dirs, dir);
        ghost var slots := SlotsIn(v.Data(), l, dir);
        var p, j, k := FindInDir(v, dir, name, l);
        PlainOnly(slots, name, k, p.Place?);
        BigClusters(v);
        if p.Place? && p.slot[11] / 16 % 2 == 1 {
          WhatIs(data, l, dir, name, k);
          NothingChanged(c, fat, data, l, dirs);
          return true, l;
        }
        NoDirectoryThere(data, l, dir, name, k, p.Place?);
        ok, l' := WriteFile(v, dir, name, bytes, l, dirs);
        RoomCost(c, fat, data, l, ClusterSize(v.g));
        if ok {
          WhatStored(v.Data(), l', dir, name, Recorded(bytes));
          ChangesOne(c, fat, data, l, v.Fat(), v.Data(), l', dirs);
        }
      case Remove(dir, name) =>
        BigClusters(v);
        ok, l' := Unlink(v, dir, name, l, dirs);
        SoundHolds(v, l', dirs);
        MoreFree(FreeClusters(fat), FreeClusters(v.Fat()));
        NameRemoved(data, l, v.Data(), l', dir, name, ok);
        if ok {
          ChangesOne(c, fat, data, l, v.Fat(), v.Data(), l', dirs);
        } else {
          NothingChanged(c, fat, data, l, dirs);
        }
        ok := true;
    }
  }

  lemma MoreFree(a: set<nat>, b: set<nat>)
    ensures a <= b ==> |a| <= |b|
  {
    if a <= b { assert b == a + (b - a); }
  }

  lemma NothingChanged(c: Change, fat: seq<nat>, data: seq<seq<nat>>, l: Layout, dirs: set<nat>)
    requires FsInv(fat, data, l, dirs) && c.dir in dirs && CanonicalName(c.name)
    requires What(data, l, c.dir, c.name) == After(c, c.dir, c.name, What(data, l, c.dir, c.name))
    ensures Changes(c, data, l, data, l, dirs)
  {
    hide FsInv, SlotsIn, FoundAt;
    forall x: nat, m: seq<nat> ensures SameLookup(data, l, data, l, x, m) {}
    ChangesOne(c, fat, data, l, fat, data, l, dirs);
  }

  lemma NoDirectoryThere(data: seq<seq<nat>>, l: Layout, d: nat, name: seq<nat>, k: nat, found: bool)
    requires if found then FoundAt(SlotsIn(data, l, d), name, k) else Missing(SlotsIn(data, l, d), name)
    requires found ==> !IsDirectory(SlotsIn(data, l, d)[k])
    ensures !What(data, l, d, name).Directory?
  {
    hide SlotsIn;
    PlainOnly(SlotsIn(data, l, d), name, k, found);
    if found { WhatIs(data, l, d, name, k); }
  }

  lemma NameRemoved(data: seq<seq<nat>>, l: Layout, data': seq<seq<nat>>, l': Layout, d: nat, name: seq<nat>, ok: bool)
    requires ok <==> exists bytes :: Stored(data, l, d, name, bytes)
    requires ok ==> forall i: nat {:trigger FoundAt(SlotsIn(data', l', d), name, i)} ::
      !FoundAt(SlotsIn(data', l', d), name, i)
    ensures ok <==> What(data, l, d, name).Plain?
    ensures ok ==> What(data', l', d, name) == Absent
  {
    hide FoundAt, SlotsIn, Stored;
    if What(data, l, d, name).Plain? { WhatStored(data, l, d, name, What(data, l, d, name).bytes); }
    if ok {
      var bytes :| Stored(data, l, d, name, bytes);
      WhatStored(data, l, d, name, bytes);
    }
  }

  lemma SoundHolds(v: Volume, l: Layout, dirs: set<nat>)
    requires Sound(v, l, dirs)
    ensures Holds(v, l) && |FreeClusters(v.Fat())| + Lengths(l, OwnedHeads(v.Data(), l, dirs)) == |v.Data()|
  {
    hide Volume.Valid, Volume.Fat, Volume.Data;
    ClustersAccounted(v.Fat(), v.Data(), l, dirs);
  }

  lemma PlainOnly(slots: seq<seq<nat>>, name: seq<nat>, k: nat, found: bool)
    requires AllSlots(slots) && if found then FoundAt(slots, name, k) else Missing(slots, name)
    ensures forall i: nat {:trigger FoundAt(slots, name, i)} :: FoundAt(slots, name, i) ==> found && i == k
  {
    forall i: nat | FoundAt(slots, name, i) ensures found && i == k {
      SearchOnce(slots, name, i, k);
    }
  }
}
