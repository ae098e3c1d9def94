/** Files by path: resolving directories part by part (src/fs/fat32.c). */
module FatPaths {
  import opened Bits
  import opened FatChains
  import opened FatNames
  import opened FatDirectory
  import opened FatTree
  import opened FatVolume
  import opened FatFiles
  import opened FatFileSystem

  const SLASH := 0x2F
  const MOST := 127

  // ---- The parts of a path ----

  /** How many characters come before the next slash, at most `most`. */
  function Run(s: seq<nat>, most: nat): (r: nat)
    ensures r <= |s| && r <= most && SLASH !in s[..r]
    ensures s != [] && s[0] != SLASH && most > 0 ==> r > 0
    ensures r < |s| && r < most ==> s[r] == SLASH
  {
    if most == 0 || s == [] || s[0] == SLASH then 0
    else
      var r := Run(s[1..], most - 1);
      assert s[..r + 1] == [s[0]] + s[1..][..r];
      1 + r
  }

  /** The names between slashes; longer runs are cut every 127 characters. */
  function Parts(s: seq<nat>): seq<seq<nat>>
    decreases |s|
  {
    if s == [] then [] else if s[0] == SLASH then Parts(s[1..])
    else [s[..Run(s, MOST)]] + Parts(s[Run(s, MOST)..])
  }

  /** Two names around a slash are the two parts. */
  lemma PartsTwo(a: seq<nat>, b: seq<nat>)
    requires 0 < |a| <= 127 && 0 < |b| <= 127 && '/' as nat !in a && '/' as nat !in b
    ensures Parts(a + ['/' as nat] + b) == [a, b]
  {
    PartsJoin(a + ['/' as nat], b);
    RunWhole(a, ['/' as nat], MOST);
    var s := a + ['/' as nat];
    assert s[0] == a[0] && s[..|a|] == a && s[|a|..] == ['/' as nat];
    assert Parts(['/' as nat]) == [] by { assert ['/' as nat][1..] == []; }
    RunWhole(b, [], MOST);
    assert b + [] == b && b[..|b|] == b && b[|b|..] == [];
    assert b[0] in b && a[0] in a;
  }

  lemma {:induction false} RunWhole(a: seq<nat>, rest: seq<nat>, most: nat)
    requires |a| <= most && SLASH !in a && (rest == [] || rest[0] == SLASH)
    ensures Run(a + rest, most) == |a|
    decreases |a|
  {
    if a == [] {
      assert a + rest == rest;
    } else {
      assert (a + rest)[1..] == a[1..] + rest;
      RunWhole(a[1..], rest, most - 1);
    }
  }

  /** The parts after a slash come after the parts before it. */
  lemma {:induction false} PartsJoin(dir: seq<nat>, rest: seq<nat>)
    requires dir == [] || dir[|dir| - 1] == SLASH
    ensures Parts(dir + rest) == Parts(dir) + Parts(rest)
    decreases |dir|
  {
    if dir == [] {
      assert dir + rest == rest;
    } else if dir[0] == SLASH {
      assert (dir + rest)[1..] == dir[1..] + rest;
      PartsJoin(dir[1..], rest);
    } else {
      var n := Run(dir, MOST);
      RunShort(dir, rest, MOST);
      assert (dir + rest)[..n] == dir[..n] && (dir + rest)[n..] == dir[n..] + rest;
      LastKept(dir, n);
      PartsJoin(dir[n..], rest);
    }
  }

  /** A canonical first part of a name without slashes is the whole name. */
  lemma OnePart(name: seq<nat>)
    requires name != [] && SLASH !in name && CanonicalName(Parts(name)[0])
    ensures Parts(name) == [name]
  {
    hide CanonicalName, Run, Parts;
    var n := Run(name, MOST);
    assert name[0] in name;
    PartsFirst(name);
    CanonicalShort(name[..n]);
    assert n == |name|;
    assert name[..|name|] == name && name[|name|..] == [];
  }

  lemma PartsFirst(s: seq<nat>)
    requires s != [] && s[0] != SLASH
    ensures Parts(s) == [s[..Run(s, MOST)]] + Parts(s[Run(s, MOST)..]) && Parts([]) == []
  {
  }

  lemma CanonicalShort(name: seq<nat>)
    requires CanonicalName(name)
    ensures |name| <= 12
  {
    assert |LowerAll(name)| == |name|;
  }

  lemma LastKept(dir: seq<nat>, n: nat)
    requires n <= |dir| && |dir| > 0 && dir[|dir| - 1] == SLASH && SLASH !in dir[..n]
    ensures n < |dir| && dir[n..][|dir[n..]| - 1] == SLASH
  {
    forall i | 0 <= i < n ensures dir[i] != SLASH { assert dir[..n][i] == dir[i]; }
  }

  lemma {:induction false} RunShort(dir: seq<nat>, name: seq<nat>, most: nat)
    requires dir != [] && dir[|dir| - 1] == SLASH
    ensures Run(dir + name, most) == Run(dir, most)
    decreases |dir|
  {
    if most > 0 && dir[0] != SLASH {
      assert (dir + name)[1..] == dir[1..] + name;
      RunShort(dir[1..], name, most - 1);
    }
  }

  // ---- Where a path leads ----

  datatype Target = Root | Entry(slot: seq<nat>) | Missed

  ghost predicate IsTarget(t: Target) { t.Entry? ==> |t.slot| == ENTRY }

  function DirCluster(t: Target, root: nat): nat
    requires t.Entry? ==> |t.slot| == ENTRY
  {
    if t.Entry? then FirstCluster(t.slot) else root
  }

  ghost function Step(data: seq<seq<nat>>, l: Layout, root: nat, t: Target, name: seq<nat>): (r: Target)
    requires IsTarget(t)
    ensures IsTarget(r)
  {
    var slots := SlotsIn(data, l, DirCluster(t, root));
    if t.Missed? || Find(slots, name) < 0 then Missed else Entry(slots[Find(slots, name)])
  }

  ghost function Walk(data: seq<seq<nat>>, l: Layout, root: nat, parts: seq<seq<nat>>): (r: Target)
    ensures IsTarget(r)
  {
    if parts == [] then Root else Step(data, l, root, Walk(data, l, root, parts[..|parts| - 1]), parts[|parts| - 1])
  }

  /** A canonical path all of whose directories, as far as they exist, are directories. */
  ghost predicate Proper(data: seq<seq<nat>>, l: Layout, root: nat, parts: seq<seq<nat>>) {
    && (forall i :: 0 <= i < |parts| ==> CanonicalName(parts[i]))
    && (forall i {:trigger parts[..i]} :: 0 <= i < |parts| && Walk(data, l, root, parts[..i]).Entry? ==>
          IsDirectory(Walk(data, l, root, parts[..i]).slot))
  }

  /** The root is a directory, and so is what a proper path goes through. */
  lemma {:induction false} WalkDir(fat: seq<nat>, data: seq<seq<nat>>, l: Layout, dirs: set<nat>, root: nat,
                                   parts: seq<seq<nat>>)
    requires FsInv(fat, data, l, dirs) && root in dirs && Proper(data, l, root, parts)
    requires var t := Walk(data, l, root, parts); t.Entry? ==> IsDirectory(t.slot)
    ensures var t := Walk(data, l, root, parts); !t.Missed? ==> DirCluster(t, root) in dirs
    decreases |parts|
  {
    if parts != [] {
      var n := |parts| - 1;
      var before, t := Walk(data, l, root, parts[..n]), Walk(data, l, root, parts);
      ProperPrefix(data, l, root, parts, n);
      if !t.Missed? {
        WalkDir(fat, data, l, dirs, root, parts[..n]);
        StepDir(fat, data, l, dirs, root, before, parts[n]);
      }
    }
  }

  lemma ProperPrefix(data: seq<seq<nat>>, l: Layout, root: nat, parts: seq<seq<nat>>, n: nat)
    requires Proper(data, l, root, parts) && n < |parts|
    ensures Proper(data, l, root, parts[..n])
    ensures var t := Walk(data, l, root, parts[..n]); t.Entry? ==> IsDirectory(t.slot)
  {
    var head := parts[..n];
    forall i | 0 <= i < n ensures head[..i] == parts[..i] {}
  }

  lemma StepDir(fat: seq<nat>, data: seq<seq<nat>>, l: Layout, dirs: set<nat>, root: nat, t: Target, name: seq<nat>)
    requires FsInv(fat, data, l, dirs) && IsTarget(t) && DirCluster(t, root) in dirs && CanonicalName(name)
    ensures var r := Step(data, l, root, t, name); r.Entry? && IsDirectory(r.slot) ==> FirstCluster(r.slot) in dirs
  {
    var slots := SlotsIn(data, l, DirCluster(t, root));
    var k := Find(slots, name);
    if k >= 0 { FoundFile(fat, data, l, dirs, DirCluster(t, root), name, k); }
  }

  /** A path from the root; any other is refused. */
  predicate Absolute(path: seq<nat>) { path != [] && path[0] == SLASH }

  /** Follows a path from the root. */
  method ResolvePath(v: Volume, path: seq<nat>, root: nat, ghost l: Layout, ghost dirs: set<nat>) returns (t: Target)
    requires Sound(v, l, dirs) && root == l.root && root in dirs
    requires (Absolute(path) ==> Proper(v.Data(), l, root, Parts(path[1..])))
    modifies v.cache, v.cache.entries
    ensures Sound(v, l, dirs) && v.Fat() == old(v.Fat()) && v.Data() == old(v.Data())
    ensures t == if Absolute(path) then Walk(v.Data(), l, root, Parts(path[1..])) else Missed
  {
    hide Volume.Valid, Volume.Fat, Volume.Data, FsInv, SlotsIn, Step, Proper;
    if path == [] || path[0] != SLASH {
      return Missed;
    }
    ghost var fat, data, parts := v.Fat(), v.Data(), Parts(path[1..]);
    var p := path[1..];
    t := Root;
    ghost var n := 0;
    assert parts[..0] == [] && parts[0..] == parts;
    while p != []
      invariant Sound(v, l, dirs) && v.Fat() == fat && v.Data() == data
      invariant !t.Missed? && n <= |parts| && Parts(p) == parts[n..] && t == Walk(data, l, root, parts[..n])
      invariant IsTarget(t)
      decreases |p|
    {
      if p[0] == SLASH {
        p := p[1..];
      } else {
        var len := Run(p, MOST);
        var part := p[..len];
        assert part == parts[n] && Parts(p[len..]) == parts[n..][1..];
        ProperPrefix(data, l, root, parts, n);
        WalkDir(fat, data, l, dirs, root, parts[..n]);
        assert parts[..n + 1][..n] == parts[..n];
        var cluster := DirCluster(t, root);
        t := StepTo(v, t, root, part, cluster, l, dirs);
        p := p[len..];
        n := n + 1;
        if t.Missed? {
          MissedStays(data, l, root, parts, n);
          return;
        }
      }
    }
    assert parts[..n] == parts;
  }

  /** One part further. */
  method StepTo(v: Volume, t: Target, root: nat, name: seq<nat>, cluster: nat, ghost l: Layout,
                ghost dirs: set<nat>) returns (r: Target)
    requires Sound(v, l, dirs) && IsTarget(t) && !t.Missed? && cluster == DirCluster(t, root) && cluster in dirs
    modifies v.cache, v.cache.entries
    ensures Sound(v, l, dirs) && v.Fat() == old(v.Fat()) && v.Data() == old(v.Data())
    ensures r == Step(v.Data(), l, root, t, name)
  {
    hide Volume.Valid, Volume.Fat, Volume.Data, FsInv, SlotsIn, FoundAt, Missing;
    DirInTree(v.Fat(), v.Data(), l, dirs, cluster);
    ghost var data := v.Data();
    var p, j, k := FindInDir(v, cluster, name, l);
    if p.Nowhere? {
      MissingMeans(SlotsIn(data, l, cluster), name);
      return Missed;
    }
    SearchOnce(SlotsIn(data, l, cluster), name, k,
               if Find(SlotsIn(data, l, cluster), name) < 0 then k else Find(SlotsIn(data, l, cluster), name));
    return Entry(p.slot);
  }

  lemma {:induction false} MissedStays(data: seq<seq<nat>>, l: Layout, root: nat, parts: seq<seq<nat>>, n: nat)
    requires n <= |parts| && Walk(data, l, root, parts[..n]).Missed?
    ensures Walk(data, l, root, parts).Missed?
    decreases |parts|
  {
    if n == |parts| {
      assert parts[..n] == parts;
    } else {
      assert parts[..|parts| - 1][..n] == parts[..n];
      MissedStays(data, l, root, parts[..|parts| - 1], n);
    }
  }

  // ---- Files by path ----

  /** Following `parts` leads to a plain file holding `bytes`. */
  ghost predicate PathHolds(data: seq<seq<nat>>, l: Layout, root: nat, parts: seq<seq<nat>>, bytes: seq<nat>) {
    var t := Walk(data, l, root, parts);
    t.Entry? && !IsDirectory(t.slot) && Content(data, l, t.slot) == bytes
  }

  /** Where the file of a path lies: the directory its last part is looked up in. */
  ghost function ParentOf(data: seq<seq<nat>>, l: Layout, root: nat, parts: seq<seq<nat>>): nat
    requires parts != []
  {
    DirCluster(Walk(data, l, root, parts[..|parts| - 1]), root)
  }

  lemma StoredByPath(data: seq<seq<nat>>, l: Layout, root: nat, parts: seq<seq<nat>>, bytes: seq<nat>)
    requires parts != [] && !Walk(data, l, root, parts[..|parts| - 1]).Missed?
    ensures PathHolds(data, l, root, parts, bytes) <==>
      Stored(data, l, ParentOf(data, l, root, parts), parts[|parts| - 1], bytes)
  {
    var d, name := ParentOf(data, l, root, parts), parts[|parts| - 1];
    var slots := SlotsIn(data, l, d);
    var k := Find(slots, name);
    if k >= 0 {
      forall i: nat ensures FoundAt(slots, name, i) ==> i == k { SearchOnce(slots, name, k, i); }
    }
  }

  /** Directories on the way to something that exists are found as before when another name changes. */
  lemma {:induction false} WalkSame(data: seq<seq<nat>>, l: Layout, data': seq<seq<nat>>, l': Layout, fat: seq<nat>,
                                    dirs: set<nat>, root: nat, d: nat, name: seq<nat>, parts: seq<seq<nat>>)
    requires FsInv(fat, data, l, dirs) && root in dirs && d in dirs && OthersSame(data, l, data', l', dirs, d, name)
    requires Proper(data, l, root, parts) && Walk(data, l, root, parts).Entry?
    requires NoDirectory(data, l, d, name) && CanonicalName(name)
    requires
      || IsDirectory(Walk(data, l, root, parts).slot)
      || ParentOf(data, l, root, parts) != d
      || To83(parts[|parts| - 1]) != To83(name)
    ensures Walk(data', l', root, parts) == Walk(data, l, root, parts)
    decreases |parts|
  {
    hide FsInv, SlotsIn, OthersSame, FoundAt, SameLookup, NoDirectory;
    var n := |parts| - 1;
    var before, last := Walk(data, l, root, parts[..n]), parts[n];
    ProperPrefix(data, l, root, parts, n);
    WalkDir(fat, data, l, dirs, root, parts[..n]);
    if before.Entry? { WalkSame(data, l, data', l', fat, dirs, root, d, name, parts[..n]); }
    var x := DirCluster(before, root);
    Elsewhere(fat, data, l, dirs, d, name, x, last);
    OtherLookup(data, l, data', l', dirs, d, name, x, last);
    FindSame(data, l, data', l', x, last);
  }

  /** The name stands for no directory. */
  ghost predicate NoDirectory(data: seq<seq<nat>>, l: Layout, d: nat, name: seq<nat>) {
    forall k: nat {:trigger FoundAt(SlotsIn(data, l, d), name, k)} ::
      FoundAt(SlotsIn(data, l, d), name, k) ==> !IsDirectory(SlotsIn(data, l, d)[k])
  }

  lemma OtherLookup(data: seq<seq<nat>>, l: Layout, data': seq<seq<nat>>, l': Layout, dirs: set<nat>, d: nat,
                    name: seq<nat>, x: nat, m: seq<nat>)
    requires OthersSame(data, l, data', l', dirs, d, name) && x in dirs && CanonicalName(m)
    requires (x != d || To83(m) != To83(name))
    ensures SameLookup(data, l, data', l', x, m)
  {
  }

  /** A directory is not found under the changed name. */
  lemma Elsewhere(fat: seq<nat>, data: seq<seq<nat>>, l: Layout, dirs: set<nat>, d: nat, name: seq<nat>, x: nat,
                  m: seq<nat>)
    requires FsInv(fat, data, l, dirs) && d in dirs && CanonicalName(name) && CanonicalName(m)
    requires NoDirectory(data, l, d, name)
    requires Find(SlotsIn(data, l, x), m) >= 0
    requires IsDirectory(SlotsIn(data, l, x)[Find(SlotsIn(data, l, x), m)]) || x != d || To83(m) != To83(name)
    ensures x != d || To83(m) != To83(name)
  {
    if x == d && To83(m) == To83(name) { SameName(fat, data, l, dirs, d, name, m); }
  }

  /** Names with the same stored form find the same entry. */
  lemma SameName(fat: seq<nat>, data: seq<seq<nat>>, l: Layout, dirs: set<nat>, d: nat, a: seq<nat>, b: seq<nat>)
    requires FsInv(fat, data, l, dirs) && d in dirs && CanonicalName(a) && CanonicalName(b) && To83(a) == To83(b)
    ensures forall i: nat {:trigger FoundAt(SlotsIn(data, l, d), b, i)} ::
      FoundAt(SlotsIn(data, l, d), b, i) ==> FoundAt(SlotsIn(data, l, d), a, i)
  {
    var slots := SlotsIn(data, l, d);
    DirInTree(fat, data, l, dirs, d);
    forall i: nat | FoundAt(slots, b, i) ensures FoundAt(slots, a, i) {
      forall j | 0 <= j <= i ensures slots[j][0] != 0 ==> (Answers(slots[j], a) <==> Answers(slots[j], b)) {
        assert SlotOk(l, dirs, slots[j]);
        SameAnswer(l, dirs, slots[j], a, b);
      }
      forall j | 0 <= j < i ensures Passes(slots[j], a) { assert Passes(slots[j], b); }
    }
  }

  lemma SameAnswer(l: Layout, dirs: set<nat>, s: seq<nat>, a: seq<nat>, b: seq<nat>)
    requires SlotOk(l, dirs, s) && CanonicalName(a) && CanonicalName(b) && To83(a) == To83(b) && s[0] != 0
    ensures Answers(s, a) <==> Answers(s, b)
  {
    if Live(s) {
      HitIsStored(Name(s), a);
      HitIsStored(Name(s), b);
    } else if s[0] == DOT {
      DotsNeverHit(Name(s), a);
      DotsNeverHit(Name(s), b);
    }
  }

  lemma FindSame(data: seq<seq<nat>>, l: Layout, data': seq<seq<nat>>, l': Layout, x: nat, m: seq<nat>)
    requires SameLookup(data, l, data', l', x, m)
    ensures var k, k' := Find(SlotsIn(data, l, x), m), Find(SlotsIn(data', l', x), m);
            (k < 0 <==> k' < 0) && (k >= 0 ==> k' == k && SlotsIn(data', l', x)[k] == SlotsIn(data, l, x)[k])
  {
    var slots, now := SlotsIn(data, l, x), SlotsIn(data', l', x);
    var k, k' := Find(slots, m), Find(now, m);
    if k >= 0 { assert FoundAt(now, m, k); SearchOnce(now, m, k, if k' < 0 then k else k'); }
    if k' >= 0 { assert FoundAt(slots, m, k'); }
  }

  /** The last slash splits a path into its directory and its name. */
  method LastSlash(path: seq<nat>) returns (at: nat)
    requires path != [] && path[0] == SLASH
    ensures at < |path| && path[at] == SLASH && SLASH !in path[at + 1..]
  {
    at := 0;
    for i := 0 to |path|
      invariant at < |path| && path[at] == SLASH && (i > 0 ==> at < i)
      invariant forall k :: at < k < i ==> path[k] != SLASH
    {
      if path[i] == SLASH {
        at := i;
      }
    }
  }

  /** A proper path is its directory's parts and then the name after its last slash. */
  lemma LastName(data: seq<seq<nat>>, l: Layout, root: nat, path: seq<nat>, at: nat)
    requires at + 1 < |path| && path[0] == SLASH && path[at] == SLASH && SLASH !in path[at + 1..]
    requires Proper(data, l, root, Parts(path[1..]))
    ensures Parts(path[1..]) == Parts(path[..at + 1][1..]) + [path[at + 1..]]
  {
    var dir, name := path[..at + 1][1..], path[at + 1..];
    assert path[1..] == dir + name;
    PartsJoin(dir, name);
    assert name[0] in name;
    assert Parts(path[1..])[|Parts(dir)|] == Parts(name)[0];
    OnePart(name);
  }

  /** Trailing slashes add nothing. */
  lemma {:induction false} PartsSlash(s: seq<nat>)
    ensures Parts(s + [SLASH]) == Parts(s)
    decreases |s|
  {
    if s == [] {
      assert s + [SLASH] == [SLASH];
    } else if s[0] == SLASH {
      assert (s + [SLASH])[1..] == s[1..] + [SLASH];
      PartsSlash(s[1..]);
    } else {
      var n := Run(s, MOST);
      RunSlash(s, MOST);
      assert (s + [SLASH])[..n] == s[..n] && (s + [SLASH])[n..] == s[n..] + [SLASH];
      PartsSlash(s[n..]);
    }
  }

  lemma {:induction false} RunSlash(s: seq<nat>, most: nat)
    ensures Run(s + [SLASH], most) == Run(s, most)
    decreases |s|
  {
    if most > 0 && s != [] && s[0] != SLASH {
      assert (s + [SLASH])[1..] == s[1..] + [SLASH];
      RunSlash(s[1..], most - 1);
    }
  }

  /** The directory part of a path, as the source passes it on: without its last slash, or the root. */
  function ParentPath(path: seq<nat>, at: nat): (r: seq<nat>)
    requires at < |path| && path[0] == SLASH
    ensures r != [] && r[0] == SLASH
  {
    if at == 0 then [SLASH] else path[..at]
  }

  lemma ParentParts(path: seq<nat>, at: nat)
    requires at < |path| && path[0] == SLASH && path[at] == SLASH
    ensures Parts(ParentPath(path, at)[1..]) == Parts(path[..at + 1][1..])
  {
    if at == 0 {
      assert path[..1][1..] == [] && [SLASH][1..] == [];
    } else {
      assert path[..at + 1][1..] == path[..at][1..] + [SLASH];
      PartsSlash(path[..at][1..]);
    }
  }

  /** A path to a file in a directory that exists. */
  ghost predicate FilePath(data: seq<seq<nat>>, l: Layout, root: nat, path: seq<nat>) {
    && 1 < |path| < 255 && path[0] == SLASH && path[|path| - 1] != SLASH
    && Parts(path[1..]) != [] && Proper(data, l, root, Parts(path[1..]))
  }

  /** The parts of a file's path that name its directory. */
  function DirOf(path: seq<nat>): seq<seq<nat>> {
    var parts := if path == [] then [] else Parts(path[1..]);
    if parts == [] then [] else parts[..|parts| - 1]
  }

  lemma ParentProper(data: seq<seq<nat>>, l: Layout, root: nat, dir: seq<seq<nat>>, name: seq<nat>)
    requires Proper(data, l, root, dir + [name])
    ensures Proper(data, l, root, dir) && CanonicalName(name)
    ensures var t := Walk(data, l, root, dir); t.Entry? ==> IsDirectory(t.slot)
  {
    ProperPrefix(data, l, root, dir + [name], |dir|);
    assert (dir + [name])[..|dir|] == dir && (dir + [name])[|dir|] == name;
  }

  lemma InvHolds(fat: seq<nat>, data: seq<seq<nat>>, l: Layout, dirs: set<nat>)
    requires FsInv(fat, data, l, dirs)
    ensures LayoutOk(fat, l)
  {
  }

  lemma TargetIsFile(data: seq<seq<nat>>, l: Layout, root: nat, dir: seq<seq<nat>>, name: seq<nat>)
    requires var t := Walk(data, l, root, dir + [name]); t.Entry? ==> !IsDirectory(t.slot)
    requires !Walk(data, l, root, dir).Missed?
    ensures NoDirectory(data, l, DirCluster(Walk(data, l, root, dir), root), name)
  {
    assert (dir + [name])[..|dir|] == dir;
    var slots := SlotsIn(data, l, DirCluster(Walk(data, l, root, dir), root));
    var k := Find(slots, name);
    forall i: nat | FoundAt(slots, name, i) ensures !IsDirectory(slots[i]) { SearchOnce(slots, name, i, k); }
  }

  /** The same entry of the same directory. */
  ghost predicate SamePlace(data: seq<seq<nat>>, l: Layout, root: nat, p: seq<seq<nat>>, q: seq<seq<nat>>)
    requires p != [] && q != []
  {
    ParentOf(data, l, root, p) == ParentOf(data, l, root, q) && To83(p[|p| - 1]) == To83(q[|q| - 1])
  }

  /** Every file at another place is still there and holds the same. */
  ghost predicate OtherPathsSame(data: seq<seq<nat>>, l: Layout, data': seq<seq<nat>>, l': Layout, root: nat,
                                 p: seq<seq<nat>>)
    requires p != []
  {
    forall q: seq<seq<nat>>, bytes: seq<nat> {:trigger PathHolds(data, l, root, q, bytes)} ::
      q != [] && Proper(data, l, root, q) && PathHolds(data, l, root, q, bytes) && !SamePlace(data, l, root, p, q) ==>
        PathHolds(data', l', root, q, bytes)
  }

  lemma OtherPath(fat: seq<nat>, data: seq<seq<nat>>, l: Layout, data': seq<seq<nat>>, l': Layout, dirs: set<nat>,
                  root: nat, d: nat, name: seq<nat>, q: seq<seq<nat>>, bytes: seq<nat>)
    requires FsInv(fat, data, l, dirs) && root in dirs && d in dirs && OthersSame(data, l, data', l', dirs, d, name)
    requires NoDirectory(data, l, d, name) && CanonicalName(name)
    requires q != [] && Proper(data, l, root, q) && PathHolds(data, l, root, q, bytes)
    requires ParentOf(data, l, root, q) != d || To83(q[|q| - 1]) != To83(name)
    ensures PathHolds(data', l', root, q, bytes)
  {
    hide FsInv, OthersSame, NoDirectory, Proper;
    WalkSame(data, l, data', l', fat, dirs, root, d, name, q);
    var n, x := |q| - 1, ParentOf(data, l, root, q);
    ProperPrefix(data, l, root, q, n);
    WalkDir(fat, data, l, dirs, root, q[..n]);
    ProperLast(data, l, root, q);
    OtherLookup(data, l, data', l', dirs, d, name, x, q[n]);
    assert FoundAt(SlotsIn(data, l, x), q[n], Find(SlotsIn(data, l, x), q[n]));
  }

  lemma ProperLast(data: seq<seq<nat>>, l: Layout, root: nat, q: seq<seq<nat>>)
    requires Proper(data, l, root, q) && q != []
    ensures CanonicalName(q[|q| - 1])
  {
  }

  /** The directories of a path that leads somewhere are still directories after the write. */
  lemma StaysProper(fat: seq<nat>, data: seq<seq<nat>>, l: Layout, data': seq<seq<nat>>, l': Layout, dirs: set<nat>,
                    root: nat, d: nat, dir: seq<seq<nat>>, name: seq<nat>)
    requires FsInv(fat, data, l, dirs) && root in dirs && d in dirs && Proper(data, l, root, dir + [name])
    requires !Walk(data, l, root, dir).Missed?
    requires NoDirectory(data, l, d, name) && OthersSame(data, l, data', l', dirs, d, name)
    ensures Proper(data', l', root, dir + [name])
  {
    hide FsInv, OthersSame, NoDirectory, Walk, IsDirectory, CanonicalName;
    var p := dir + [name];
    forall i | 0 <= i < |p| && Walk(data', l', root, p[..i]).Entry?
      ensures IsDirectory(Walk(data', l', root, p[..i]).slot)
    {
      StillDirectory(fat, data, l, data', l', dirs, root, d, dir, name, i);
    }
  }

  lemma StillDirectory(fat: seq<nat>, data: seq<seq<nat>>, l: Layout, data': seq<seq<nat>>, l': Layout, dirs: set<nat>,
                       root: nat, d: nat, dir: seq<seq<nat>>, name: seq<nat>, i: nat)
    requires FsInv(fat, data, l, dirs) && root in dirs && d in dirs && Proper(data, l, root, dir + [name])
    requires !Walk(data, l, root, dir).Missed? && i <= |dir|
    requires NoDirectory(data, l, d, name) && OthersSame(data, l, data', l', dirs, d, name)
    ensures var t := Walk(data', l', root, (dir + [name])[..i]); t.Entry? ==> IsDirectory(t.slot)
  {
    if i > 0 {
      hide FsInv, OthersSame, NoDirectory, Walk, IsDirectory, CanonicalName;
      ProperLast(data, l, root, dir + [name]);
      ProperPrefix(data, l, root, dir + [name], i);
      assert (dir + [name])[..i] == dir[..i];
      NotMissedBefore(data, l, root, dir, i);
      WalkSame(data, l, data', l', fat, dirs, root, d, name, dir[..i]);
    }
  }

  lemma NotMissedBefore(data: seq<seq<nat>>, l: Layout, root: nat, parts: seq<seq<nat>>, i: nat)
    requires 0 < i <= |parts| && !Walk(data, l, root, parts).Missed?
    ensures Walk(data, l, root, parts[..i]).Entry?
  {
    if Walk(data, l, root, parts[..i]).Missed? { MissedStays(data, l, root, parts, i); }
  }

  lemma WrittenByPath(fat: seq<nat>, data: seq<seq<nat>>, l: Layout, data': seq<seq<nat>>, l': Layout, dirs: set<nat>,
                      root: nat, d: nat, dir: seq<seq<nat>>, name: seq<nat>, bytes: seq<nat>)
    requires FsInv(fat, data, l, dirs) && root in dirs && d in dirs && Proper(data, l, root, dir + [name])
    requires !Walk(data, l, root, dir).Missed? && d == DirCluster(Walk(data, l, root, dir), root)
    requires NoDirectory(data, l, d, name) && OthersSame(data, l, data', l', dirs, d, name)
    requires Stored(data', l', d, name, bytes)
    ensures PathHolds(data', l', root, dir + [name], bytes)
    ensures OtherPathsSame(data, l, data', l', root, dir + [name])
    ensures Proper(data', l', root, dir + [name])
  {
    hide FsInv, OthersSame, NoDirectory, Proper, Stored, PathHolds;
    StaysProper(fat, data, l, data', l', dirs, root, d, dir, name);
    var p := dir + [name];
    assert p[..|p| - 1] == dir && p[|p| - 1] == name;
    ParentProper(data, l, root, dir, name);
    if dir != [] { WalkSame(data, l, data', l', fat, dirs, root, d, name, dir); }
    StoredByPath(data', l', root, p, bytes);
    PathsKept(fat, data, l, data', l', dirs, root, d, dir, name);
  }

  /** Where the data of a path starts; 0 when it leads nowhere or to an empty file. */
  ghost function PathHead(data: seq<seq<nat>>, l: Layout, root: nat, parts: seq<seq<nat>>): nat {
    var t := Walk(data, l, root, parts);
    if t.Entry? then FirstCluster(t.slot) else 0
  }

  /** The path's old data is gone and its new data is there; every other chain but its directory's is as before; and
      what went is free but for what came. */
  ghost predicate PathMoves(fat: seq<nat>, data: seq<seq<nat>>, l: Layout, fat': seq<nat>, data': seq<seq<nat>>,
                            l': Layout, root: nat, parts: seq<seq<nat>>)
    requires parts != []
  {
    var d, h, first := ParentOf(data, l, root, parts), PathHead(data, l, root, parts), PathHead(data', l', root, parts);
    && Rechained(l, l', d, h, first)
    && FreeClusters(fat') + ClustersOf(l', first) + ClustersOf(l', d) ==
         FreeClusters(fat) + ClustersOf(l, h) + ClustersOf(l, d)
  }

  lemma HeadByPath(data: seq<seq<nat>>, l: Layout, root: nat, dir: seq<seq<nat>>, name: seq<nat>)
    requires !Walk(data, l, root, dir).Missed?
    ensures PathHead(data, l, root, dir + [name]) == HeadOf(data, l, DirCluster(Walk(data, l, root, dir), root), name)
    ensures ParentOf(data, l, root, dir + [name]) == DirCluster(Walk(data, l, root, dir), root)
  {
    var p := dir + [name];
    assert p[..|p| - 1] == dir && p[|p| - 1] == name;
  }

  lemma MovedByPath(fat: seq<nat>, data: seq<seq<nat>>, l: Layout, fat': seq<nat>, data': seq<seq<nat>>, l': Layout,
                    dirs: set<nat>, root: nat, d: nat, dir: seq<seq<nat>>, name: seq<nat>)
    requires FsInv(fat, data, l, dirs) && root in dirs && d in dirs && Proper(data, l, root, dir + [name])
    requires !Walk(data, l, root, dir).Missed? && d == DirCluster(Walk(data, l, root, dir), root)
    requires NoDirectory(data, l, d, name) && OthersSame(data, l, data', l', dirs, d, name)
    requires Moves(fat, data, l, fat', data', l', d, name)
    ensures PathMoves(fat, data, l, fat', data', l', root, dir + [name]) && l'.root == l.root
  {
    hide FsInv, OthersSame, NoDirectory, Proper, HeadOf, FreeClusters, ClustersOf;
    ParentProper(data, l, root, dir, name);
    if dir != [] { WalkSame(data, l, data', l', fat, dirs, root, d, name, dir); }
    HeadByPath(data, l, root, dir, name);
    HeadByPath(data', l', root, dir, name);
  }

  lemma PathsKept(fat: seq<nat>, data: seq<seq<nat>>, l: Layout, data': seq<seq<nat>>, l': Layout, dirs: set<nat>,
                  root: nat, d: nat, dir: seq<seq<nat>>, name: seq<nat>)
    requires FsInv(fat, data, l, dirs) && root in dirs && d in dirs && CanonicalName(name)
    requires d == DirCluster(Walk(data, l, root, dir), root)
    requires NoDirectory(data, l, d, name) && OthersSame(data, l, data', l', dirs, d, name)
    ensures OtherPathsSame(data, l, data', l', root, dir + [name])
  {
    hide FsInv, OthersSame, NoDirectory, Proper, PathHolds;
    var p := dir + [name];
    assert p[..|p| - 1] == dir && p[|p| - 1] == name;
    forall q: seq<seq<nat>>, b: seq<nat> |
      q != [] && Proper(data, l, root, q) && PathHolds(data, l, root, q, b) && !SamePlace(data, l, root, p, q)
      ensures PathHolds(data', l', root, q, b)
    {
      OtherPath(fat, data, l, data', l', dirs, root, d, name, q, b);
    }
  }

  lemma RemovedByPath(fat: seq<nat>, data: seq<seq<nat>>, l: Layout, data': seq<seq<nat>>, l': Layout, dirs: set<nat>,
                      root: nat, d: nat, dir: seq<seq<nat>>, name: seq<nat>)
    requires FsInv(fat, data, l, dirs) && root in dirs && d in dirs && Proper(data, l, root, dir + [name])
    requires !Walk(data, l, root, dir).Missed? && d == DirCluster(Walk(data, l, root, dir), root)
    requires OthersSame(data, l, data', l', dirs, d, name) && exists bytes :: Stored(data, l, d, name, bytes)
    requires
      forall i: nat {:trigger FoundAt(SlotsIn(data', l', d), name, i)} :: !FoundAt(SlotsIn(data', l', d), name, i)
    ensures Walk(data', l', root, dir + [name]).Missed?
    ensures OtherPathsSame(data, l, data', l', root, dir + [name])
  {
    hide FsInv, OthersSame, Proper, SlotsIn, PathHolds, OtherPathsSame, FoundAt;
    var p := dir + [name];
    assert p[..|p| - 1] == dir && p[|p| - 1] == name;
    ParentProper(data, l, root, dir, name);
    StoredIsFile(data, l, d, name);
    PathsKept(fat, data, l, data', l', dirs, root, d, dir, name);
    if dir != [] { WalkSame(data, l, data', l', fat, dirs, root, d, name, dir); }
  }

  lemma StoredIsFile(data: seq<seq<nat>>, l: Layout, d: nat, name: seq<nat>)
    requires exists bytes :: Stored(data, l, d, name, bytes)
    ensures NoDirectory(data, l, d, name)
  {
    var slots := SlotsIn(data, l, d);
    var bytes :| Stored(data, l, d, name, bytes);
    var k: nat :| FoundAt(slots, name, k) && !IsDirectory(slots[k]) && Content(data, l, slots[k]) == bytes;
    forall i: nat | FoundAt(slots, name, i) ensures !IsDirectory(slots[i]) { SearchOnce(slots, name, k, i); }
  }

  /** The path's directory is there, and the clusters at hand suffice for `need` clusters of data and for the directory
      if it must grow. */
  ghost predicate CanWrite(fat: seq<nat>, data: seq<seq<nat>>, l: Layout, root: nat, path: seq<nat>, need: nat)
    requires path != [] && Parts(path[1..]) != []
  {
    var parts := Parts(path[1..]);
    var d, name := ParentOf(data, l, root, parts), parts[|parts| - 1];
    && !Walk(data, l, root, DirOf(path)).Missed?
    && need + DirGrowth(data, l, d, name) <= |AtHand(fat, data, l, d, name)|
  }

  /** Writes a file by its path. On success the path holds the bytes, and every other file still holds its own. */
  method WritePath(v: Volume, path: seq<nat>, root: nat, bytes: seq<nat>, ghost l: Layout, ghost dirs: set<nat>)
    returns (ok: bool, ghost l': Layout)
    requires Sound(v, l, dirs) && root == l.root && root in dirs && Bytes(bytes) && FilePath(v.Data(), l, root, path)
    requires var t := Walk(v.Data(), l, root, Parts(path[1..])); t.Entry? ==> !IsDirectory(t.slot)
    modifies v.cache, v.cache.entries
    ensures Holds(v, l')
    ensures ok ==> Sound(v, l', dirs) && PathHolds(v.Data(), l', root, Parts(path[1..]), Recorded(bytes))
    ensures ok ==> OtherPathsSame(old(v.Data()), l, v.Data(), l', root, Parts(path[1..]))
    ensures ok ==> FilePath(v.Data(), l', root, path)
    ensures
      ok ==> PathMoves(old(v.Fat()), old(v.Data()), l, v.Fat(), v.Data(), l', root, Parts(path[1..])) && l'.root == root
    ensures ClusterSize(v.g) > 0 && Parts(path[1..]) != []
    ensures ok <==> CanWrite(old(v.Fat()), old(v.Data()), l, root, path, ClustersFor(|bytes|, ClusterSize(v.g)))
    ensures Walk(old(v.Data()), l, root, DirOf(path)).Missed? ==>
      l' == l && v.Fat() == old(v.Fat()) && v.Data() == old(v.Data())
    ensures !Walk(old(v.Data()), l, root, DirOf(path)).Missed? ==>
      var parts := Parts(path[1..]);
      WriteResult(old(v.Fat()), old(v.Data()), l, dirs, ParentOf(old(v.Data()), l, root, parts), parts[|parts| - 1],
                  ClustersFor(|bytes|, ClusterSize(v.g)), v.Fat(), v.Data(), l', ok)
  {
    hide Volume.Valid, Volume.Fat, Volume.Data, FsInv, LayoutOk, SlotsIn, FoundAt, Walk, Step, Proper, Parts;
    hide OthersSame, Stored, PathHolds, OtherPathsSame, PathMoves, PathHead, Moves, HeadOf, FreeClusters, ClustersOf;
    hide NoDirectory, ClustersFor, AtHand, DirGrowth, Survives;
    var at := LastSlash(path);
    var name := path[at + 1..];
    ghost var fat, data, parts := v.Fat(), v.Data(), Parts(path[1..]);
    BigClusters(v);
    LastName(data, l, root, path, at);
    ghost var dir := Parts(path[..at + 1][1..]);
    assert DirOf(path) == dir;
    ParentParts(path, at);
    ParentProper(data, l, root, dir, name);
    var parent := ResolvePath(v, ParentPath(path, at), root, l, dirs);
    if parent.Missed? {
      InvHolds(fat, data, l, dirs);
      return false, l;
    }
    var d := DirCluster(parent, root);
    WalkDir(fat, data, l, dirs, root, dir);
    TargetIsFile(data, l, root, dir, name);
    HeadByPath(data, l, root, dir, name);
    ok, l' := WriteFile(v, d, name, bytes, l, dirs);
    if ok {
      WrittenByPath(fat, data, l, v.Data(), l', dirs, root, d, dir, name, Recorded(bytes));
      MovedByPath(fat, data, l, v.Fat(), v.Data(), l', dirs, root, d, dir, name);
    }
  }

  /** Reads a file by its path, at most `limit` bytes of it. */
  method ReadPath(v: Volume, path: seq<nat>, root: nat, limit: nat, ghost l: Layout, ghost dirs: set<nat>)
    returns (ok: bool, buf: seq<nat>)
    requires Sound(v, l, dirs) && root == l.root && root in dirs
    requires (Absolute(path) ==> Proper(v.Data(), l, root, Parts(path[1..])))
    modifies v.cache, v.cache.entries
    ensures Sound(v, l, dirs) && v.Fat() == old(v.Fat()) && v.Data() == old(v.Data())
    ensures ok <==> Absolute(path) && exists bytes :: PathHolds(v.Data(), l, root, Parts(path[1..]), bytes)
    ensures ok ==> forall bytes :: PathHolds(v.Data(), l, root, Parts(path[1..]), bytes) ==> buf == Cut(bytes, limit)
  {
    hide Volume.Valid, Volume.Fat, Volume.Data, FsInv, LayoutOk, SlotsIn, Walk, Proper, Parts, Content, Copied, Join;
    var t := ResolvePath(v, path, root, l, dirs);
    if t.Missed? || t.Root? || t.slot[11] / 16 % 2 == 1 {
      return false, [];
    }
    ghost var fat, data, parts := v.Fat(), v.Data(), Parts(path[1..]);
    RootIsEmpty(data, l, root);
    FileFound(fat, data, l, dirs, root, parts);
    InvHolds(fat, data, l, dirs);
    buf := ReadChain(v, FirstCluster(t.slot), FileSize(t.slot), limit, l);
    ReadIs(fat, data, l, t.slot, buf, limit);
    assert PathHolds(data, l, root, parts, Content(data, l, t.slot));
    ok := true;
  }

  /** Removes a file by its path.  It succeeds exactly on plain files; the path then leads nowhere, and every
      other file still holds its own. */
  method UnlinkPath(v: Volume, path: seq<nat>, root: nat, ghost l: Layout,
                    ghost dirs: set<nat>) returns (ok: bool, ghost l': Layout)
    requires Sound(v, l, dirs) && root == l.root && root in dirs && FilePath(v.Data(), l, root, path)
    modifies v.cache, v.cache.entries
    ensures Sound(v, l', dirs)
    ensures !ok ==> l' == l && v.Fat() == old(v.Fat()) && v.Data() == old(v.Data())
    ensures ok <==> exists bytes :: PathHolds(old(v.Data()), l, root, Parts(path[1..]), bytes)
    ensures ok ==> Walk(v.Data(), l', root, Parts(path[1..])).Missed?
    ensures ok ==> OtherPathsSame(old(v.Data()), l, v.Data(), l', root, Parts(path[1..]))
    ensures
      ok ==> PathMoves(old(v.Fat()), old(v.Data()), l, v.Fat(), v.Data(), l', root, Parts(path[1..])) && l'.root == root
    ensures ok ==>
      FreeClusters(v.Fat()) ==
        FreeClusters(old(v.Fat())) + ClustersOf(l, PathHead(old(v.Data()), l, root, Parts(path[1..])))
  {
    hide Volume.Valid, Volume.Fat, Volume.Data, FsInv, LayoutOk, SlotsIn, FoundAt, Walk, Step, Proper, Parts;
    hide OthersSame, Stored, PathHolds, OtherPathsSame, PathMoves, PathHead, Moves, HeadOf, FreeClusters, ClustersOf;
    hide NoDirectory;
    var at := LastSlash(path);
    var name := path[at + 1..];
    ghost var fat, data, parts := v.Fat(), v.Data(), Parts(path[1..]);
    LastName(data, l, root, path, at);
    ghost var dir := Parts(path[..at + 1][1..]);
    ParentParts(path, at);
    ParentProper(data, l, root, dir, name);
    var parent := ResolvePath(v, ParentPath(path, at), root, l, dirs);
    if parent.Missed? {
      NoDirNoFile(data, l, root, dir, name);
      return false, l;
    }
    var d := DirCluster(parent, root);
    WalkDir(fat, data, l, dirs, root, dir);
    HeldIsStored(data, l, root, dir, name);
    ok, l' := Unlink(v, d, name, l, dirs);
    if ok {
      RemovedByPath(fat, data, l, v.Data(), l', dirs, root, d, dir, name);
      StoredIsFile(data, l, d, name);
      MovedByPath(fat, data, l, v.Fat(), v.Data(), l', dirs, root, d, dir, name);
      HeadByPath(data, l, root, dir, name);
    }
  }

  lemma NoDirNoFile(data: seq<seq<nat>>, l: Layout, root: nat, dir: seq<seq<nat>>, name: seq<nat>)
    requires Walk(data, l, root, dir).Missed?
    ensures forall bytes :: !PathHolds(data, l, root, dir + [name], bytes)
  {
    assert (dir + [name])[..|dir|] == dir;
    MissedStays(data, l, root, dir + [name], |dir|);
  }

  lemma HeldIsStored(data: seq<seq<nat>>, l: Layout, root: nat, dir: seq<seq<nat>>, name: seq<nat>)
    requires !Walk(data, l, root, dir).Missed?
    ensures forall bytes {:trigger PathHolds(data, l, root, dir + [name], bytes)}
      {:trigger Stored(data, l, DirCluster(Walk(data, l, root, dir), root), name, bytes)} ::
      PathHolds(data, l, root, dir + [name], bytes) <==>
        Stored(data, l, DirCluster(Walk(data, l, root, dir), root), name, bytes)
  {
    var p := dir + [name];
    assert p[..|p| - 1] == dir && p[|p| - 1] == name;
    forall bytes
      ensures PathHolds(data, l, root, p, bytes) <==> Stored(data, l, ParentOf(data, l, root, p), name, bytes)
    {
      StoredByPath(data, l, root, p, bytes);
    }
  }

  lemma RootIsEmpty(data: seq<seq<nat>>, l: Layout, root: nat)
    ensures Walk(data, l, root, []) == Root
  {
  }

  lemma FileFound(fat: seq<nat>, data: seq<seq<nat>>, l: Layout, dirs: set<nat>, root: nat, parts: seq<seq<nat>>)
    requires FsInv(fat, data, l, dirs) && root in dirs && parts != [] && Proper(data, l, root, parts)
    requires Walk(data, l, root, parts).Entry?
    ensures var h := FirstCluster(Walk(data, l, root, parts).slot); h == 0 || (2 <= h < |fat| && h in l.chains)
    ensures |fat| == |data| + 2
  {
    var n := |parts| - 1;
    ProperPrefix(data, l, root, parts, n);
    WalkDir(fat, data, l, dirs, root, parts[..n]);
    ProperLast(data, l, root, parts);
    var d := ParentOf(data, l, root, parts);
    FoundFile(fat, data, l, dirs, d, parts[n], Find(SlotsIn(data, l, d), parts[n]));
  }

  /** Reading a path back after writing it, through any state of the cache. */
  method WriteThenReadPath(v: Volume, path: seq<nat>, root: nat, bytes: seq<nat>, limit: nat, ghost l: Layout,
                           ghost dirs: set<nat>)
    returns (ok: bool, buf: seq<nat>, ghost l': Layout)
    requires Sound(v, l, dirs) && root == l.root && root in dirs && Bytes(bytes) && FilePath(v.Data(), l, root, path)
    requires limit >= |bytes|
    requires var t := Walk(v.Data(), l, root, Parts(path[1..])); t.Entry? ==> !IsDirectory(t.slot)
    modifies v.cache, v.cache.entries
    ensures Holds(v, l')
    ensures ok ==> Sound(v, l', dirs) && (buf == bytes <==> |bytes| < FULL)
    ensures ClusterSize(v.g) > 0 && Parts(path[1..]) != []
    ensures ok <==> CanWrite(old(v.Fat()), old(v.Data()), l, root, path, ClustersFor(|bytes|, ClusterSize(v.g)))
  {
    hide Volume.Valid, Volume.Fat, Volume.Data, FsInv, LayoutOk, SlotsIn, Walk, Proper, Parts, PathHolds;
    hide OtherPathsSame, PathMoves, Recorded, Cut, FreeClusters, DirOf;
    RecordedRead(bytes, limit);
    buf := [];
    ok, l' := WritePath(v, path, root, bytes, l, dirs);
    if ok {
      var found;
      found, buf := ReadPath(v, path, root, limit, l', dirs);
    }
  }
}
