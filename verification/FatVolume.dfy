/** Table words and clusters read and written through the block cache (src/fs/fat32.c). */
module FatVolume {
  import opened FatLayout
  import opened Bits
  import BC = BlockCache

  /** The volume's sectors as reads through the cache see them. */
  ghost function Seen(es: seq<BC.Entry>, disks: seq<BC.Disk>, dev: nat, start: nat): Sectors {
    (l: nat) => if dev < |disks| && disks[dev].spp > 0 then BC.View(es, disks, dev, start + l) else []
  }

  /** The masked words of the first table. */
  ghost function FatOf(v: Sectors, g: Geometry): (r: seq<nat>)
    requires GeometryOk(g) && SectorsOk(v, g)
    ensures |r| == g.total + 2
  {
    seq(g.total + 2, c requires 0 <= c < g.total + 2 => FatWord(v, g, 0, c) % MASK)
  }

  ghost function DataOf(v: Sectors, g: Geometry): (r: seq<seq<nat>>)
    ensures |r| == g.total
  {
    seq(g.total, k requires 0 <= k < g.total => ClusterBytes(v, g, k))
  }

  lemma {:induction false} FlatBytes(s: seq<Sector>)
    requires forall i :: 0 <= i < |s| ==> Bytes(s[i])
    ensures Bytes(Flat(s))
  {
    if s != [] { FlatBytes(s[..|s| - 1]); }
  }

  /** Every cluster holds as many bytes as its sectors. */
  lemma DataShape(v: Sectors, g: Geometry)
    requires GeometryOk(g) && SectorsOk(v, g)
    ensures forall k :: 0 <= k < g.total ==> |DataOf(v, g)[k]| == g.spc * g.bps && Bytes(DataOf(v, g)[k])
  {
    forall k | 0 <= k < g.total ensures |DataOf(v, g)[k]| == g.spc * g.bps && Bytes(DataOf(v, g)[k]) {
      var b := Block(v, ClusterSector(g, k), g.spc);
      FlatLength(b, g.bps);
      FlatBytes(b);
    }
  }

  ghost predicate SameSectors(v: Sectors, v': Sectors) { forall l: nat {:trigger v'(l)} :: v'(l) == v(l) }

  lemma SameSectorsSame(v: Sectors, v': Sectors, g: Geometry)
    requires GeometryOk(g) && SectorsOk(v, g) && SameSectors(v, v')
    ensures SectorsOk(v', g) && FatOf(v', g) == FatOf(v, g) && DataOf(v', g) == DataOf(v, g)
    ensures TablesAgree(v, g) ==> TablesAgree(v', g)
  {
    forall x, copy | 0 <= x && InTable(g, x) ensures FatWord(v', g, copy, x) == FatWord(v, g, copy, x) {}
    forall k: nat ensures ClusterBytes(v', g, k) == ClusterBytes(v, g, k) {
      assert Block(v', ClusterSector(g, k), g.spc) == Block(v, ClusterSector(g, k), g.spc);
    }
  }

  lemma WordsStay(v: Sectors, v': Sectors, g: Geometry, k: nat, b: seq<nat>)
    requires GeometryOk(g) && SectorsOk(v, g) && |b| == g.spc * g.bps && Bytes(b) && k < g.total
    requires Changed(v, v', ClusterSector(g, k), Chop(b, g.bps, g.spc))
    ensures SectorsOk(v', g) && FatOf(v', g) == FatOf(v, g) && DataOf(v', g) == DataOf(v, g)[k := b]
    ensures TablesAgree(v, g) ==> TablesAgree(v', g)
  {
    hide FatWord, ClusterBytes;
    ClusterChanged(v, v', g, k, b);
    forall c | 0 <= c < g.total + 2 ensures FatOf(v', g)[c] == FatOf(v, g)[c] {
      assert FatWord(v', g, 0, c) == FatWord(v, g, 0, c);
    }
    forall j | 0 <= j < g.total ensures DataOf(v', g)[j] == DataOf(v, g)[k := b][j] {
      assert ClusterBytes(v', g, j) == if j == k then b else ClusterBytes(v, g, j);
    }
    if TablesAgree(v, g) && g.numFats >= 2 {
      forall c | 0 <= c && InTable(g, c) ensures FatWord(v', g, 0, c) == FatWord(v', g, 1, c) {
        assert FatWord(v, g, 0, c) == FatWord(v, g, 1, c);
      }
    }
  }

  /** The sector holding a cluster's word, with the word replaced. */
  ghost function NewSector(v: Sectors, g: Geometry, copy: nat, c: nat, value: nat): Sector
    requires GeometryOk(g) && SectorsOk(v, g) && InTable(g, c)
  {
    WordPlace(g, c);
    PutWord(v(FatSector(g, copy, c)), FatOffset(g, c), Merge(FatWord(v, g, copy, c), value))
  }

  lemma WordBound(v: Sectors, g: Geometry, copy: nat, c: nat)
    requires GeometryOk(g) && SectorsOk(v, g) && InTable(g, c)
    ensures FatWord(v, g, copy, c) < 0x1_0000_0000
  {
    WordPlace(g, c);
    var s := v(FatSector(g, copy, c));
    assert |s| == g.bps && Bytes(s);
  }

  /** One table copy rewritten. */
  ghost predicate CopySet(v: Sectors, v': Sectors, g: Geometry, copy: nat, c: nat, value: nat)
    requires GeometryOk(g) && SectorsOk(v, g) && InTable(g, c)
  {
    && SectorsOk(v', g)
    && (forall x, other {:trigger FatWord(v', g, other, x)} :: 0 <= x && InTable(g, x) && 0 <= other < g.numFats ==>
          FatWord(v', g, other, x) ==
          if x == c && other == copy then Merge(FatWord(v, g, copy, c), value) else FatWord(v, g, other, x))
    && (forall k: nat {:trigger ClusterBytes(v', g, k)} :: ClusterBytes(v', g, k) == ClusterBytes(v, g, k))
  }

  lemma SectorRewritten(v: Sectors, v': Sectors, g: Geometry, copy: nat, c: nat, value: nat)
    requires GeometryOk(g) && SectorsOk(v, g) && InTable(g, c) && copy < g.numFats
    requires Changed(v, v', FatSector(g, copy, c), [NewSector(v, g, copy, c, value)])
    ensures CopySet(v, v', g, copy, c, value)
  {
    WordPlace(g, c);
    WordBound(v, g, copy, c);
    MergeIs(FatWord(v, g, copy, c), value);
    WordChanged(v, v', g, copy, c, Merge(FatWord(v, g, copy, c), value));
  }

  /** Both table copies rewritten the same way stay equal. */
  lemma TablesSet(v: Sectors, v1: Sectors, v2: Sectors, g: Geometry, c: nat, value: nat)
    requires GeometryOk(g) && SectorsOk(v, g) && SectorsOk(v1, g) && c < g.total + 2 && InTable(g, c)
    requires TablesAgree(v, g)
    requires CopySet(v, v1, g, 0, c, value)
    requires if g.numFats >= 2 then CopySet(v1, v2, g, 1, c, value) else SameSectors(v1, v2)
    ensures SectorsOk(v2, g) && FatOf(v2, g) == FatOf(v, g)[c := value % MASK] && DataOf(v2, g) == DataOf(v, g)
    ensures TablesAgree(v2, g)
  {
    hide FatWord, ClusterBytes;
    if g.numFats < 2 { SameSectorsSame(v1, v2, g); }
    FirstSet(v, v1, g, c, value);
    if g.numFats >= 2 {
      forall x | 0 <= x < g.total + 2 ensures FatOf(v2, g)[x] == FatOf(v1, g)[x] {
        assert FatWord(v2, g, 0, x) == FatWord(v1, g, 0, x);
      }
      forall j | 0 <= j < g.total ensures DataOf(v2, g)[j] == DataOf(v1, g)[j] {
        assert ClusterBytes(v2, g, j) == ClusterBytes(v1, g, j);
      }
      forall x | 0 <= x && InTable(g, x) ensures FatWord(v2, g, 0, x) == FatWord(v2, g, 1, x) {
        assert FatWord(v, g, 0, x) == FatWord(v, g, 1, x);
        assert FatWord(v1, g, 0, x) == if x == c then Merge(FatWord(v, g, 0, c), value) else FatWord(v, g, 0, x);
        assert FatWord(v1, g, 1, x) == FatWord(v, g, 1, x);
        assert FatWord(v2, g, 0, x) == FatWord(v1, g, 0, x);
      }
    }
  }

  lemma FirstSet(v: Sectors, v': Sectors, g: Geometry, c: nat, value: nat)
    requires GeometryOk(g) && SectorsOk(v, g) && c < g.total + 2 && InTable(g, c) && CopySet(v, v', g, 0, c, value)
    ensures FatOf(v', g) == FatOf(v, g)[c := value % MASK] && DataOf(v', g) == DataOf(v, g)
  {
    hide FatWord, ClusterBytes, Merge;
    WordBound(v, g, 0, c);
    MergeIs(FatWord(v, g, 0, c), value);
    forall x | 0 <= x < g.total + 2 ensures FatOf(v', g)[x] == FatOf(v, g)[c := value % MASK][x] {
      assert FatWord(v', g, 0, x) == if x == c then Merge(FatWord(v, g, 0, c), value) else FatWord(v, g, 0, x);
    }
    forall j | 0 <= j < g.total ensures DataOf(v', g)[j] == DataOf(v, g)[j] {
      assert ClusterBytes(v', g, j) == ClusterBytes(v, g, j);
    }
  }

  class Volume {
    const cache: BC.Cache
    const dev: nat
    const start: nat
    const g: Geometry

    constructor (cache: BC.Cache, dev: nat, start: nat, g: Geometry)
      ensures this.cache == cache && this.dev == dev && this.start == start && this.g == g
    {
      this.cache, this.dev, this.start, this.g := cache, dev, start, g;
    }

    ghost function V(): Sectors
      reads cache, cache.entries
    {
      Seen(cache.entries[..], cache.disks, dev, start)
    }

    /** The device can be read and its sectors have the volume's size. */
    ghost predicate Open()
      reads cache, cache.entries
    {
      && cache.Valid() && dev < |cache.disks| && (forall page: nat :: cache.disks[dev].readable(page))
      && GeometryOk(g) && SectorsOk(V(), g)
    }

    /** Besides, both table copies agree. */
    ghost predicate Valid()
      reads cache, cache.entries
    {
      Open() && TablesAgree(V(), g)
    }

    /** The first table's entries, without their top four bits. */
    ghost function Fat(): (r: seq<nat>)
      requires Valid()
      reads cache, cache.entries
      ensures |r| == g.total + 2
    {
      FatOf(V(), g)
    }

    /** The clusters' contents; cluster `c` is at index `c - 2`. */
    ghost function Data(): (r: seq<seq<nat>>)
      requires Valid()
      reads cache, cache.entries
      ensures |r| == g.total
      ensures forall k :: 0 <= k < |r| ==> |r[k]| == g.spc * g.bps && Bytes(r[k])
    {
      DataShape(V(), g);
      DataOf(V(), g)
    }

    lemma Shape()
      requires Valid()
      ensures GeometryOk(g) && g.total + 2 < EOC
    {
    }

    /** Sectors through the cache; nothing the volume shows changes. */
    method ReadSectors(lba: nat, count: nat) returns (buf: seq<Sector>)
      requires Open()
      modifies cache, cache.entries
      ensures Open() && SameSectors(old(V()), V()) && buf == Block(old(V()), lba, count)
    {
      hide GeometryOk, SectorsOk, BC.Shows, BC.SameView, BC.Consistent, Block, Seen, SameSectors;
      ghost var es, disks, v := cache.entries[..], cache.disks, V();
      BC.HasPages(es, disks, cache.ticks, dev);
      var ok;
      ok, buf := cache.Read(dev, start + lba, count);
      SeenSame(es, disks, cache.entries[..], cache.disks, dev, start);
      SameSectorsSame(v, V(), g);
      SeenBlock(es, disks, dev, start, lba, buf);
    }

    /** Sectors through the cache: exactly these change. */
    method WriteSectors(lba: nat, src: seq<Sector>)
      requires Open() && forall i :: 0 <= i < |src| ==> |src[i]| == g.bps && Bytes(src[i])
      modifies cache, cache.entries
      ensures Open() && Changed(old(V()), V(), lba, src)
    {
      hide GeometryOk, SectorsOk, BC.Wrote, BC.Consistent, Changed, Bytes, Seen;
      ghost var es, disks, v := cache.entries[..], cache.disks, V();
      var ok, done := cache.Write(dev, start + lba, src);
      assert src[..done] == src;
      BC.WroteDevices(es, disks, cache.entries[..], cache.disks, dev, start + lba, src);
      SeenWrote(es, disks, cache.entries[..], cache.disks, dev, start, lba, src);
      ChangedOk(v, V(), g, lba, src);
    }

    /** A cluster is the sectors at its place, counted from the first sector of the volume. */
    lemma DataIs(c: nat)
      requires Valid() && 2 <= c < g.total + 2
      ensures (c - 2) * g.spc >= 0
      ensures Data()[c - 2] == Flat(Block(V(), g.reserved + g.numFats * g.fatSize + (c - 2) * g.spc, g.spc))
    {
      MulMono(0, c - 2, g.spc);
    }

    /** A cluster's entry is the low 28 bits of the word at byte `4 * c` of the first table. */
    lemma FatIs(c: nat, row: nat, off: nat)
      requires Valid() && c < g.total + 2 && off < g.bps && c * 4 == row * g.bps + off
      ensures off + 4 <= g.bps == |V()(g.reserved + row)|
      ensures Fat()[c] == Word(V()(g.reserved + row), off) % 0x1000_0000
    {
      hide Word;
      WordPlace(g, c);
      DivIs(c * 4, g.bps, row, off);
    }

    /** The table entry of a cluster. */
    method FatEntry(c: nat) returns (value: nat)
      requires Valid() && c < g.total + 2
      modifies cache, cache.entries
      ensures Valid() && Fat() == old(Fat()) && Data() == old(Data())
      ensures value == Fat()[c] < MASK
    {
      ghost var v := V();
      WordPlace(g, c);
      var buf := ReadSectors(FatSector(g, 0, c), 1);
      SameSectorsSame(v, V(), g);
      assert buf[0] == v(FatSector(g, 0, c));
      value := Word(buf[0], FatOffset(g, c)) % MASK;
      assert value == FatOf(v, g)[c];
    }

    /** Replaces one word's low 28 bits in one table copy. */
    method SetCopy(copy: nat, c: nat, value: nat)
      requires Open() && copy < g.numFats && InTable(g, c)
      modifies cache, cache.entries
      ensures Open() && CopySet(old(V()), V(), g, copy, c, value)
    {
      ghost var v := V();
      WordPlace(g, c);
      var s, o := FatSector(g, copy, c), FatOffset(g, c);
      var buf := ReadSectors(s, 1);
      ghost var v1 := V();
      assert buf[0] == v(s);
      WordBound(v, g, copy, c);
      MergeIs(FatWord(v, g, copy, c), value);
      WordOfPut(buf[0], o, Merge(Word(buf[0], o), value), o);
      var sector := PutWord(buf[0], o, Merge(Word(buf[0], o), value));
      WriteSectors(s, [sector]);
      SameThenChanged(v, v1, V(), s, [sector]);
      SectorRewritten(v, V(), g, copy, c, value);
    }

    /** Sets one table word, in both copies where there are two. */
    method FatSetEntry(c: nat, value: nat)
      requires Valid() && c < g.total + 2
      modifies cache, cache.entries
      ensures Valid() && Fat() == old(Fat())[c := value % MASK] && Data() == old(Data())
    {
      ghost var v := V();
      hide CopySet, TablesAgree, SameSectors, FatOf, DataOf;
      SetCopy(0, c, value);
      ghost var v1 := V();
      if g.numFats >= 2 {
        SetCopy(1, c, value);
      } else {
        SameSelf(v1);
      }
      TablesSet(v, v1, V(), g, c, value);
    }

    /** The bytes of a data cluster. */
    method ClusterRead(c: nat) returns (bytes: seq<nat>)
      requires Valid() && 2 <= c < g.total + 2
      modifies cache, cache.entries
      ensures Valid() && Fat() == old(Fat()) && Data() == old(Data()) && bytes == Data()[c - 2]
    {
      ghost var v := V();
      var buf := ReadSectors(ClusterSector(g, c - 2), g.spc);
      SameSectorsSame(v, V(), g);
      bytes := Flat(buf);
    }

    /** Rewrites a data cluster. */
    method ClusterWrite(c: nat, bytes: seq<nat>)
      requires Valid() && 2 <= c < g.total + 2 && |bytes| == g.spc * g.bps && Bytes(bytes)
      modifies cache, cache.entries
      ensures Valid() && Fat() == old(Fat()) && Data() == old(Data())[c - 2 := bytes]
    {
      hide TablesAgree, SectorsOk, Changed, Chop, FatOf, DataOf, Bytes;
      ghost var v := V();
      ChopBytes(bytes, g.bps, g.spc);
      WriteSectors(ClusterSector(g, c - 2), Chop(bytes, g.bps, g.spc));
      WordsStay(v, V(), g, c - 2, bytes);
    }
  }

  lemma SameSelf(v: Sectors)
    ensures SameSectors(v, v)
  {
  }

  lemma SameThenChanged(v: Sectors, v1: Sectors, v2: Sectors, lba: nat, src: seq<Sector>)
    requires SameSectors(v, v1) && Changed(v1, v2, lba, src)
    ensures Changed(v, v2, lba, src)
  {
    forall l: nat ensures v2(l) == if lba <= l < lba + |src| then src[l - lba] else v(l) {
      assert v1(l) == v(l);
    }
  }

  lemma SeenSame(es: seq<BC.Entry>, disks: seq<BC.Disk>, es': seq<BC.Entry>, disks': seq<BC.Disk>, dev: nat, start: nat)
    requires BC.SameView(es, disks, es', disks') && dev < |disks|
    ensures SameSectors(Seen(es, disks, dev, start), Seen(es', disks', dev, start))
    ensures |disks'| == |disks| && disks'[dev].readable == disks[dev].readable
  {
    var v, v' := Seen(es, disks, dev, start), Seen(es', disks', dev, start);
    forall l: nat ensures v'(l) == v(l) {
      assert BC.View(es', disks', dev, start + l) == BC.View(es, disks, dev, start + l);
    }
  }

  lemma SeenBlock(es: seq<BC.Entry>, disks: seq<BC.Disk>, dev: nat, start: nat, lba: nat, buf: seq<Sector>)
    requires dev < |disks| && disks[dev].spp > 0 && BC.Shows(es, disks, dev, start + lba, buf)
    ensures buf == Block(Seen(es, disks, dev, start), lba, |buf|)
  {
    var v := Seen(es, disks, dev, start);
    forall i | 0 <= i < |buf| ensures buf[i] == v(lba + i) {
      assert buf[i] == BC.View(es, disks, dev, start + lba + i);
      assert start + lba + i == start + (lba + i);
    }
  }

  lemma SeenWrote(es: seq<BC.Entry>, disks: seq<BC.Disk>, es': seq<BC.Entry>, disks': seq<BC.Disk>, dev: nat,
                  start: nat, lba: nat, src: seq<Sector>)
    requires dev < |disks| && BC.Wrote(es, disks, es', disks', dev, start + lba, src)
    ensures Changed(Seen(es, disks, dev, start), Seen(es', disks', dev, start), lba, src)
  {
    var v, v' := Seen(es, disks, dev, start), Seen(es', disks', dev, start);
    forall l: nat ensures v'(l) == if lba <= l < lba + |src| then src[l - lba] else v(l) {
      assert BC.View(es', disks', dev, start + l) ==
             if start + lba <= start + l < start + lba + |src| then src[start + l - (start + lba)]
             else BC.View(es, disks, dev, start + l);
    }
  }
}
