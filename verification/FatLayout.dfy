/** How a FAT32 volume lies in its sectors: the allocation tables, then the data clusters (src/fs/fat32.c). */
module FatLayout {
  import opened Bits

  type Sector = seq<nat>
  type Sectors = nat -> Sector

  const MASK := 0x1000_0000
  const EOC := 0x0FFF_FFF8

  datatype Geometry = Geometry(bps: nat, spc: nat, reserved: nat, numFats: nat, fatSize: nat, total: nat)

  /** Sectors hold whole table words and directory entries, and each table has a word for every cluster. */
  ghost predicate GeometryOk(g: Geometry) {
    g.bps > 0 && g.bps % 32 == 0 && g.spc > 0 && g.numFats >= 1 && g.total + 2 <= g.fatSize * (g.bps / 4)
    && g.total + 2 < EOC
  }

  ghost predicate SectorsOk(v: Sectors, g: Geometry) {
    forall l: nat :: |v(l)| == g.bps && Bytes(v(l))
  }

  function DataStart(g: Geometry): nat { g.reserved + g.numFats * g.fatSize }

  // ---- Table words ----

  function Word(s: Sector, o: nat): nat
    requires o + 4 <= |s|
  {
    s[o] + 256 * s[o + 1] + 65536 * s[o + 2] + 16777216 * s[o + 3]
  }

  function WordBytes(w: nat): (r: seq<nat>)
    ensures |r| == 4 && Bytes(r)
  {
    [w % 256, w / 256 % 256, w / 65536 % 256, w / 16777216 % 256]
  }

  function PutWord(s: Sector, o: nat, w: nat): (r: Sector)
    requires o + 4 <= |s|
    ensures |r| == |s|
  {
    s[..o] + WordBytes(w) + s[o + 4..]
  }

  lemma WordOfPut(s: Sector, o: nat, w: nat, at: nat)
    requires o + 4 <= |s| && at + 4 <= |s| && w < 0x1_0000_0000
    ensures Word(PutWord(s, o, w), o) == w
    ensures at + 4 <= o || o + 4 <= at ==> Word(PutWord(s, o, w), at) == Word(s, at)
    ensures Bytes(s) ==> Bytes(PutWord(s, o, w))
  {
    var r, b := PutWord(s, o, w), WordBytes(w);
    assert r[o] == b[0] && r[o + 1] == b[1] && r[o + 2] == b[2] && r[o + 3] == b[3];
    BytesOfWord(w);
    hide WordBytes;
  }

  lemma BytesOfWord(w: nat)
    requires w < 0x1_0000_0000
    ensures Word(WordBytes(w), 0) == w
  {
    var x, y, z := w / 256, w / 65536, w / 16777216;
    assert x / 256 == y && y / 256 == z;
    assert w == w % 256 + 256 * x && x == x % 256 + 256 * y && y == y % 256 + 256 * z;
  }

  /** The new word: the top four bits are kept. */
  function Merge(w: nat, value: nat): nat { w / MASK * MASK + value % MASK }

  lemma MergeIs(w: nat, value: nat)
    requires w < 0x1_0000_0000
    ensures Merge(w, value) < 0x1_0000_0000 && Merge(w, value) % MASK == value % MASK
    ensures Merge(w, value) / 0x1000_0000 == w / 0x1000_0000 && Merge(w, value) % 0x1000_0000 == value % 0x1000_0000
  {
  }

  function FatRow(g: Geometry, c: nat): nat
    requires g.bps > 0
  {
    c * 4 / g.bps
  }

  function FatSector(g: Geometry, copy: nat, c: nat): nat
    requires g.bps > 0
  {
    g.reserved + FatRow(g, c) + copy * g.fatSize
  }

  function FatOffset(g: Geometry, c: nat): nat
    requires g.bps > 0
  {
    c * 4 % g.bps
  }

  ghost predicate InTable(g: Geometry, c: nat) { c < g.fatSize * (g.bps / 4) }

  /** Where a cluster's word lies in a table. */
  lemma WordPlace(g: Geometry, c: nat)
    requires GeometryOk(g) && InTable(g, c)
    ensures FatRow(g, c) < g.fatSize
    ensures FatOffset(g, c) % 4 == 0 && FatOffset(g, c) + 4 <= g.bps
    ensures FatOffset(g, c) == 4 * (c % (g.bps / 4)) && FatRow(g, c) == c / (g.bps / 4)
  {
    assert g.bps == 4 * (g.bps / 4);
    Quarter(c, g.bps / 4, g.fatSize);
  }

  lemma Quarter(c: nat, e: nat, f: nat)
    requires e > 0 && c < f * e
    ensures c * 4 / (4 * e) == c / e < f && c * 4 % (4 * e) == 4 * (c % e) && c % e < e
  {
    var q, r := c / e, c % e;
    assert c == q * e + r;
    assert q * (4 * e) == 4 * (q * e);
    DivIs(c * 4, 4 * e, q, 4 * r);
    if q >= f { MulMono(f, q, e); }
  }

  lemma SameCopy(a: nat, b: nat, copy: nat, other: nat, f: nat)
    requires a < f && b < f && a + copy * f == b + other * f
    ensures copy == other && a == b
  {
    if other < copy { MulLess(other, copy, f); }
    if copy < other { MulLess(copy, other, f); }
  }

  /** Different clusters' words are in different sectors or at different places. */
  lemma WordsApart(g: Geometry, c: nat, x: nat)
    requires GeometryOk(g) && InTable(g, c) && InTable(g, x) && c != x && FatRow(g, c) == FatRow(g, x)
    ensures FatOffset(g, c) + 4 <= FatOffset(g, x) || FatOffset(g, x) + 4 <= FatOffset(g, c)
  {
    WordPlace(g, c);
    WordPlace(g, x);
    hide FatOffset, FatRow;
    RemaindersDiffer(c, x, g.bps / 4);
  }

  lemma RemaindersDiffer(c: nat, x: nat, e: nat)
    requires e > 0 && c / e == x / e && c != x
    ensures c % e != x % e
  {
    assert c == c / e * e + c % e && x == x / e * e + x % e;
  }

  ghost function FatWord(v: Sectors, g: Geometry, copy: nat, c: nat): nat
    requires GeometryOk(g) && SectorsOk(v, g) && InTable(g, c)
  {
    WordPlace(g, c);
    Word(v(FatSector(g, copy, c)), FatOffset(g, c))
  }

  ghost predicate TablesAgree(v: Sectors, g: Geometry)
    requires GeometryOk(g) && SectorsOk(v, g)
  {
    g.numFats >= 2 ==>
      forall c {:trigger FatWord(v, g, 1, c)} :: 0 <= c && InTable(g, c) ==> FatWord(v, g, 0, c) == FatWord(v, g, 1, c)
  }

  // ---- Clusters ----

  function ClusterSector(g: Geometry, k: nat): nat { DataStart(g) + k * g.spc }

  /** Sectors end to end. */
  function Flat(s: seq<Sector>): seq<nat> {
    if s == [] then [] else Flat(s[..|s| - 1]) + s[|s| - 1]
  }

  ghost function Block(v: Sectors, at: nat, n: nat): (r: seq<Sector>)
    ensures |r| == n
  {
    seq(n, i requires 0 <= i < n => v(at + i))
  }

  ghost function ClusterBytes(v: Sectors, g: Geometry, k: nat): seq<nat> { Flat(Block(v, ClusterSector(g, k), g.spc)) }

  lemma {:induction false} FlatLength(s: seq<Sector>, n: nat)
    requires forall i :: 0 <= i < |s| ==> |s[i]| == n
    ensures |Flat(s)| == |s| * n
  {
    if s != [] {
      FlatLength(s[..|s| - 1], n);
      Distribute(|s| - 1, 1, n);
    }
  }

  /** Bytes cut into sectors. */
  function Chop(b: seq<nat>, n: nat, k: nat): (r: seq<Sector>)
    requires |b| == k * n
    ensures |r| == k && forall i :: 0 <= i < k ==> |r[i]| == n
    decreases k
  {
    if k == 0 then [] else
      Distribute(k - 1, 1, n);
      MulMono(0, k - 1, n);
      Chop(b[..(k - 1) * n], n, k - 1) + [b[(k - 1) * n..]]
  }

  lemma {:induction false} FlatChop(b: seq<nat>, n: nat, k: nat)
    requires |b| == k * n
    ensures Flat(Chop(b, n, k)) == b
    decreases k
  {
    if k > 0 {
      Distribute(k - 1, 1, n);
      MulMono(0, k - 1, n);
      FlatChop(b[..(k - 1) * n], n, k - 1);
      var r := Chop(b, n, k);
      assert r[..k - 1] == Chop(b[..(k - 1) * n], n, k - 1);
      assert b == b[..(k - 1) * n] + b[(k - 1) * n..];
    }
  }

  lemma {:induction false} ChopBytes(b: seq<nat>, n: nat, k: nat)
    requires |b| == k * n && Bytes(b)
    ensures forall i :: 0 <= i < k ==> Bytes(Chop(b, n, k)[i])
    decreases k
  {
    if k > 0 {
      Distribute(k - 1, 1, n);
      MulMono(0, k - 1, n);
      ChopBytes(b[..(k - 1) * n], n, k - 1);
    }
  }

  // ---- What one write changes ----

  /** The sectors from `lba` on are replaced by `src`. */
  ghost predicate Changed(v: Sectors, v': Sectors, lba: nat, src: seq<Sector>) {
    forall l: nat {:trigger v'(l)} :: v'(l) == if lba <= l < lba + |src| then src[l - lba] else v(l)
  }

  lemma ChangedOk(v: Sectors, v': Sectors, g: Geometry, lba: nat, src: seq<Sector>)
    requires SectorsOk(v, g) && Changed(v, v', lba, src)
    requires forall i :: 0 <= i < |src| ==> |src[i]| == g.bps && Bytes(src[i])
    ensures SectorsOk(v', g)
  {
  }

  /** Table sectors come before data sectors. */
  lemma TablesFirst(g: Geometry, copy: nat, c: nat, k: nat)
    requires GeometryOk(g) && InTable(g, c) && copy < g.numFats
    ensures FatSector(g, copy, c) < DataStart(g) <= ClusterSector(g, k)
  {
    WordPlace(g, c);
    MulLess(copy, g.numFats, g.fatSize);
    MulMono(0, k, g.spc);
  }

  lemma ClustersApart(g: Geometry, k: nat, j: nat)
    requires k < j
    ensures ClusterSector(g, k) + g.spc <= ClusterSector(g, j)
  {
    MulLess(k, j, g.spc);
  }

  /** The tables begin after the reserved sectors and follow each other, the words of a table follow each other, and
      the clusters follow each other from the end of the last table on. */
  lemma InOrder(g: Geometry, copy: nat, c: nat, k: nat)
    requires g.bps > 0 && g.numFats >= 1
    ensures FatSector(g, 0, 0) == g.reserved && FatOffset(g, 0) == 0
    ensures FatSector(g, copy + 1, 0) == FatSector(g, copy, 0) + g.fatSize
    ensures FatSector(g, copy, c) * g.bps + FatOffset(g, c) == FatSector(g, copy, 0) * g.bps + 4 * c
    ensures ClusterSector(g, 0) == FatSector(g, g.numFats - 1, 0) + g.fatSize
    ensures ClusterSector(g, k + 1) == ClusterSector(g, k) + g.spc
  {
    DivIs(0, g.bps, 0, 0);
    Distribute(copy, 1, g.fatSize);
    Distribute(g.numFats - 1, 1, g.fatSize);
    Distribute(k, 1, g.spc);
    Distribute(FatSector(g, copy, 0), FatRow(g, c), g.bps);
    assert c * 4 == FatRow(g, c) * g.bps + FatOffset(g, c);
  }

  /** Sector `l` is a row of a table copy. */
  ghost predicate IsRow(g: Geometry, copy: nat, row: nat, l: nat)
    requires g.bps >= 4
  {
    copy < g.numFats && row < g.fatSize && l == FatSector(g, copy, row * (g.bps / 4))
  }

  /** Sector `l` is a sector of a cluster. */
  ghost predicate IsPart(g: Geometry, k: nat, i: nat, l: nat) {
    k < g.total && i < g.spc && l == ClusterSector(g, k) + i
  }

  /** Rows are numbered from the start of their table. */
  lemma RowSector(g: Geometry, copy: nat, row: nat)
    requires GeometryOk(g)
    ensures FatSector(g, copy, row * (g.bps / 4)) == g.reserved + row + copy * g.fatSize
  {
    assert g.bps == 4 * (g.bps / 4);
    assert row * (g.bps / 4) * 4 == row * g.bps;
    DivIs(row * (g.bps / 4) * 4, g.bps, row, 0);
  }

  /** Every sector behind the reserved ones, up to the end of the last cluster, is a row of one table copy or a sector
      of one cluster, and of one only. */
  lemma SectorsTiled(g: Geometry, l: nat)
    requires GeometryOk(g) && g.reserved <= l < ClusterSector(g, g.total)
    ensures (exists copy: nat, row: nat :: IsRow(g, copy, row, l)) != (exists k: nat, i: nat :: IsPart(g, k, i, l))
    ensures forall copy: nat, row: nat, copy': nat, row': nat ::
      IsRow(g, copy, row, l) && IsRow(g, copy', row', l) ==> copy == copy' && row == row'
    ensures forall k: nat, i: nat, k': nat, i': nat ::
      IsPart(g, k, i, l) && IsPart(g, k', i', l) ==> k == k' && i == i'
  {
    hide FatSector;
    forall copy: nat, row: nat | IsRow(g, copy, row, l) ensures l < DataStart(g) {
      RowSector(g, copy, row);
      MulLess(copy, g.numFats, g.fatSize);
    }
    forall k: nat, i: nat | IsPart(g, k, i, l) ensures l >= DataStart(g) { MulMono(0, k, g.spc); }
    forall copy: nat, row: nat, copy': nat, row': nat | IsRow(g, copy, row, l) && IsRow(g, copy', row', l)
      ensures copy == copy' && row == row'
    {
      RowSector(g, copy, row);
      RowSector(g, copy', row');
      SameCopy(row, row', copy, copy', g.fatSize);
    }
    forall k: nat, i: nat, k': nat, i': nat | IsPart(g, k, i, l) && IsPart(g, k', i', l)
      ensures k == k' && i == i'
    {
      SameCopy(i, i', k, k', g.spc);
    }
    if l < DataStart(g) { RowFound(g, l); } else { PartFound(g, l); }
  }

  lemma RowFound(g: Geometry, l: nat)
    requires GeometryOk(g) && g.reserved <= l < DataStart(g)
    ensures exists copy: nat, row: nat :: IsRow(g, copy, row, l)
  {
    var n := l - g.reserved;
    var copy, row := n / g.fatSize, n % g.fatSize;
    assert n == copy * g.fatSize + row;
    if copy >= g.numFats { MulMono(g.numFats, copy, g.fatSize); }
    RowSector(g, copy, row);
    assert IsRow(g, copy, row, l);
  }

  lemma PartFound(g: Geometry, l: nat)
    requires GeometryOk(g) && DataStart(g) <= l < ClusterSector(g, g.total)
    ensures exists k: nat, i: nat :: IsPart(g, k, i, l)
  {
    var n := l - DataStart(g);
    var k, i := n / g.spc, n % g.spc;
    assert n == k * g.spc + i;
    if k >= g.total { MulMono(g.total, k, g.spc); }
    assert IsPart(g, k, i, l);
  }

  /** Rewriting one word of one table copy. */
  lemma WordChanged(v: Sectors, v': Sectors, g: Geometry, copy: nat, c: nat, w: nat)
    requires GeometryOk(g) && SectorsOk(v, g) && InTable(g, c) && copy < g.numFats && w < 0x1_0000_0000
    requires FatOffset(g, c) + 4 <= g.bps
    requires Changed(v, v', FatSector(g, copy, c), [PutWord(v(FatSector(g, copy, c)), FatOffset(g, c), w)])
    ensures SectorsOk(v', g)
    ensures forall x, other {:trigger FatWord(v', g, other, x)} :: 0 <= x && InTable(g, x) && 0 <= other < g.numFats ==>
      FatWord(v', g, other, x) == if x == c && other == copy then w else FatWord(v, g, other, x)
    ensures forall k: nat {:trigger ClusterBytes(v', g, k)} :: ClusterBytes(v', g, k) == ClusterBytes(v, g, k)
  {
    var s, o := FatSector(g, copy, c), FatOffset(g, c);
    WordPlace(g, c);
    WordOfPut(v(s), o, w, o);
    ChangedOk(v, v', g, s, [PutWord(v(s), o, w)]);
    forall x, other | 0 <= x && InTable(g, x) && 0 <= other < g.numFats
      ensures FatWord(v', g, other, x) == if x == c && other == copy then w else FatWord(v, g, other, x)
    {
      OneWord(v, v', g, copy, c, w, x, other);
    }
    forall k: nat ensures ClusterBytes(v', g, k) == ClusterBytes(v, g, k) {
      TablesFirst(g, copy, c, k);
      assert Block(v', ClusterSector(g, k), g.spc) == Block(v, ClusterSector(g, k), g.spc);
    }
  }

  lemma OneWord(v: Sectors, v': Sectors, g: Geometry, copy: nat, c: nat, w: nat, x: nat, other: nat)
    requires GeometryOk(g) && SectorsOk(v, g) && SectorsOk(v', g) && InTable(g, c) && InTable(g, x)
    requires copy < g.numFats && other < g.numFats && w < 0x1_0000_0000 && FatOffset(g, c) + 4 <= g.bps
    requires Changed(v, v', FatSector(g, copy, c), [PutWord(v(FatSector(g, copy, c)), FatOffset(g, c), w)])
    ensures FatWord(v', g, other, x) == if x == c && other == copy then w else FatWord(v, g, other, x)
  {
    hide FatRow, FatOffset, Word, PutWord;
    var s, t, o := FatSector(g, copy, c), FatSector(g, other, x), FatOffset(g, c);
    WordPlace(g, c);
    WordPlace(g, x);
    if t == s {
      SameCopy(FatRow(g, c), FatRow(g, x), copy, other, g.fatSize);
      if x != c { WordsApart(g, c, x); }
      WordOfPut(v(s), o, w, FatOffset(g, x));
    }
  }

  /** Rewriting one cluster. */
  lemma ClusterChanged(v: Sectors, v': Sectors, g: Geometry, k: nat, b: seq<nat>)
    requires GeometryOk(g) && SectorsOk(v, g) && |b| == g.spc * g.bps && Bytes(b)
    requires Changed(v, v', ClusterSector(g, k), Chop(b, g.bps, g.spc))
    ensures SectorsOk(v', g)
    ensures forall x, copy {:trigger FatWord(v', g, copy, x)} :: 0 <= x && InTable(g, x) && 0 <= copy < g.numFats ==>
      FatWord(v', g, copy, x) == FatWord(v, g, copy, x)
    ensures forall j: nat {:trigger ClusterBytes(v', g, j)} ::
      ClusterBytes(v', g, j) == if j == k then b else ClusterBytes(v, g, j)
  {
    var src := Chop(b, g.bps, g.spc);
    ChopBytes(b, g.bps, g.spc);
    ChangedOk(v, v', g, ClusterSector(g, k), src);
    forall x, copy | 0 <= x && InTable(g, x) && 0 <= copy < g.numFats
      ensures FatWord(v', g, copy, x) == FatWord(v, g, copy, x)
    {
      TablesFirst(g, copy, x, k);
    }
    forall j: nat ensures ClusterBytes(v', g, j) == if j == k then b else ClusterBytes(v, g, j) {
      if j == k {
        assert Block(v', ClusterSector(g, k), g.spc) == src;
        FlatChop(b, g.bps, g.spc);
      } else {
        if j < k { ClustersApart(g, j, k); } else { ClustersApart(g, k, j); }
        assert Block(v', ClusterSector(g, j), g.spc) == Block(v, ClusterSector(g, j), g.spc);
      }
    }
  }
}
