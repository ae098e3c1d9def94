/** Directory entries in the clusters of a directory's chain (src/fs/fat32.c). */
module FatDirectory {
  import opened Bits
  import opened FatLayout
  import opened FatNames

  const ENTRY := 32
  const DELETED := 0xE5
  const ATTR_LFN := 0x0F
  const ATTR_ARCHIVE := 0x20

  // ---- One entry ----

  ghost predicate IsSlot(s: seq<nat>) { |s| == ENTRY && Bytes(s) }

  function Name(s: seq<nat>): (r: seq<nat>)
    requires |s| == ENTRY
    ensures |r| == 11
  {
    s[..11]
  }

  predicate IsDirectory(s: seq<nat>)
    requires |s| == ENTRY
  {
    s[11] / 16 % 2 == 1
  }

  function FirstCluster(s: seq<nat>): nat
    requires |s| == ENTRY
  {
    (s[20] + 256 * s[21]) * 65536 + (s[26] + 256 * s[27])
  }

  function FileSize(s: seq<nat>): nat
    requires |s| == ENTRY
  {
    Word(s, 28)
  }

  /** The entry with its first cluster and size replaced. */
  function Redirected(s: seq<nat>, first: nat, size: nat): (r: seq<nat>)
    requires |s| == ENTRY
    ensures |r| == ENTRY
  {
    s[..20] + [first / 65536 % 256, first / 16777216 % 256] + s[22..26]
    + [first % 256, first / 256 % 256] + WordBytes(size)
  }

  lemma RedirectedIs(s: seq<nat>, first: nat, size: nat)
    requires IsSlot(s) && first < 0x1_0000_0000
    ensures IsSlot(Redirected(s, first, size))
    ensures FirstCluster(Redirected(s, first, size)) == first
    ensures FileSize(Redirected(s, first, size)) == size % 0x1_0000_0000
    ensures Redirected(s, first, size)[..20] == s[..20]
  {
    SplitWord(first);
    SplitWord(size % 0x1_0000_0000);
    WordLow(size);
  }

  lemma SplitWord(w: nat)
    requires w < 0x1_0000_0000
    ensures (w / 65536 % 256 + 256 * (w / 16777216 % 256)) * 65536 + (w % 256 + 256 * (w / 256 % 256)) == w
  {
    var b := w / 256;
    var c := b / 256;
    var d := c / 256;
    DivIs(w, 65536, c, 256 * (b % 256) + w % 256);
    DivIs(w, 16777216, d, 65536 * (c % 256) + 256 * (b % 256) + w % 256);
    DivIs(d, 256, 0, d);
  }

  lemma WordLow(w: nat)
    ensures WordBytes(w) == WordBytes(w % 0x1_0000_0000)
  {
    var q, m := w / 0x1_0000_0000, w % 0x1_0000_0000;
    LowByte(w, 1, q * 16777216, m, 0);
    LowByte(w, 256, q * 65536, m / 256, m % 256);
    LowByte(w, 65536, q * 256, m / 65536, m % 65536);
    LowByte(w, 16777216, q, m / 16777216, m % 16777216);
  }

  lemma LowByte(w: nat, d: nat, p: nat, u: nat, r: nat)
    requires r < d && w == p * 256 * d + (u * d + r)
    ensures w / d % 256 == u % 256
  {
    Distribute(p * 256, u, d);
    DivIs(w, d, p * 256 + u, r);
  }

  /** A new entry for a plain file in a slot that is free. */
  function NewEntry(s: seq<nat>, name83: seq<nat>, first: nat, size: nat): (r: seq<nat>)
    requires |s| == ENTRY && |name83| == 11
    ensures |r| == ENTRY
  {
    Redirected(name83 + [ATTR_ARCHIVE] + s[12..], first, size)
  }

  // ---- The record on disk ----

  /** fat32_dirent_t. */
  datatype Dirent = Dirent(name: seq<nat>, attr: nat, ntRes: nat, tenth: nat, createTime: nat, createDate: nat,
                           accessDate: nat, clusterHi: nat, writeTime: nat, writeDate: nat, clusterLo: nat, size: nat)

  /** A number in `n` bytes, the lowest first. */
  function LowFirst(v: nat, n: nat): (r: seq<nat>)
    ensures |r| == n && Bytes(r)
    decreases n
  {
    if n == 0 then [] else [v % 256] + LowFirst(v / 256, n - 1)
  }

  /** The fields one after the other, without gaps. */
  function Packed(d: Dirent): (r: seq<nat>)
    requires |d.name| == 11
    ensures |r| == ENTRY
  {
    d.name + [d.attr, d.ntRes, d.tenth] + LowFirst(d.createTime, 2) + LowFirst(d.createDate, 2)
    + LowFirst(d.accessDate, 2) + LowFirst(d.clusterHi, 2) + LowFirst(d.writeTime, 2) + LowFirst(d.writeDate, 2)
    + LowFirst(d.clusterLo, 2) + LowFirst(d.size, 4)
  }

  ghost predicate FieldsFit(d: Dirent) {
    && |d.name| == 11 && d.attr < 256 && d.clusterHi < 65536 && d.clusterLo < 65536 && d.size < 0x1_0000_0000
  }

  lemma LowFirstIs(v: nat)
    ensures LowFirst(v, 2) == [v % 256, v / 256 % 256] && LowFirst(v, 4) == WordBytes(v)
  {
    assert LowFirst(v / 256, 1) == [v / 256 % 256];
    var x, y, z := v / 256, v / 65536, v / 16777216;
    assert x / 256 == y && y / 256 == z;
    assert LowFirst(z, 1) == [z % 256];
    assert LowFirst(y, 2) == [y % 256] + LowFirst(z, 1);
    assert LowFirst(x, 3) == [x % 256] + LowFirst(y, 2);
    assert LowFirst(v, 4) == [v % 256] + LowFirst(x, 3);
  }

  /** Where the last field starts, and the one before it. */
  lemma PackedAt(d: Dirent)
    requires |d.name| == 11
    ensures Packed(d)[..11] == d.name && Packed(d)[11] == d.attr
    ensures Packed(d)[20..22] == LowFirst(d.clusterHi, 2) && Packed(d)[26..28] == LowFirst(d.clusterLo, 2)
    ensures Packed(d)[28..] == LowFirst(d.size, 4)
  {
    hide LowFirst;
  }

  lemma HalfWord(p: seq<nat>, o: nat, v: nat)
    requires o + 2 <= |p| && v < 65536 && p[o..o + 2] == LowFirst(v, 2)
    ensures p[o] + 256 * p[o + 1] == v
  {
    LowFirstIs(v);
    hide LowFirst;
    assert p[o] == p[o..o + 2][0] && p[o + 1] == p[o..o + 2][1];
    DivIs(v / 256, 256, 0, v / 256);
  }

  lemma LastWord(p: seq<nat>, v: nat)
    requires |p| == ENTRY && v < 0x1_0000_0000 && p[28..] == LowFirst(v, 4)
    ensures Word(p, 28) == v
  {
    LowFirstIs(v);
    BytesOfWord(v);
    hide LowFirst, WordBytes;
    assert p[28] == p[28..][0] && p[29] == p[28..][1] && p[30] == p[28..][2] && p[31] == p[28..][3];
  }

  /** What the driver reads from an entry are the fields of the record. */
  lemma FieldsRead(d: Dirent)
    requires FieldsFit(d)
    ensures Name(Packed(d)) == d.name && (IsDirectory(Packed(d)) <==> Bit(d.attr, 4))
    ensures FirstCluster(Packed(d)) == d.clusterHi * 65536 + d.clusterLo && FileSize(Packed(d)) == d.size
  {
    PackedAt(d);
    HalfWord(Packed(d), 20, d.clusterHi);
    HalfWord(Packed(d), 26, d.clusterLo);
    LastWord(Packed(d), d.size);
    ShrIsDiv(d.attr, 4);
    Pow2Values();
    hide Packed, LowFirst, Word, Shr, Pow2;
  }

  /** The halves of a cluster number, as they are written. */
  lemma Halves(first: nat)
    requires first < 0x1_0000_0000
    ensures LowFirst(first / 65536, 2) == [first / 65536 % 256, first / 16777216 % 256]
    ensures LowFirst(first % 65536, 2) == [first % 256, first / 256 % 256]
  {
    hide LowFirst;
    LowFirstIs(first / 65536);
    LowFirstIs(first % 65536);
    LowDigits(first / 65536, first % 65536 / 256, first % 65536 % 256);
    DivIs(first % 65536 / 256, 256, 0, first % 65536 / 256);
  }

  lemma LowDigits(h: nat, c: nat, e: nat)
    requires c < 256 && e < 256
    ensures var first := h * 65536 + c * 256 + e;
            first / 16777216 == h / 256 && first % 256 == e && first / 256 % 256 == c
  {
    var a, b := h / 256, h % 256;
    DivIs(h * 65536 + c * 256 + e, 16777216, a, b * 65536 + c * 256 + e);
    DivIs(h * 65536 + c * 256 + e, 256, h * 256 + c, e);
    DivIs(h * 256 + c, 256, h, c);
  }

  /** What it writes are the fields of a record: the two halves of the first cluster and the low 32 bits of the size,
      and for a new file the name and the archive attribute; every other field is as it was. */
  lemma FieldsWritten(d: Dirent, name83: seq<nat>, first: nat, size: nat)
    requires FieldsFit(d) && |name83| == 11 && first < 0x1_0000_0000
    ensures var to := d.(clusterHi := first / 65536, clusterLo := first % 65536, size := size % 0x1_0000_0000);
            && Redirected(Packed(d), first, size) == Packed(to)
            && NewEntry(Packed(d), name83, first, size) == Packed(to.(name := name83, attr := 0x20))
  {
    hide Packed, LowFirst, Redirected;
    RedirectedForm(Packed(d), first, size);
    RewritePacked(d, first / 65536, first % 65536, size % 0x1_0000_0000);
    var e := d.(name := name83, attr := 0x20);
    NamePacked(d, name83);
    RedirectedForm(Packed(e), first, size);
    RewritePacked(e, first / 65536, first % 65536, size % 0x1_0000_0000);
  }

  lemma NamePacked(d: Dirent, name83: seq<nat>)
    requires |d.name| == 11 && |name83| == 11
    ensures Packed(d.(name := name83, attr := 0x20)) == name83 + [0x20] + Packed(d)[12..]
  {
    hide LowFirst;
  }

  lemma RedirectedForm(s: seq<nat>, first: nat, size: nat)
    requires |s| == ENTRY && first < 0x1_0000_0000
    ensures Redirected(s, first, size) == s[..20] + LowFirst(first / 65536, 2) + s[22..26] + LowFirst(first % 65536, 2)
      + LowFirst(size % 0x1_0000_0000, 4)
  {
    Halves(first);
    LowFirstIs(size % 0x1_0000_0000);
    WordLow(size);
    hide LowFirst, WordBytes;
  }

  lemma RewritePacked(d: Dirent, hi: nat, lo: nat, size: nat)
    requires |d.name| == 11
    ensures Packed(d.(clusterHi := hi, clusterLo := lo, size := size)) ==
      Packed(d)[..20] + LowFirst(hi, 2) + Packed(d)[22..26] + LowFirst(lo, 2) + LowFirst(size, 4)
  {
    hide LowFirst;
  }

  /** An entry that names something: used, not part of a long name, and not the directory itself or its parent. */
  predicate Live(s: seq<nat>)
    requires |s| == ENTRY
  {
    s[0] != 0 && s[0] != DELETED && s[11] != ATTR_LFN && s[0] != DOT
  }

  /** The test the directory search makes. */
  predicate Answers(s: seq<nat>, name: seq<nat>)
    requires |s| == ENTRY
  {
    s[0] != DELETED && s[11] != ATTR_LFN && Hit(Name(s), name)
  }

  /** A first byte of 0xE5 marks an entry as deleted, an attribute of 0x0F as part of a long name. */
  lemma Markers(s: seq<nat>, name: seq<nat>)
    requires |s| == 32
    ensures Live(s) <==> s[0] != 0 && s[0] != 0xE5 && s[0] != '.' as nat && s[11] != 0x0F
    ensures Answers(s, name) <==> s[0] != 0xE5 && s[11] != 0x0F && Hit(s[..11], name)
  {
  }

  // ---- The entries of a directory ----

  function SlotsOf(b: seq<nat>): (r: seq<seq<nat>>)
    ensures |r| == |b| / ENTRY
    ensures forall i :: 0 <= i < |r| ==> |r[i]| == ENTRY && r[i] == b[ENTRY * i..ENTRY * i + ENTRY]
  {
    seq(|b| / ENTRY, i requires 0 <= i < |b| / ENTRY => b[ENTRY * i..ENTRY * i + ENTRY])
  }

  function DirSlots(data: seq<seq<nat>>, ch: seq<nat>): (r: seq<seq<nat>>)
    requires forall i :: 0 <= i < |ch| ==> 2 <= ch[i] < |data| + 2
    ensures forall i :: 0 <= i < |r| ==> |r[i]| == ENTRY
  {
    if ch == [] then [] else DirSlots(data, ch[..|ch| - 1]) + SlotsOf(data[ch[|ch| - 1] - 2])
  }

  lemma {:induction false} DirSlotsSame(data: seq<seq<nat>>, data': seq<seq<nat>>, ch: seq<nat>)
    requires |data'| == |data|
    requires forall i :: 0 <= i < |ch| ==> 2 <= ch[i] < |data| + 2 && data'[ch[i] - 2] == data[ch[i] - 2]
    ensures DirSlots(data', ch) == DirSlots(data, ch)
  {
    if ch != [] { DirSlotsSame(data, data', ch[..|ch| - 1]); }
  }

  lemma DirSlotsNext(data: seq<seq<nat>>, ch: seq<nat>, c: nat)
    requires 2 <= c < |data| + 2 && forall i :: 0 <= i < |ch| ==> 2 <= ch[i] < |data| + 2
    ensures DirSlots(data, ch + [c]) == DirSlots(data, ch) + SlotsOf(data[c - 2])
  {
    hide SlotsOf;
    var all := ch + [c];
    assert all[..|all| - 1] == ch && all[|all| - 1] == c;
  }

  lemma {:induction false} DirSlotsPrefix(data: seq<seq<nat>>, ch: seq<nat>, j: nat)
    requires j <= |ch| && forall i :: 0 <= i < |ch| ==> 2 <= ch[i] < |data| + 2
    ensures DirSlots(data, ch[..j]) <= DirSlots(data, ch)
    decreases |ch|
  {
    if j < |ch| {
      DirSlotsPrefix(data, ch[..|ch| - 1], j);
      assert ch[..|ch| - 1][..j] == ch[..j];
    } else {
      assert ch[..j] == ch;
    }
  }

  /** Entry `k` of the directory is entry `i` of its `j`-th cluster. */
  ghost predicate Placed(data: seq<seq<nat>>, ch: seq<nat>, j: nat, i: nat, k: nat)
    requires forall x :: 0 <= x < |ch| ==> 2 <= ch[x] < |data| + 2
  {
    j < |ch| && i < |SlotsOf(data[ch[j] - 2])| && k == |DirSlots(data, ch[..j])| + i
  }

  lemma PlacedSlot(data: seq<seq<nat>>, ch: seq<nat>, j: nat, i: nat, k: nat)
    requires (forall x :: 0 <= x < |ch| ==> 2 <= ch[x] < |data| + 2) && Placed(data, ch, j, i, k)
    ensures k < |DirSlots(data, ch)| && DirSlots(data, ch)[k] == SlotsOf(data[ch[j] - 2])[i]
  {
    DirSlotsPrefix(data, ch, j + 1);
    assert ch[..j + 1] == ch[..j] + [ch[j]];
    DirSlotsNext(data, ch[..j], ch[j]);
  }

  /** A cluster's bytes with one entry replaced. */
  function PutSlot(b: seq<nat>, i: nat, s: seq<nat>): (r: seq<nat>)
    requires ENTRY * i + ENTRY <= |b| && |s| == ENTRY
    ensures |r| == |b|
  {
    b[..ENTRY * i] + s + b[ENTRY * i + ENTRY..]
  }

  lemma PutSlotIs(b: seq<nat>, i: nat, s: seq<nat>)
    requires ENTRY * i + ENTRY <= |b| && |s| == ENTRY
    ensures SlotsOf(PutSlot(b, i, s)) == SlotsOf(b)[i := s]
    ensures Bytes(b) && Bytes(s) ==> Bytes(PutSlot(b, i, s))
  {
    var b' := PutSlot(b, i, s);
    forall x | 0 <= x < |b| / ENTRY ensures SlotsOf(b')[x] == SlotsOf(b)[i := s][x] {
      var lo := ENTRY * x;
      if x == i {
        assert b'[lo..lo + ENTRY] == s;
      } else {
        assert b'[lo..lo + ENTRY] == b[lo..lo + ENTRY];
      }
    }
  }

  /** Replacing an entry in its cluster replaces it in the directory. */
  lemma {:induction false} PutInDirectory(data: seq<seq<nat>>, ch: seq<nat>, j: nat, i: nat, k: nat, s: seq<nat>)
    requires (forall x :: 0 <= x < |ch| ==> 2 <= ch[x] < |data| + 2) && Placed(data, ch, j, i, k)
    requires (forall x, y :: 0 <= x < y < |ch| ==> ch[x] != ch[y]) && |s| == ENTRY
    ensures k < |DirSlots(data, ch)| && ENTRY * i + ENTRY <= |data[ch[j] - 2]|
    ensures DirSlots(data[ch[j] - 2 := PutSlot(data[ch[j] - 2], i, s)], ch) == DirSlots(data, ch)[k := s]
    decreases |ch|
  {
    hide SlotsOf, PutSlot, DirSlots;
    PlacedSlot(data, ch, j, i, k);
    var c, n := ch[j], |ch| - 1;
    SlotFits(data[c - 2], i);
    var data' := data[c - 2 := PutSlot(data[c - 2], i, s)];
    PutSlotIs(data[c - 2], i, s);
    DirSlotsLast(data, ch);
    DirSlotsLast(data', ch);
    var a, b := DirSlots(data, ch[..n]), SlotsOf(data[ch[n] - 2]);
    if j == n {
      DirSlotsSame(data, data', ch[..n]);
      assert a + b[i := s] == (a + b)[k := s];
    } else {
      assert ch[..n][..j] == ch[..j];
      PutInDirectory(data, ch[..n], j, i, k, s);
      PlacedSlot(data, ch[..n], j, i, k);
      assert a[k := s] + b == (a + b)[k := s];
    }
  }

  lemma SlotFits(b: seq<nat>, i: nat)
    requires i < |SlotsOf(b)|
    ensures ENTRY * i + ENTRY <= |b|
  {
  }

  lemma DirSlotsLast(data: seq<seq<nat>>, ch: seq<nat>)
    requires ch != [] && forall i :: 0 <= i < |ch| ==> 2 <= ch[i] < |data| + 2
    ensures DirSlots(data, ch) == DirSlots(data, ch[..|ch| - 1]) + SlotsOf(data[ch[|ch| - 1] - 2])
  {
  }

  // ---- Searching ----

  /** The search passes entry `j`: it is neither the end marker nor an answer. */
  predicate Passes(s: seq<nat>, name: seq<nat>)
    requires |s| == ENTRY
  {
    s[0] != 0 && !Answers(s, name)
  }

  ghost predicate AllSlots(slots: seq<seq<nat>>) { forall i :: 0 <= i < |slots| ==> |slots[i]| == ENTRY }

  /** The search for a name ends at entry `k`. */
  ghost predicate FoundAt(slots: seq<seq<nat>>, name: seq<nat>, k: nat)
    requires AllSlots(slots)
  {
    && k < |slots| && slots[k][0] != 0 && Answers(slots[k], name)
    && forall j :: 0 <= j < k ==> Passes(slots[j], name)
  }

  /** The search ends without an answer, at the end marker or at the end of the directory. */
  ghost predicate Missing(slots: seq<seq<nat>>, name: seq<nat>)
    requires AllSlots(slots)
  {
    exists e :: EndsAt(slots, name, e)
  }

  ghost predicate EndsAt(slots: seq<seq<nat>>, name: seq<nat>, e: int)
    requires AllSlots(slots)
  {
    0 <= e <= |slots| && (e < |slots| ==> slots[e][0] == 0) && forall j :: 0 <= j < e ==> Passes(slots[j], name)
  }

  /** The search has one outcome. */
  lemma SearchOnce(slots: seq<seq<nat>>, name: seq<nat>, k: nat, k': nat)
    requires AllSlots(slots) && FoundAt(slots, name, k)
    ensures !Missing(slots, name)
    ensures FoundAt(slots, name, k') ==> k' == k
  {
    forall e: int ensures !EndsAt(slots, name, e) { NotBoth(slots, name, k, e); }
  }

  lemma NotBoth(slots: seq<seq<nat>>, name: seq<nat>, k: nat, e: int)
    requires AllSlots(slots) && FoundAt(slots, name, k)
    ensures !EndsAt(slots, name, e)
  {
  }

  /** Once there is an end marker, only end markers follow. */
  ghost predicate CleanTail(slots: seq<seq<nat>>)
    requires AllSlots(slots)
  {
    forall i, j :: 0 <= i < j < |slots| && slots[i][0] == 0 ==> slots[j][0] == 0
  }
}
