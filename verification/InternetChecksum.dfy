/** The Internet checksum of src/net/ip.c: little-endian over a buffer, big-endian over a pseudo-header and segment. */
module InternetChecksum {
  import opened Bits

  const WORD := 0x1_0000_0000

  /** The sum of the 16-bit words as a little-endian machine loads them; an odd last byte is a word by itself. */
  function SumLe(d: seq<nat>): nat {
    if d == [] then 0 else if |d| == 1 then d[0] else d[0] + 256 * d[1] + SumLe(d[2..])
  }

  /** The sum of the 16-bit words in network order; an odd last byte is padded with zero. */
  function SumBe(d: seq<nat>): nat {
    if d == [] then 0 else if |d| == 1 then 256 * d[0] else 256 * d[0] + d[1] + SumBe(d[2..])
  }

  /** The sum of the bytes at odd places. */
  function OddBytes(d: seq<nat>): nat {
    if |d| <= 1 then 0 else d[1] + OddBytes(d[2..])
  }

  /** Section 2(B) of RFC 1071: the two sums differ by a byte swap, modulo 65535. */
  lemma {:induction false} SumsSwap(d: seq<nat>)
    ensures 256 * SumLe(d) == SumBe(d) + 65535 * OddBytes(d)
    ensures SumLe(d) == 0 <==> SumBe(d) == 0
  {
    if |d| >= 2 { SumsSwap(d[2..]); }
  }

  lemma {:induction false} SumBound(d: seq<nat>)
    requires Bytes(d)
    ensures SumLe(d) <= (|d| + 1) / 2 * 65535 && SumBe(d) <= (|d| + 1) / 2 * 65535
  {
    if |d| >= 2 {
      SumBound(d[2..]);
      assert (|d| + 1) / 2 == (|d[2..]| + 1) / 2 + 1;
    }
  }

  /** No sum over a datagram overflows 32 bits. */
  lemma SumFits(d: seq<nat>)
    requires Bytes(d) && |d| <= 65547
    ensures SumLe(d) < WORD && SumBe(d) < WORD
  {
    SumBound(d);
    assert (|d| + 1) / 2 <= 32774;
  }

  /** Sums over an even prefix and the rest add up. */
  lemma {:induction false} SumSplit(a: seq<nat>, b: seq<nat>)
    requires |a| % 2 == 0
    ensures SumLe(a + b) == SumLe(a) + SumLe(b) && SumBe(a + b) == SumBe(a) + SumBe(b)
  {
    if a == [] {
      assert a + b == b;
    } else {
      SumSplit(a[2..], b);
      assert (a + b)[2..] == a[2..] + b;
    }
  }

  // ---- Folding ----

  /** The value from 1 to 65535 that a positive sum folds to: carries are added back in. */
  function Fold(s: nat): (r: nat)
    ensures r <= 65535 && (r == 0 <==> s == 0)
  {
    if s == 0 then 0 else (s - 1) % 65535 + 1
  }

  lemma FoldIs(s: nat, x: nat, k: int)
    requires 1 <= x <= 65535 && s == x + 65535 * k && s > 0
    ensures Fold(s) == x
  {
  }

  lemma FoldRest(s: nat)
    ensures s == Fold(s) + 65535 * (if s == 0 then 0 else (s - 1) / 65535)
  {
  }

  /** Adds the carries back in until none is left. */
  method FoldSum(s: nat) returns (r: nat)
    requires s < WORD
    ensures r == Fold(s)
  {
    r := s;
    while r / 65536 != 0
      invariant Fold(r) == Fold(s)
      decreases r
    {
      FoldStep(r);
      r := r % 65536 + r / 65536;
    }
    FoldSmall(r);
  }

  lemma FoldSmall(s: nat)
    requires s < 65536
    ensures Fold(s) == s
  {
  }

  lemma FoldStep(s: nat)
    requires s >= 65536
    ensures Fold(s % 65536 + s / 65536) == Fold(s) && s % 65536 + s / 65536 < s
  {
    var h, l := s / 65536, s % 65536;
    FoldRest(s);
    var m := (s - 1) / 65535;
    assert h + l == Fold(s) + 65535 * (m - h);
    FoldIs(h + l, Fold(s), m - h);
  }

  function Swap16(x: nat): nat { x % 256 * 256 + x / 256 }

  lemma Swap16Is(x: nat)
    requires x <= 65535
    ensures 256 * x == Swap16(x) + 65535 * (x / 256) && Swap16(x) <= 65535 && (x > 0 ==> Swap16(x) > 0)
    ensures Swap16(Swap16(x)) == x && Swap16(65535 - x) == 65535 - Swap16(x)
  {
    var h, l := x / 256, x % 256;
    assert x == 256 * h + l && h < 256 && l < 256;
    DivIs(Swap16(x), 256, l, h);
    DivIs(65535 - x, 256, 255 - h, 255 - l);
  }

  /** Folding the two sums gives byte-swapped results. */
  lemma FoldsSwap(d: seq<nat>)
    ensures Fold(SumBe(d)) == Swap16(Fold(SumLe(d)))
  {
    var le, be := SumLe(d), SumBe(d);
    SumsSwap(d);
    if le > 0 {
      var f := Fold(le);
      FoldRest(le);
      Swap16Is(f);
      var m := (le - 1) / 65535;
      FoldIs(be, Swap16(f), f / 256 + 256 * m - OddBytes(d));
    }
  }

  lemma ComplementSwaps(d: seq<nat>)
    ensures Swap16(65535 - Fold(SumBe(d))) == 65535 - Fold(SumLe(d))
  {
    FoldsSwap(d);
    Swap16Is(Fold(SumLe(d)));
    Swap16Is(Fold(SumBe(d)));
  }

  // ---- The two checksums ----

  /** net_checksum: the complement of the folded little-endian sum. */
  method NetChecksum(data: seq<nat>) returns (r: nat)
    requires Bytes(data) && |data| <= 65547
    ensures r == 65535 - Fold(SumLe(data))
  {
    var sum, i := 0, 0;
    SumFits(data);
    assert data[0..] == data;
    while |data| - i > 1
      invariant 0 <= i <= |data| && 0 <= sum && sum + SumLe(data[i..]) == SumLe(data)
    {
      assert data[i..][2..] == data[i + 2..];
      sum := (sum + data[i] + 256 * data[i + 1]) % WORD;
      i := i + 2;
    }
    if |data| - i == 1 {
      sum := (sum + data[i]) % WORD;
    }
    sum := FoldSum(sum);
    return 65535 - sum;
  }

  /** checksum_add_be_bytes */
  method AddBeBytes(sum: nat, data: seq<nat>) returns (r: nat)
    requires Bytes(data) && sum + SumBe(data) < WORD
    ensures r == sum + SumBe(data)
  {
    r := sum;
    var i := 0;
    assert data[0..] == data;
    while |data| - i > 1
      invariant 0 <= i <= |data| && r + SumBe(data[i..]) == sum + SumBe(data)
    {
      assert data[i..][2..] == data[i + 2..];
      r := (r + 256 * data[i] + data[i + 1]) % WORD;
      i := i + 2;
    }
    if |data| - i == 1 {
      r := (r + 256 * data[i]) % WORD;
    }
  }

  /** Source, destination, zero, protocol and length, in network order. */
  function PseudoHeader(src: nat, dst: nat, proto: nat, len: nat): (r: seq<nat>)
    ensures |r| == 12
  {
    [src / 16777216 % 256, src / 65536 % 256, src / 256 % 256, src % 256,
     dst / 16777216 % 256, dst / 65536 % 256, dst / 256 % 256, dst % 256,
     0, proto % 256, len / 256 % 256, len % 256]
  }

  /** A number in `n` bytes, the highest first. */
  function HighFirst(v: nat, n: nat): (r: seq<nat>)
    ensures |r| == n
    decreases n
  {
    if n == 0 then [] else HighFirst(v / 256, n - 1) + [v % 256]
  }

  lemma HighFirstIs(v: nat)
    ensures HighFirst(v, 2) == [v / 256 % 256, v % 256]
    ensures HighFirst(v, 4) == [v / 16777216 % 256, v / 65536 % 256, v / 256 % 256, v % 256]
  {
    assert HighFirst(v / 256, 1) == [v / 256 % 256];
    var x, y, z := v / 256, v / 65536, v / 16777216;
    assert x / 256 == y && y / 256 == z;
    assert HighFirst(z, 1) == [z % 256];
    assert HighFirst(y, 2) == HighFirst(z, 1) + [y % 256];
    assert HighFirst(x, 3) == HighFirst(y, 2) + [x % 256];
  }

  /** The pseudo-header of section 3.1 of RFC 793: both addresses, a zero byte, the protocol, and the length. */
  lemma PseudoHeaderIs(src: nat, dst: nat, proto: nat, len: nat)
    ensures PseudoHeader(src, dst, proto, len) ==
      HighFirst(src, 4) + HighFirst(dst, 4) + [0, proto % 256] + HighFirst(len, 2)
  {
    HighFirstIs(src);
    HighFirstIs(dst);
    HighFirstIs(len);
    hide HighFirst;
  }

  /** transport_checksum, computed big-endian, is net_checksum of the pseudo-header and segment. */
  method TransportChecksum(src: nat, dst: nat, proto: nat, segment: seq<nat>) returns (r: nat)
    requires Bytes(segment) && |segment| <= 65535
    ensures r == 65535 - Fold(SumLe(
      HighFirst(src, 4) + HighFirst(dst, 4) + [0, proto % 256] + HighFirst(|segment|, 2) + segment))
  {
    PseudoHeaderIs(src, dst, proto, |segment|);
    hide PseudoHeader, HighFirst, SumLe, SumBe, Fold, Swap16, Bytes;
    var pseudo := PseudoHeader(src, dst, proto, |segment|);
    ghost var all := pseudo + segment;
    PseudoBytes(src, dst, proto, |segment|, segment);
    SumSplit(pseudo, segment);
    SumFits(all);
    var sum := AddBeBytes(0, pseudo);
    sum := AddBeBytes(sum, segment);
    sum := FoldSum(sum);
    ComplementSwaps(all);
    return Swap16(65535 - sum);
  }

  lemma PseudoBytes(src: nat, dst: nat, proto: nat, len: nat, rest: seq<nat>)
    requires Bytes(rest)
    ensures Bytes(PseudoHeader(src, dst, proto, len)) && Bytes(PseudoHeader(src, dst, proto, len) + rest)
  {
  }

  // ---- Verifying ----

  /** A 16-bit value stored little-endian at an even place of a buffer. */
  function Stored(d: seq<nat>, at: nat, v: nat): seq<nat>
    requires at + 2 <= |d|
  {
    d[..at] + [v % 256, v / 256] + d[at + 2..]
  }

  lemma StoredSum(d: seq<nat>, at: nat, v: nat)
    requires at % 2 == 0 && at + 2 <= |d| && d[at] == 0 && d[at + 1] == 0 && v <= 65535
    ensures SumLe(Stored(d, at, v)) == SumLe(d) + v
  {
    hide SumLe, SumBe;
    var a, rest := d[..at], d[at + 2..];
    assert d == a + ([0, 0] + rest);
    WordAt(a, 0, 0, rest);
    WordAt(a, v % 256, v / 256, rest);
    assert Stored(d, at, v) == a + ([v % 256, v / 256] + rest);
    assert v % 256 + 256 * (v / 256) == v;
  }

  lemma WordAt(a: seq<nat>, x: nat, y: nat, rest: seq<nat>)
    requires |a| % 2 == 0
    ensures SumLe(a + ([x, y] + rest)) == SumLe(a) + (x + 256 * y) + SumLe(rest)
  {
    SumSplit(a, [x, y] + rest);
    SumWord(x, y, rest);
  }

  lemma SumWord(x: nat, y: nat, rest: seq<nat>)
    ensures SumLe([x, y] + rest) == x + 256 * y + SumLe(rest)
  {
    assert ([x, y] + rest)[2..] == rest;
  }

  /** Storing the checksum in its zeroed field makes the folded sum all ones, whichever byte order it is taken in. */
  lemma StoredVerifies(d: seq<nat>, at: nat)
    requires at % 2 == 0 && at + 2 <= |d| && d[at] == 0 && d[at + 1] == 0
    ensures Fold(SumLe(Stored(d, at, 65535 - Fold(SumLe(d))))) == 0xFFFF
    ensures Fold(SumBe(Stored(d, at, 65535 - Fold(SumLe(d))))) == 0xFFFF
  {
    var s := SumLe(d);
    var c := 65535 - Fold(s);
    StoredSum(d, at, c);
    FoldRest(s);
    FoldIs(s + c, 65535, if s == 0 then 0 else (s - 1) / 65535);
    FoldsSwap(Stored(d, at, c));
  }
}
