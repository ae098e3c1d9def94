/** The zlib Huffman table builder of tools/stb_image.h: a 9-bit lookup table for short codes and
    preshifted length limits plus a sorted symbol table for long ones. */
module HuffmanTables {
  import opened Bits
  import opened CanonicalCodes

  const FAST_BITS := 9
  const FAST_SIZE := 512

  /** Storing into a 16-bit field. */
  function Low16(n: nat): nat { n % 0x10000 }

  /** Symbol `n` has a short code and the low bits of `j` spell it. */
  predicate ShortMatch(lens: seq<nat>, n: nat, j: nat)
    requires n < |lens|
  {
    lens[n] <= FAST_BITS && Matches(lens, n, j)
  }

  /** The lookup entry for the bits `j` once the first `n` symbols have been entered. */
  function FastEntry(lens: seq<nat>, n: nat, j: nat): nat
    requires n <= |lens|
    decreases n
  {
    if n == 0 then 0
    else if ShortMatch(lens, n - 1, j) then lens[n - 1] * 512 + (n - 1)
    else FastEntry(lens, n - 1, j)
  }

  lemma {:induction false} FastEntryMeans(lens: seq<nat>, n: nat, j: nat)
    requires n <= |lens|
    ensures FastEntry(lens, n, j) == 0 <==> forall m :: 0 <= m < n ==> !ShortMatch(lens, m, j)
    ensures FastEntry(lens, n, j) != 0 ==>
      exists m :: 0 <= m < n && ShortMatch(lens, m, j) && FastEntry(lens, n, j) == lens[m] * 512 + m
    decreases n
  {
    if n > 0 { FastEntryMeans(lens, n - 1, j); }
  }

  /** Entering a symbol only ever fills empty entries. */
  lemma FastNeverOverwrites(lens: seq<nat>, n: nat, j: nat)
    requires Lengths(lens) && n < |lens| && ShortMatch(lens, n, j)
    ensures FastEntry(lens, n, j) == 0
  {
    FastEntryMeans(lens, n, j);
    if FastEntry(lens, n, j) != 0 {
      var m :| 0 <= m < n && ShortMatch(lens, m, j);
      MatchUnique(lens, m, n, j);
    }
  }

  ghost predicate LimitsOk(lens: seq<nat>, firstcode: seq<nat>, maxcode: seq<nat>, firstsymbol: seq<nat>, upto: nat)
    requires |firstcode| == 16 && |maxcode| == 17 && |firstsymbol| == 16 && upto <= 16
  {
    forall len :: 1 <= len < upto ==>
      firstcode[len] == First(lens, len) && maxcode[len] == Edge(lens, len) && firstsymbol[len] == Base(lens, len)
  }

  ghost predicate SlotOk(lens: seq<nat>, n: nat, size: seq<nat>, value: seq<nat>)
    requires |size| == SYMBOLS && |value| == SYMBOLS && n < |lens|
  {
    lens[n] > 0 ==> Slot(lens, n) < SYMBOLS && size[Slot(lens, n)] == lens[n] && value[Slot(lens, n)] == n
  }

  ghost predicate SymbolsOk(lens: seq<nat>, size: seq<nat>, value: seq<nat>, upto: nat)
    requires |size| == SYMBOLS && |value| == SYMBOLS && upto <= |lens|
  {
    forall n {:trigger SlotOk(lens, n, size, value)} :: 0 <= n < upto ==> SlotOk(lens, n, size, value)
  }

  ghost predicate FastOk(lens: seq<nat>, fast: seq<nat>, upto: nat)
    requires |fast| == FAST_SIZE && upto <= |lens|
  {
    forall j :: 0 <= j < FAST_SIZE ==> fast[j] == FastEntry(lens, upto, j)
  }

  // ---- Facts the builder needs ----

  lemma TooManyOfLength(lens: seq<nat>, len: nat)
    requires Lengths(lens) && 1 <= len <= 15 && Total(lens, len) > Pow2(len)
    ensures Kraft(lens, |lens|) > 65536
  {
    KraftIsEdge(lens);
    EdgeGrows(lens, len, 15);
    FullShare(len);
    hide Pow2, Share, Total;
    MulLess(Pow2(len), Total(lens, len), Share(len));
  }

  lemma EdgeStart(lens: seq<nat>)
    ensures Edge(lens, 0) == 0 && First(lens, 1) == 0 && Base(lens, 1) == 0
  {
  }

  lemma EdgeFlat(lens: seq<nat>, len: nat)
    requires len >= 1
    ensures Total(lens, len) == 0 ==> Edge(lens, len) == Edge(lens, len - 1)
  {
  }

  lemma ShareIsPow(len: nat)
    requires len <= 16
    ensures Share(len) == Pow2(16 - len)
  {
  }

  lemma FullShare(len: nat)
    requires 1 <= len <= 16
    ensures Pow2(len) * Share(len) == 65536 && Share(len) > 0
  {
    Pow2Values();
    Pow2Add(len, 16 - len);
  }

  /** The test made after each length is exact. */
  lemma LimitTest(lens: seq<nat>, len: nat)
    requires Lengths(lens) && 1 <= len <= 15
    ensures First(lens, len) + Total(lens, len) <= Pow2(len) <==> Edge(lens, len) <= 65536
    ensures Edge(lens, len) > 65536 ==> Kraft(lens, |lens|) > 65536
    ensures Edge(lens, len - 1) <= 65536 ==> First(lens, len) <= Pow2(len) <= 32768
  {
    hide Edge, Share, First, Total, Pow2;
    TopIsEdge(lens, len);
    FirstIsEdge(lens, len);
    FullShare(len);
    KraftIsEdge(lens);
    EdgeGrows(lens, len, 15);
    Compare(First(lens, len) + Total(lens, len), Pow2(len), Share(len));
    Compare(First(lens, len), Pow2(len), Share(len));
    SmallPow(len);
  }

  lemma Compare(a: nat, b: nat, d: nat)
    requires d > 0
    ensures a * d <= b * d <==> a <= b
  {
    if a <= b { MulMono(a, b, d); } else { MulLess(b, a, d); }
  }

  lemma SmallPow(len: nat)
    requires len <= 15
    ensures Pow2(len) <= 32768
  {
    Pow2Values();
    Pow2Add(len, 15 - len);
    MulMono(1, Pow2(15 - len), Pow2(len));
  }

  /** Which lookup indices a short code owns. */
  lemma SpellsCode(j: nat, s: nat, code: nat)
    requires code < Pow2(s)
    ensures Reverse(j, s) == code <==> j % Pow2(s) == Reverse(code, s)
  {
    ReverseTwice(j, s);
    ReverseTwice(code, s);
    DivIs(code, Pow2(s), 0, code);
    if j % Pow2(s) == Reverse(code, s) {
      DivIs(Reverse(code, s), Pow2(s), 0, Reverse(code, s));
      ReverseDrops(j, Reverse(code, s), s);
    }
  }

  lemma NoneBetween(i: nat, j: nat, p: nat)
    requires 0 < p && j < i < j + p
    ensures i % p != j % p
  {
    assert i == i / p * p + i % p && j == j / p * p + j % p;
    if i / p > j / p { MulLess(j / p, i / p, p); } else { MulMono(i / p, j / p, p); }
  }

  lemma NextIndex(j: nat, p: nat)
    requires p > 0
    ensures (j + p) % p == j % p
  {
    assert j == j / p * p + j % p;
    Distribute(j / p, 1, p);
    DivIs(j + p, p, j / p + 1, j % p);
  }

  /** The lookup indices whose low `s` bits spell `code`, reversed. */
  method SpreadCode(fast: array<nat>, code: nat, s: nat, entry: nat)
    requires fast.Length == FAST_SIZE && 1 <= s <= FAST_BITS && code < Pow2(s)
    modifies fast
    ensures forall j :: 0 <= j < FAST_SIZE ==> fast[j] == if Reverse(j, s) == code then entry else old(fast[j])
  {
    var r, p := BitReversed(code, s), Pow2(s);
    var j := r;
    DivIs(r, p, 0, r);
    hide Reverse, Pow2;
    forall i | 0 <= i < r ensures i % p != r { DivIs(i, p, 0, i); }
    while j < FAST_SIZE
      invariant j % p == r
      invariant forall i :: 0 <= i < j && i < FAST_SIZE ==> fast[i] == if i % p == r then entry else old(fast[i])
      invariant forall i :: j <= i < FAST_SIZE ==> fast[i] == old(fast[i])
    {
      fast[j] := entry;
      forall i | j < i < j + p ensures i % p != r { NoneBetween(i, j, p); }
      NextIndex(j, p);
      j := j + p;
    }
    forall i | 0 <= i < FAST_SIZE
      ensures fast[i] == if Reverse(i, s) == code then entry else old(fast[i])
    {
      SpellsCode(i, s, code);
    }
  }

  /** How many symbols there are of each length; length 0 means unused. */
  method Tally(lens: seq<nat>) returns (sizes: seq<nat>)
    requires Lengths(lens)
    ensures |sizes| == 17 && sizes[0] == 0
    ensures forall len :: 1 <= len < 16 ==> sizes[len] == Total(lens, len)
  {
    sizes := seq(17, _ => 0);
    for i := 0 to |lens|
      invariant |sizes| == 17 && forall len :: 0 <= len < 17 ==> sizes[len] == Count(lens, len, i)
    {
      sizes := sizes[lens[i] := sizes[lens[i]] + 1];
    }
    sizes := sizes[0 := 0];
  }

  /** What one pass of the code-assignment loop keeps. */
  lemma LimitsStep(lens: seq<nat>, firstcode: seq<nat>, maxcode: seq<nat>, firstsymbol: seq<nat>, i: nat)
    requires Lengths(lens) && 1 <= i < 16 && |firstcode| == 16 && |maxcode| == 17 && |firstsymbol| == 16
    requires LimitsOk(lens, firstcode, maxcode, firstsymbol, i) && Edge(lens, i - 1) <= 65536
    ensures LimitsOk(lens, firstcode[i := Low16(First(lens, i))],
                     maxcode[i := Shl(First(lens, i) + Total(lens, i), 16 - i)],
                     firstsymbol[i := Low16(Base(lens, i))], i + 1)
  {
    hide Edge, Share, First, Total, Pow2, Base;
    LimitTest(lens, i);
    BaseBound(lens, i);
    TopIsEdge(lens, i);
    ShareIsPow(i);
    ShlIsMul(First(lens, i) + Total(lens, i), 16 - i);
  }

  lemma NoLimits(lens: seq<nat>, firstcode: seq<nat>, maxcode: seq<nat>, firstsymbol: seq<nat>)
    requires |firstcode| == 16 && |maxcode| == 17 && |firstsymbol| == 16
    ensures LimitsOk(lens, firstcode, maxcode, firstsymbol, 1)
  {
  }

  lemma SentinelKeeps(lens: seq<nat>, firstcode: seq<nat>, maxcode: seq<nat>, firstsymbol: seq<nat>)
    requires |firstcode| == 16 && |maxcode| == 17 && |firstsymbol| == 16
    requires LimitsOk(lens, firstcode, maxcode, firstsymbol, 16)
    ensures LimitsOk(lens, firstcode, maxcode[16 := 0x10000], firstsymbol, 16)
  {
  }

  lemma NextLength(lens: seq<nat>, i: nat)
    requires i >= 1
    ensures First(lens, i + 1) == 2 * (First(lens, i) + Total(lens, i))
    ensures Base(lens, i + 1) == Base(lens, i) + Total(lens, i)
  {
  }

  lemma EntryIs(s: nat, n: nat)
    requires s <= 15 && n < SYMBOLS
    ensures Low16(Or(Shl(s, 9), n)) == s * 512 + n
  {
    hide Or, Shl, Pow2;
    Pow2Values();
    OrIsAdd(n, s, 9);
  }

  lemma PlacedSymbol(lens: seq<nat>, i: nat, size: seq<nat>, value: seq<nat>)
    requires Lengths(lens) && i < |lens| && lens[i] > 0 && |size| == SYMBOLS && |value| == SYMBOLS
    requires SymbolsOk(lens, size, value, i)
    ensures Slot(lens, i) < SYMBOLS
    ensures SymbolsOk(lens, size[Slot(lens, i) := lens[i]], value[Slot(lens, i) := i], i + 1)
  {
    SlotBound(lens, i);
    var size', value' := size[Slot(lens, i) := lens[i]], value[Slot(lens, i) := i];
    forall n | 0 <= n < i + 1 ensures SlotOk(lens, n, size', value') {
      if n < i && lens[n] > 0 {
        assert SlotOk(lens, n, size, value);
        if Precedes(lens, n, i) { SlotsApart(lens, n, i); } else { SlotsApart(lens, i, n); }
      }
    }
  }

  lemma PlacedFast(lens: seq<nat>, i: nat, fast: seq<nat>, fast': seq<nat>)
    requires i < |lens| && lens[i] > 0 && |fast| == FAST_SIZE && |fast'| == FAST_SIZE && FastOk(lens, fast, i)
    requires forall j :: 0 <= j < FAST_SIZE ==> fast'[j] ==
                                                (if lens[i] <= FAST_BITS && Reverse(j, lens[i]) == Code(lens, i)
                                                 then lens[i] * 512 + i else fast[j])
    ensures FastOk(lens, fast', i + 1)
  {
  }

  lemma SkippedSymbol(lens: seq<nat>, i: nat, size: seq<nat>, value: seq<nat>, fast: seq<nat>)
    requires i < |lens| && lens[i] == 0 && |size| == SYMBOLS && |value| == SYMBOLS && |fast| == FAST_SIZE
    requires SymbolsOk(lens, size, value, i) && FastOk(lens, fast, i)
    ensures SymbolsOk(lens, size, value, i + 1) && FastOk(lens, fast, i + 1)
  {
    assert SlotOk(lens, i, size, value);
    forall j | 0 <= j < FAST_SIZE ensures fast[j] == FastEntry(lens, i + 1, j) {
      assert !ShortMatch(lens, i, j);
    }
  }

  class Huffman {
    const fast: array<nat>
    const firstcode: array<nat>
    const maxcode: array<nat>
    const firstsymbol: array<nat>
    const size: array<nat>
    const value: array<nat>

    ghost predicate Shape() {
      && fast.Length == FAST_SIZE && firstcode.Length == 16 && maxcode.Length == 17 && firstsymbol.Length == 16
      && size.Length == SYMBOLS && value.Length == SYMBOLS
      && fast != firstcode && fast != maxcode && fast != firstsymbol && fast != size && fast != value
      && firstcode != maxcode && firstcode != firstsymbol && firstcode != size && firstcode != value
      && maxcode != firstsymbol && maxcode != size && maxcode != value
      && firstsymbol != size && firstsymbol != value && size != value
    }

    /** The tables are those of the canonical code for `lens`. */
    ghost predicate Built(lens: seq<nat>)
      requires Shape()
      reads fast, firstcode, maxcode, firstsymbol, size, value
    {
      && Lengths(lens)
      && LimitsOk(lens, firstcode[..], maxcode[..], firstsymbol[..], 16) && maxcode[16] == 65536
      && SymbolsOk(lens, size[..], value[..], |lens|)
      && FastOk(lens, fast[..], |lens|)
    }

    constructor ()
      ensures Shape()
      ensures fresh(fast) && fresh(firstcode) && fresh(maxcode) && fresh(firstsymbol) && fresh(size) && fresh(value)
    {
      fast := new nat[FAST_SIZE];
      firstcode := new nat[16];
      maxcode := new nat[17];
      firstsymbol := new nat[16];
      size := new nat[SYMBOLS];
      value := new nat[SYMBOLS];
    }

    /** The length limits, or failure when the lengths ask for more codes than there are. */
    method AssignCodes(lens: seq<nat>, sizes: seq<nat>, nextCode: array<nat>) returns (ok: bool)
      requires Shape() && Lengths(lens) && |sizes| == 17 && nextCode.Length == 16
      requires nextCode !in {fast, firstcode, maxcode, firstsymbol, size, value}
      requires forall len :: 1 <= len < 16 ==> sizes[len] == Total(lens, len)
      modifies nextCode, firstcode, maxcode, firstsymbol
      ensures ok <==> Kraft(lens, |lens|) <= 65536
      ensures ok ==> LimitsOk(lens, firstcode[..], maxcode[..], firstsymbol[..], 16) && maxcode[16] == 65536
      ensures ok ==> forall len :: 1 <= len < 16 ==> nextCode[len] == First(lens, len)
    {
      hide Pow2, Share, Edge, Kraft, Count, Total, Shl, First, Base, LimitsOk;
      for i := 1 to 16 {
        if sizes[i] > Pow2(i) {
          TooManyOfLength(lens, i);
          return false;
        }
      }
      var code, k := 0, 0;
      EdgeStart(lens);
      assert LimitsOk(lens, firstcode[..], maxcode[..], firstsymbol[..], 1) by {
        NoLimits(lens, firstcode[..], maxcode[..], firstsymbol[..]);
      }
      for i := 1 to 16
        invariant code == First(lens, i) && k == Base(lens, i) && Edge(lens, i - 1) <= 65536
        invariant LimitsOk(lens, firstcode[..], maxcode[..], firstsymbol[..], i)
        invariant forall len :: 1 <= len < i ==> nextCode[len] == First(lens, len)
      {
        LimitTest(lens, i);
        EdgeFlat(lens, i);
        NextLength(lens, i);
        LimitsStep(lens, firstcode[..], maxcode[..], firstsymbol[..], i);
        ghost var fc, mc, fs := firstcode[..], maxcode[..], firstsymbol[..];
        nextCode[i] := code;
        firstcode[i] := Low16(code);
        firstsymbol[i] := Low16(k);
        code := code + sizes[i];
        if sizes[i] != 0 && code - 1 >= Pow2(i) {
          return false;
        }
        maxcode[i] := Shl(code, 16 - i);
        assert firstcode[..] == fc[i := Low16(First(lens, i))] && firstsymbol[..] == fs[i := Low16(Base(lens, i))];
        assert maxcode[..] == mc[i := Shl(First(lens, i) + Total(lens, i), 16 - i)];
        code := 2 * code;
        k := k + sizes[i];
      }
      SentinelKeeps(lens, firstcode[..], maxcode[..], firstsymbol[..]);
      ghost var mc := maxcode[..];
      maxcode[16] := 0x10000;
      assert maxcode[..] == mc[16 := 0x10000];
      KraftIsEdge(lens);
      return true;
    }

    /** One used symbol into its slot, and into every lookup entry its code owns. */
    method PlaceSymbol(lens: seq<nat>, i: nat, nextCode: array<nat>)
      requires Shape() && Lengths(lens) && Kraft(lens, |lens|) <= 65536 && nextCode.Length == 16
      requires nextCode !in {fast, firstcode, maxcode, firstsymbol, size, value}
      requires LimitsOk(lens, firstcode[..], maxcode[..], firstsymbol[..], 16)
      requires i < |lens| && lens[i] > 0 && nextCode[lens[i]] == Code(lens, i)
      requires SymbolsOk(lens, size[..], value[..], i) && FastOk(lens, fast[..], i)
      modifies nextCode, fast, size, value
      ensures SymbolsOk(lens, size[..], value[..], i + 1) && FastOk(lens, fast[..], i + 1)
      ensures nextCode[..] == old(nextCode[..])[lens[i] := Code(lens, i) + 1]
    {
      hide Pow2, Kraft, Matches, SlotOk, FastEntry, FastOk, SymbolsOk;
      var s := lens[i];
      assert firstcode[..][s] == First(lens, s) && firstsymbol[..][s] == Base(lens, s);
      var c := nextCode[s] - firstcode[s] + firstsymbol[s];
      var entry := Low16(Or(Shl(s, 9), i));
      SlotBound(lens, i);
      CodeFits(lens, i);
      EntryIs(s, i);
      ghost var sizes0, values0, fast0 := size[..], value[..], fast[..];
      size[c] := s;
      value[c] := i;
      PlacedSymbol(lens, i, sizes0, values0);
      assert size[..] == sizes0[Slot(lens, i) := lens[i]] && value[..] == values0[Slot(lens, i) := i];
      if s <= FAST_BITS {
        SpreadCode(fast, nextCode[s], s, entry);
      }
      PlacedFast(lens, i, fast0, fast[..]);
      nextCode[s] := nextCode[s] + 1;
    }

    /** Sorts every used symbol into the tables. */
    method Place(lens: seq<nat>, nextCode: array<nat>)
      requires Shape() && Lengths(lens) && Kraft(lens, |lens|) <= 65536 && nextCode.Length == 16
      requires nextCode !in {fast, firstcode, maxcode, firstsymbol, size, value}
      requires LimitsOk(lens, firstcode[..], maxcode[..], firstsymbol[..], 16)
      requires forall len :: 1 <= len < 16 ==> nextCode[len] == First(lens, len)
      requires FastOk(lens, fast[..], 0)
      modifies nextCode, fast, size, value
      ensures SymbolsOk(lens, size[..], value[..], |lens|) && FastOk(lens, fast[..], |lens|)
    {
      hide Kraft, LimitsOk, SlotOk, FastOk;
      for i := 0 to |lens|
        invariant forall len :: 1 <= len < 16 ==> nextCode[..][len] == First(lens, len) + Count(lens, len, i)
        invariant SymbolsOk(lens, size[..], value[..], i) && FastOk(lens, fast[..], i)
      {
        if lens[i] != 0 {
          assert nextCode[..][lens[i]] == Code(lens, i);
          PlaceSymbol(lens, i, nextCode);
        } else {
          SkippedSymbol(lens, i, size[..], value[..], fast[..]);
        }
      }
    }

    /** Accepts exactly the length lists whose Kraft sum is at most one, and then the tables are those of the
        canonical code. */
    method Build(lens: seq<nat>) returns (ok: bool)
      requires Shape() && Lengths(lens)
      modifies fast, firstcode, maxcode, firstsymbol, size, value
      ensures ok <==> Kraft(lens, |lens|) <= 65536
      ensures ok ==> Built(lens)
    {
      hide Pow2, Share, Edge, Kraft, Count, Total, First, Base;
      for j := 0 to FAST_SIZE
        invariant forall i :: 0 <= i < j ==> fast[i] == 0
      {
        fast[j] := 0;
      }
      var sizes := Tally(lens);
      var nextCode := new nat[16];
      ok := AssignCodes(lens, sizes, nextCode);
      if ok {
        Place(lens, nextCode);
      }
    }
  }
}
