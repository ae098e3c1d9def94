/** Canonical prefix codes as section 3.2.2 of RFC 1951 assigns them from a list of code lengths. */
module CanonicalCodes {
  import opened Bits

  const SYMBOLS := 288

  /** The lists handed to the table builder: at most 288 symbols, lengths 0 (unused) to 15. */
  predicate Lengths(lens: seq<nat>) {
    |lens| <= SYMBOLS && forall i :: 0 <= i < |lens| ==> lens[i] <= 15
  }

  /** How many of the first `n` symbols have length `len`. */
  function Count(lens: seq<nat>, len: nat, n: nat): (r: nat)
    requires n <= |lens|
    ensures r <= n
    decreases n
  {
    if n == 0 then 0 else Count(lens, len, n - 1) + if lens[n - 1] == len then 1 else 0
  }

  function Total(lens: seq<nat>, len: nat): nat { Count(lens, len, |lens|) }

  /** The smallest code of each length (step 2 of the algorithm in section 3.2.2 of RFC 1951). */
  function First(lens: seq<nat>, len: nat): nat {
    if len <= 1 then 0 else 2 * (First(lens, len - 1) + Total(lens, len - 1))
  }

  /** Codes of one length are consecutive, in symbol order (step 3). */
  function Code(lens: seq<nat>, n: nat): nat
    requires n < |lens|
  {
    First(lens, lens[n]) + Count(lens, lens[n], n)
  }

  /** The share of the 16-bit code space that one code of length `len` takes. */
  function Share(len: nat): nat { if len <= 16 then Pow2(16 - len) else 0 }

  /** The code space taken by all codes of length at most `len`. */
  function Edge(lens: seq<nat>, len: nat): nat {
    if len == 0 then 0 else
      MulMono(0, Total(lens, len), Share(len));
      Edge(lens, len - 1) + Total(lens, len) * Share(len)
  }

  /** The Kraft sum, scaled by 65536. */
  function Kraft(lens: seq<nat>, n: nat): nat
    requires n <= |lens|
    decreases n
  {
    if n == 0 then 0 else Kraft(lens, n - 1) + if lens[n - 1] == 0 then 0 else Share(lens[n - 1])
  }

  /** Where the symbols of length `len` start in the sorted symbol table. */
  function Base(lens: seq<nat>, len: nat): nat {
    if len <= 1 then 0 else Base(lens, len - 1) + Total(lens, len - 1)
  }

  /** The rank of symbol `n` in (length, symbol) order. */
  function Slot(lens: seq<nat>, n: nat): nat
    requires n < |lens|
  {
    Base(lens, lens[n]) + Count(lens, lens[n], n)
  }

  lemma ShareStep(len: nat)
    requires 1 <= len <= 16
    ensures Share(len - 1) == 2 * Share(len) && Share(len) > 0
  {
  }

  lemma {:induction false} FirstIsEdge(lens: seq<nat>, len: nat)
    requires 1 <= len <= 16
    ensures First(lens, len) * Share(len) == Edge(lens, len - 1)
    decreases len, 0
  {
    if len > 1 {
      TopIsEdge(lens, len - 1);
      ShareStep(len);
      hide Edge, Share;
      Regroup(First(lens, len - 1) + Total(lens, len - 1), Share(len));
    }
  }

  lemma Regroup(t: nat, s: nat)
    ensures 2 * t * s == t * (2 * s)
  {
  }

  lemma {:induction false} TopIsEdge(lens: seq<nat>, len: nat)
    requires 1 <= len <= 16
    ensures (First(lens, len) + Total(lens, len)) * Share(len) == Edge(lens, len)
    decreases len, 1
  {
    FirstIsEdge(lens, len);
    hide Share, First;
    Distribute(First(lens, len), Total(lens, len), Share(len));
  }

  lemma {:induction false} EdgeGrows(lens: seq<nat>, a: nat, b: nat)
    requires a <= b
    ensures Edge(lens, a) <= Edge(lens, b)
    decreases b
  {
    hide Share, Total;
    if a < b {
      EdgeGrows(lens, a, b - 1);
      Product(Total(lens, b), Share(b));
    }
  }

  lemma Product(x: nat, y: nat)
    ensures x * y >= 0
  {
  }

  lemma {:induction false} CountGrows(lens: seq<nat>, len: nat, a: nat, b: nat)
    requires a <= b <= |lens|
    ensures Count(lens, len, a) <= Count(lens, len, b)
    decreases b
  {
    if a < b { CountGrows(lens, len, a, b - 1); }
  }

  /** A symbol counts towards everything after it. */
  lemma Counted(lens: seq<nat>, n: nat, m: nat)
    requires n < m <= |lens|
    ensures Count(lens, lens[n], n) + 1 <= Count(lens, lens[n], m)
  {
    CountGrows(lens, lens[n], n + 1, m);
  }

  // ---- The Kraft sum is the edge after the last length ----

  /** The code space the first `n` symbols take in lengths 1 to `len`. */
  function Spread(lens: seq<nat>, n: nat, len: nat): nat
    requires n <= |lens|
    decreases len
  {
    if len == 0 then 0 else Spread(lens, n, len - 1) + Count(lens, len, n) * Share(len)
  }

  lemma {:induction false} SpreadGrows(lens: seq<nat>, n: nat, len: nat)
    requires n < |lens|
    ensures Spread(lens, n + 1, len) == Spread(lens, n, len) + if 1 <= lens[n] <= len then Share(lens[n]) else 0
    decreases len
  {
    if len > 0 {
      SpreadGrows(lens, n, len - 1);
      Distribute(Count(lens, len, n), 1, Share(len));
    }
  }

  lemma {:induction false} SpreadIsKraft(lens: seq<nat>, n: nat)
    requires Lengths(lens) && n <= |lens|
    ensures Spread(lens, n, 15) == Kraft(lens, n)
    decreases n
  {
    hide Spread, Share;
    if n == 0 {
      SpreadNone(lens, 15);
    } else {
      SpreadIsKraft(lens, n - 1);
      SpreadGrows(lens, n - 1, 15);
    }
  }

  lemma {:induction false} SpreadNone(lens: seq<nat>, len: nat)
    ensures Spread(lens, 0, len) == 0
  {
    if len > 0 { SpreadNone(lens, len - 1); }
  }

  lemma {:induction false} SpreadIsEdge(lens: seq<nat>, len: nat)
    ensures Spread(lens, |lens|, len) == Edge(lens, len)
  {
    if len > 0 { SpreadIsEdge(lens, len - 1); }
  }

  lemma KraftIsEdge(lens: seq<nat>)
    requires Lengths(lens)
    ensures Kraft(lens, |lens|) == Edge(lens, 15)
  {
    SpreadIsKraft(lens, |lens|);
    SpreadIsEdge(lens, 15);
  }

  // ---- Codes are intervals of the code space ----

  function Start(lens: seq<nat>, n: nat): nat
    requires n < |lens|
  {
    Code(lens, n) * Share(lens[n])
  }

  /** (length, symbol) order. */
  predicate Precedes(lens: seq<nat>, n: nat, m: nat)
    requires n < |lens| && m < |lens|
  {
    lens[n] < lens[m] || (lens[n] == lens[m] && n < m)
  }

  lemma StartIs(lens: seq<nat>, n: nat)
    requires n < |lens| && 1 <= lens[n] <= 15
    ensures Start(lens, n) == Edge(lens, lens[n] - 1) + Count(lens, lens[n], n) * Share(lens[n])
    ensures Start(lens, n) + Share(lens[n]) <= Edge(lens, lens[n])
  {
    hide Share, First;
    FirstIsEdge(lens, lens[n]);
    Distribute(First(lens, lens[n]), Count(lens, lens[n], n), Share(lens[n]));
    Counted(lens, n, |lens|);
    MulLess(Count(lens, lens[n], n), Total(lens, lens[n]), Share(lens[n]));
  }

  /** The codes' intervals come in (length, symbol) order and never overlap. */
  lemma CodesOrdered(lens: seq<nat>, n: nat, m: nat)
    requires Lengths(lens) && n < |lens| && m < |lens| && lens[n] > 0
    requires Precedes(lens, n, m)
    ensures Start(lens, n) + Share(lens[n]) <= Start(lens, m)
  {
    hide Share, Start, Edge;
    StartIs(lens, n);
    StartIs(lens, m);
    if lens[n] < lens[m] {
      EdgeGrows(lens, lens[n], lens[m] - 1);
    } else {
      Counted(lens, n, m);
      MulLess(Count(lens, lens[n], n), Count(lens, lens[n], m), Share(lens[n]));
    }
  }

  /** No code is a prefix of another. */
  lemma PrefixFree(lens: seq<nat>, n: nat, m: nat)
    requires Lengths(lens) && n < |lens| && m < |lens| && n != m && 0 < lens[n] <= lens[m]
    ensures Code(lens, m) / Pow2(lens[m] - lens[n]) != Code(lens, n)
  {
    var d, c := Pow2(lens[m] - lens[n]), Code(lens, m);
    Pow2Add(lens[m] - lens[n], 16 - lens[m]);
    Nested(c, d, Share(lens[m]));
    assert Share(lens[n]) == d * Share(lens[m]);
    hide Share, Code, Pow2;
    if c / d == Code(lens, n) {
      if Precedes(lens, n, m) { CodesOrdered(lens, n, m); } else { CodesOrdered(lens, m, n); }
      assert false;
    }
  }

  lemma Nested(c: nat, d: nat, s: nat)
    requires d > 0 && s > 0
    ensures c / d * (d * s) <= c * s && c * s + s <= c / d * (d * s) + d * s
  {
    var q, r := c / d, c % d;
    assert c == q * d + r;
    assert q * (d * s) == q * d * s;
    Distribute(q * d, r, s);
    MulLess(r, d, s);
  }

  /** A code fits its length exactly when the Kraft sum allows it. */
  lemma CodeFits(lens: seq<nat>, n: nat)
    requires Lengths(lens) && n < |lens| && lens[n] > 0 && Kraft(lens, |lens|) <= 65536
    ensures Code(lens, n) < Pow2(lens[n])
  {
    KraftIsEdge(lens);
    StartIs(lens, n);
    EdgeGrows(lens, lens[n], 15);
    Pow2Values();
    Pow2Add(lens[n], 16 - lens[n]);
    var c, p, s := Code(lens, n), Pow2(lens[n]), Share(lens[n]);
    if c >= p { MulMono(p, c, s); }
  }

  // ---- Reading a code off a bit buffer, first bit lowest ----

  /** The next bits of `w` spell the code of symbol `n`. */
  predicate Matches(lens: seq<nat>, n: nat, w: nat)
    requires n < |lens|
  {
    lens[n] > 0 && Reverse(w, lens[n]) == Code(lens, n)
  }

  lemma MatchIsInterval(lens: seq<nat>, n: nat, w: nat)
    requires Lengths(lens) && n < |lens| && lens[n] > 0
    ensures Matches(lens, n, w) <==> Start(lens, n) <= Reverse(w, 16) < Start(lens, n) + Share(lens[n])
  {
    ReverseTop(w, lens[n], 16);
    Within(Reverse(w, 16), Share(lens[n]), Code(lens, n));
  }

  lemma Within(k: nat, d: nat, q: nat)
    requires d > 0
    ensures k / d == q <==> q * d <= k < q * d + d
  {
    assert k == k / d * d + k % d;
    if q * d <= k < q * d + d { DivIs(k, d, q, k - q * d); }
  }

  /** At most one symbol matches, so decoding is a function. */
  lemma MatchUnique(lens: seq<nat>, n: nat, m: nat, w: nat)
    requires Lengths(lens) && n < |lens| && m < |lens|
    requires Matches(lens, n, w) && Matches(lens, m, w)
    ensures n == m
  {
    MatchIsInterval(lens, n, w);
    MatchIsInterval(lens, m, w);
    if n != m {
      if Precedes(lens, n, m) { CodesOrdered(lens, n, m); } else { CodesOrdered(lens, m, n); }
    }
  }

  /** The `j`-th symbol of length `len`. */
  function Nth(lens: seq<nat>, len: nat, j: nat, n: nat): (r: nat)
    requires n <= |lens| && j < Count(lens, len, n)
    ensures r < n && lens[r] == len && Count(lens, len, r) == j
    decreases n
  {
    if lens[n - 1] == len && Count(lens, len, n - 1) == j then n - 1 else Nth(lens, len, j, n - 1)
  }

  /** Every point between two edges belongs to exactly one symbol of that length. */
  lemma EdgesCovered(lens: seq<nat>, len: nat, w: nat) returns (n: nat)
    requires Lengths(lens) && 1 <= len <= 15
    requires Edge(lens, len - 1) <= Reverse(w, 16) < Edge(lens, len)
    ensures n < |lens| && lens[n] == len && Matches(lens, n, w)
    ensures Reverse(w, len) == First(lens, len) + Count(lens, len, n)
  {
    hide Edge, First, Reverse, Pow2;
    FirstIsEdge(lens, len);
    TopIsEdge(lens, len);
    ReverseTop(w, len, 16);
    var q, d := Reverse(w, len), Share(len);
    Between(Reverse(w, 16), d, First(lens, len), First(lens, len) + Total(lens, len));
    n := Nth(lens, len, q - First(lens, len), |lens|);
  }

  lemma Between(k: nat, d: nat, lo: nat, hi: nat)
    requires d > 0 && lo * d <= k < hi * d
    ensures lo <= k / d < hi
  {
    var q := k / d;
    assert k == q * d + k % d;
    if q < lo { MulLess(q, lo, d); }
    if q >= hi { MulMono(hi, q, d); }
  }

  /** The length of a match is the one whose edges enclose the bits. */
  lemma MatchBetweenEdges(lens: seq<nat>, n: nat, w: nat)
    requires Lengths(lens) && n < |lens| && Matches(lens, n, w)
    ensures Edge(lens, lens[n] - 1) <= Reverse(w, 16) < Edge(lens, lens[n])
  {
    hide Edge, Start, Share, Reverse;
    MatchIsInterval(lens, n, w);
    StartIs(lens, n);
    MulMono(0, Count(lens, lens[n], n), Share(lens[n]));
  }

  // ---- The sorted symbol table ----

  lemma {:induction false} BaseStep(lens: seq<nat>, a: nat, b: nat)
    requires 1 <= a < b
    ensures Base(lens, a) + Total(lens, a) <= Base(lens, b)
  {
    if a + 1 < b { BaseStep(lens, a, b - 1); }
  }

  /** Different symbols have different slots. */
  lemma SlotsApart(lens: seq<nat>, n: nat, m: nat)
    requires n < |lens| && m < |lens| && lens[n] > 0 && Precedes(lens, n, m)
    ensures Slot(lens, n) < Slot(lens, m)
  {
    if lens[n] < lens[m] {
      BaseStep(lens, lens[n], lens[m]);
      Counted(lens, n, |lens|);
    } else {
      Counted(lens, n, m);
    }
  }

  function Ranked(lens: seq<nat>, n: nat, len: nat): nat
    requires n <= |lens|
    decreases len
  {
    if len == 0 then 0 else Ranked(lens, n, len - 1) + Count(lens, len, n)
  }

  lemma {:induction false} RankedBound(lens: seq<nat>, n: nat, len: nat)
    requires n <= |lens|
    ensures Ranked(lens, n, len) <= n
    decreases n
  {
    if n == 0 { RankedNone(lens, len); } else {
      RankedBound(lens, n - 1, len);
      RankedGrows(lens, n - 1, len);
    }
  }

  lemma {:induction false} RankedNone(lens: seq<nat>, len: nat)
    ensures Ranked(lens, 0, len) == 0
  {
    if len > 0 { RankedNone(lens, len - 1); }
  }

  lemma {:induction false} RankedGrows(lens: seq<nat>, n: nat, len: nat)
    requires n < |lens|
    ensures Ranked(lens, n + 1, len) == Ranked(lens, n, len) + if 1 <= lens[n] <= len then 1 else 0
    decreases len
  {
    if len > 0 { RankedGrows(lens, n, len - 1); }
  }

  lemma {:induction false} BaseIsRanked(lens: seq<nat>, len: nat)
    ensures Base(lens, len + 1) == Ranked(lens, |lens|, len)
  {
    if len > 0 { BaseIsRanked(lens, len - 1); }
  }

  lemma BaseBound(lens: seq<nat>, len: nat)
    requires len >= 1
    ensures Base(lens, len) + Total(lens, len) <= |lens|
  {
    BaseIsRanked(lens, len);
    RankedBound(lens, |lens|, len);
  }

  lemma SlotBound(lens: seq<nat>, n: nat)
    requires n < |lens| && lens[n] > 0
    ensures Slot(lens, n) < |lens|
  {
    BaseBound(lens, lens[n]);
    Counted(lens, n, |lens|);
  }
}
