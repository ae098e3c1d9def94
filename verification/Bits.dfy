/** Powers of two, bit reversal, and the masked-swap reversal of tools/stb_image.h. */
module Bits {
  predicate Bytes(s: seq<nat>) { forall i :: 0 <= i < |s| ==> s[i] < 256 }

  function Zeros(n: nat): (r: seq<nat>)
    ensures |r| == n && Bytes(r)
  {
    seq(n, _ => 0)
  }

  lemma ZerosAre(n: nat, i: nat)
    requires i < n
    ensures Zeros(n)[i] == 0
  {
  }

  function Pow2(n: nat): (r: nat)
    ensures r > 0
  {
    if n == 0 then 1 else 2 * Pow2(n - 1)
  }

  lemma {:induction false} Pow2Add(a: nat, b: nat)
    ensures Pow2(a + b) == Pow2(a) * Pow2(b)
  {
    if a > 0 { Pow2Add(a - 1, b); }
  }

  lemma Pow2Values()
    ensures Pow2(1) == 2 && Pow2(2) == 4 && Pow2(4) == 16 && Pow2(8) == 256 && Pow2(9) == 512 && Pow2(16) == 65536
  {
    Pow2Add(4, 4);
    Pow2Add(8, 8);
  }

  /** Multiplying by a larger factor. */
  lemma MulLess(a: nat, b: nat, d: nat)
    requires a < b
    ensures a * d + d <= b * d
  {
    assert (b - a - 1) * d >= 0;
    assert (b - a - 1) * d == b * d - a * d - d;
  }

  lemma MulMono(a: nat, b: nat, d: nat)
    requires a <= b
    ensures a * d <= b * d
  {
    if a < b { MulLess(a, b, d); }
  }

  lemma DivIs(v: nat, d: nat, q: nat, r: nat)
    requires r < d && v == q * d + r
    ensures v / d == q && v % d == r
  {
    assert v == (v / d) * d + v % d;
    if v / d < q { MulLess(v / d, q, d); } else if v / d > q { MulLess(q, v / d, d); }
  }

  lemma Distribute(x: nat, y: nat, d: nat)
    ensures (x + y) * d == x * d + y * d
  {
  }

  /** A number over twice a divisor, from its half over the divisor. */
  lemma Halve(n: nat, d: nat)
    requires d > 0
    ensures n / (2 * d) == n / 2 / d && n % (2 * d) == 2 * (n / 2 % d) + n % 2
  {
    var h := n / 2;
    var q, r := h / d, h % d;
    assert h == q * d + r;
    assert q * (2 * d) == 2 * (q * d);
    DivIs(n, 2 * d, q, 2 * r + n % 2);
  }

  function Shr(n: nat, s: nat): nat
    decreases s
  {
    if s == 0 then n else Shr(n / 2, s - 1)
  }

  lemma {:induction false} ShrIsDiv(n: nat, s: nat)
    ensures Shr(n, s) == n / Pow2(s)
    decreases s
  {
    if s > 0 {
      ShrIsDiv(n / 2, s - 1);
      Halve(n, Pow2(s - 1));
    }
  }

  /** The low `k` bits of `n`, lowest bit first, read as a number with the first bit on top. */
  function Reverse(n: nat, k: nat): (r: nat)
    ensures r < Pow2(k)
    decreases k
  {
    if k == 0 then 0 else (if n % 2 == 1 then Pow2(k - 1) else 0) + Reverse(n / 2, k - 1)
  }

  lemma {:induction false} ReverseSplit(n: nat, s: nat, t: nat)
    ensures Reverse(n, s + t) == Reverse(n, s) * Pow2(t) + Reverse(Shr(n, s), t)
    decreases s
  {
    if s > 0 {
      ReverseSplit(n / 2, s - 1, t);
      Pow2Add(s - 1, t);
      Distribute(if n % 2 == 1 then Pow2(s - 1) else 0, Reverse(n / 2, s - 1), Pow2(t));
    }
  }

  /** The first bits read are the top bits of the reversal. */
  lemma ReverseTop(n: nat, s: nat, k: nat)
    requires s <= k
    ensures Reverse(n, k) / Pow2(k - s) == Reverse(n, s)
  {
    ReverseSplit(n, s, k - s);
    DivIs(Reverse(n, k), Pow2(k - s), Reverse(n, s), Reverse(Shr(n, s), k - s));
  }

  /** The last bit read ends up lowest. */
  lemma ReverseLast(n: nat, k: nat)
    ensures Reverse(n, k + 1) == 2 * Reverse(n, k) + Shr(n, k) % 2
  {
    ReverseSplit(n, k, 1);
    assert Pow2(1) == 2;
    assert Reverse(Shr(n, k), 1) == Shr(n, k) % 2;
  }

  /** Bits above the first `k` do not matter. */
  lemma {:induction false} ReverseDrops(n: nat, m: nat, k: nat)
    requires n % Pow2(k) == m % Pow2(k)
    ensures Reverse(n, k) == Reverse(m, k)
    decreases k
  {
    if k > 0 {
      Halve(n, Pow2(k - 1));
      Halve(m, Pow2(k - 1));
      ReverseDrops(n / 2, m / 2, k - 1);
    }
  }

  /** Reversing twice gives the low bits back. */
  lemma {:induction false} ReverseTwice(n: nat, k: nat)
    ensures Reverse(Reverse(n, k), k) == n % Pow2(k)
    decreases k
  {
    if k > 0 {
      ReverseTwice(n / 2, k - 1);
      ReverseTwiceStep(n, k);
    }
  }

  lemma ReverseTwiceStep(n: nat, k: nat)
    requires k > 0 && Reverse(Reverse(n / 2, k - 1), k - 1) == n / 2 % Pow2(k - 1)
    ensures Reverse(Reverse(n, k), k) == n % Pow2(k)
  {
    hide Reverse, Pow2, Shr;
    var p, m, r := Pow2(k - 1), Reverse(n / 2, k - 1), Reverse(n, k);
    PowTwice(k);
    ReverseFirst(n, k);
    ReverseLast(r, k - 1);
    ShrIsDiv(r, k - 1);
    ReverseTopBit(r, m, k - 1, n % 2);
    Halve(n, p);
  }

  lemma PowTwice(k: nat)
    requires k > 0
    ensures Pow2(k) == 2 * Pow2(k - 1)
  {
  }

  lemma ReverseFirst(n: nat, k: nat)
    requires k > 0
    ensures Reverse(n, k) == (if n % 2 == 1 then Pow2(k - 1) else 0) + Reverse(n / 2, k - 1)
  {
  }

  lemma ReverseTopBit(r: nat, m: nat, k: nat, b: nat)
    requires b < 2 && m < Pow2(k) && r == m + (if b == 1 then Pow2(k) else 0)
    ensures Reverse(r, k) == Reverse(m, k) && r / Pow2(k) == b
  {
    var p := Pow2(k);
    assert b * p == if b == 1 then p else 0;
    hide Pow2;
    DivIs(r, p, b, m);
    DivIs(m, p, 0, m);
    ReverseDrops(r, m, k);
  }

  // ---- Single bits ----

  predicate Bit(n: nat, i: nat) { Shr(n, i) % 2 == 1 }

  function Shl(n: nat, s: nat): nat
    decreases s
  {
    if s == 0 then n else Shl(2 * n, s - 1)
  }

  function And(a: nat, b: nat): nat {
    if a == 0 || b == 0 then 0 else 2 * And(a / 2, b / 2) + if a % 2 == 1 && b % 2 == 1 then 1 else 0
  }

  function Or(a: nat, b: nat): nat {
    if a == 0 && b == 0 then 0 else 2 * Or(a / 2, b / 2) + if a % 2 == 1 || b % 2 == 1 then 1 else 0
  }

  lemma {:induction false} BitAnd(a: nat, b: nat, i: nat)
    ensures Bit(And(a, b), i) <==> Bit(a, i) && Bit(b, i)
    decreases i
  {
    if i > 0 { BitAnd(a / 2, b / 2, i - 1); }
    if a == 0 || b == 0 { BitZero(i); }
  }

  lemma {:induction false} BitZero(i: nat)
    ensures !Bit(0, i)
  {
    if i > 0 { BitZero(i - 1); }
  }

  lemma {:induction false} BitOr(a: nat, b: nat, i: nat)
    ensures Bit(Or(a, b), i) <==> Bit(a, i) || Bit(b, i)
    decreases i
  {
    if i > 0 { BitOr(a / 2, b / 2, i - 1); }
    if a == 0 && b == 0 { BitZero(i); }
  }

  lemma {:induction false} BitShr(n: nat, s: nat, i: nat)
    ensures Bit(Shr(n, s), i) <==> Bit(n, i + s)
    decreases s
  {
    if s > 0 { BitShr(n / 2, s - 1, i); }
  }

  lemma {:induction false} BitShl(n: nat, s: nat, i: nat)
    ensures Bit(Shl(n, s), i) <==> i >= s && Bit(n, i - s)
    decreases s
  {
    if s > 0 {
      BitShl(2 * n, s - 1, i);
      if i >= s { assert Shr(2 * n, i - s + 1) == Shr(n, i - s); }
    }
  }

  lemma {:induction false} BitSmall(n: nat, k: nat, i: nat)
    requires n < Pow2(k) && k <= i
    ensures !Bit(n, i)
    decreases i
  {
    if i > 0 { BitSmall(n / 2, if k == 0 then 0 else k - 1, i - 1); }
  }

  /** Reversal, bit by bit. */
  lemma {:induction false} BitReverse(n: nat, k: nat, i: nat)
    ensures Bit(Reverse(n, k), i) <==> i < k && Bit(n, k - 1 - i)
    decreases k
  {
    if k == 0 { BitZero(i); } else {
      ReverseLast(n, k - 1);
      if i > 0 { BitReverse(n, k - 1, i - 1); }
    }
  }

  /** A number is the sum of its bits. */
  lemma {:induction false} BitsDecide(a: nat, b: nat)
    requires forall i: nat :: Bit(a, i) == Bit(b, i)
    ensures a == b
    decreases a + b
  {
    if a > 0 || b > 0 {
      assert Bit(a, 0) == Bit(b, 0);
      forall i: nat ensures Bit(a / 2, i) == Bit(b / 2, i) { assert Bit(a, i + 1) == Bit(b, i + 1); }
      BitsDecide(a / 2, b / 2);
    }
  }

  // ---- The masked reversal ----

  /** Bit `i` lies in the upper half of its block of `2 * h` bits (h is 1, 2, 4 or 8). */
  predicate Upper(i: nat, h: nat) {
    if h == 1 then i % 2 >= 1 else if h == 2 then i % 4 >= 2 else if h == 4 then i % 8 >= 4 else i % 16 >= 8
  }

  /** The mask, from bit `i` up, that selects the upper (or lower) halves of a 16-bit word. */
  function Mask(i: nat, h: nat, upper: bool): nat
    requires i <= 16
    decreases 16 - i
  {
    if i == 16 then 0 else 2 * Mask(i + 1, h, upper) + if Upper(i, h) == upper then 1 else 0
  }

  lemma {:induction false} MaskBit(i: nat, h: nat, upper: bool, j: nat)
    requires i <= 16
    ensures Bit(Mask(i, h, upper), j) <==> i + j < 16 && Upper(i + j, h) == upper
    decreases j
  {
    hide Upper;
    if i == 16 {
      BitZero(j);
    } else {
      DivIs(Mask(i, h, upper), 2, Mask(i + 1, h, upper), if Upper(i, h) == upper then 1 else 0);
      if j > 0 { MaskBit(i + 1, h, upper, j - 1); }
    }
  }

  lemma UpperFlips(i: nat, h: nat)
    requires i < 16 && h in {1, 2, 4, 8}
    ensures Upper(i + h, h) == !Upper(i, h)
    ensures i >= h ==> Upper(i - h, h) == !Upper(i, h)
    ensures if Upper(i, h) then i >= h else i + h < 16
  {
    Step(i, h);
    if i >= h { Step(i - h, h); }
    if h == 1 {} else if h == 2 {} else if h == 4 {}
  }

  lemma Step(i: nat, h: nat)
    requires i < 16 && h in {1, 2, 4, 8}
    ensures Upper(i + h, h) == !Upper(i, h)
  {
    if h == 1 {} else if h == 2 {} else if h == 4 {}
  }

  lemma LowStops(i: nat, h: nat)
    requires 16 <= i < 16 + h && h in {1, 2, 4, 8}
    ensures Upper(i - h, h)
  {
    if h == 1 {} else if h == 2 {} else if h == 4 {}
  }

  function SwapHalves(n: nat, up: nat, low: nat, h: nat): nat {
    Or(Shr(And(n, up), h), Shl(And(n, low), h))
  }

  function Across(i: nat, h: nat): nat { if Upper(i, h) && i >= h then i - h else i + h }

  lemma SwapBit(n: nat, up: nat, low: nat, h: nat, i: nat)
    requires h in {1, 2, 4, 8} && up == Mask(0, h, true) && low == Mask(0, h, false)
    ensures Bit(SwapHalves(n, up, low, h), i) <==> i < 16 && Bit(n, Across(i, h))
  {
    hide Bit, Mask, Upper, And, Or, Shr, Shl;
    BitOr(Shr(And(n, up), h), Shl(And(n, low), h), i);
    BitShr(And(n, up), h, i);
    BitShl(And(n, low), h, i);
    BitAnd(n, up, i + h);
    MaskBit(0, h, true, i + h);
    if i < 16 { UpperFlips(i, h); } else if i < 16 + h { LowStops(i, h); }
    if i >= h {
      BitAnd(n, low, i - h);
      MaskBit(0, h, false, i - h);
    }
  }

  /** stbi__bitreverse16 */
  function Bitreverse16(n: nat): nat {
    var n1 := SwapHalves(n, 0xAAAA, 0x5555, 1);
    var n2 := SwapHalves(n1, 0xCCCC, 0x3333, 2);
    var n3 := SwapHalves(n2, 0xF0F0, 0x0F0F, 4);
    SwapHalves(n3, 0xFF00, 0x00FF, 8)
  }

  lemma Masks1()
    ensures Mask(0, 1, true) == 0xAAAA && Mask(0, 1, false) == 0x5555
  {
    assert Mask(12, 1, true) == 0xa;
    assert Mask(8, 1, true) == 0xaa;
    assert Mask(4, 1, true) == 0xaaa;
    assert Mask(12, 1, false) == 0x5;
    assert Mask(8, 1, false) == 0x55;
    assert Mask(4, 1, false) == 0x555;
  }

  lemma Masks2()
    ensures Mask(0, 2, true) == 0xCCCC && Mask(0, 2, false) == 0x3333
  {
    assert Mask(12, 2, true) == 0xc;
    assert Mask(8, 2, true) == 0xcc;
    assert Mask(4, 2, true) == 0xccc;
    assert Mask(12, 2, false) == 0x3;
    assert Mask(8, 2, false) == 0x33;
    assert Mask(4, 2, false) == 0x333;
  }

  lemma Masks4()
    ensures Mask(0, 4, true) == 0xF0F0 && Mask(0, 4, false) == 0x0F0F
  {
    assert Mask(12, 4, true) == 0xf;
    assert Mask(8, 4, true) == 0xf0;
    assert Mask(4, 4, true) == 0xf0f;
    assert Mask(12, 4, false) == 0x0;
    assert Mask(8, 4, false) == 0xf;
    assert Mask(4, 4, false) == 0xf0;
  }

  lemma Masks8()
    ensures Mask(0, 8, true) == 0xFF00 && Mask(0, 8, false) == 0x00FF
  {
    assert Mask(12, 8, true) == 0xf;
    assert Mask(8, 8, true) == 0xff;
    assert Mask(4, 8, true) == 0xff0;
    assert Mask(12, 8, false) == 0x0;
    assert Mask(8, 8, false) == 0x0;
    assert Mask(4, 8, false) == 0xf;
  }

  /** Four masked swaps reverse the low sixteen bits and drop the rest. */
  lemma Bitreverse16IsReverse(n: nat)
    ensures Bitreverse16(n) == Reverse(n, 16)
  {
    forall i: nat ensures Bit(Bitreverse16(n), i) == Bit(Reverse(n, 16), i) { Bitreverse16Bit(n, i); }
    BitsDecide(Bitreverse16(n), Reverse(n, 16));
  }

  lemma Bitreverse16Bit(n: nat, i: nat)
    ensures Bit(Bitreverse16(n), i) == Bit(Reverse(n, 16), i)
  {
    hide Bit, Mask, SwapHalves, Reverse, Across;
    Masks1();
    Masks2();
    Masks4();
    Masks8();
    var n1 := SwapHalves(n, 0xAAAA, 0x5555, 1);
    var n2 := SwapHalves(n1, 0xCCCC, 0x3333, 2);
    var n3 := SwapHalves(n2, 0xF0F0, 0x0F0F, 4);
    SwapBit(n3, 0xFF00, 0x00FF, 8, i);
    SwapBit(n2, 0xF0F0, 0x0F0F, 4, Across(i, 8));
    SwapBit(n1, 0xCCCC, 0x3333, 2, Across(Across(i, 8), 4));
    SwapBit(n, 0xAAAA, 0x5555, 1, Across(Across(Across(i, 8), 4), 2));
    BitReverse(n, 16, i);
    if i < 16 { Mirrored(i); }
  }

  lemma Mirrored(i: nat)
    requires i < 16
    ensures Across(i, 8) < 16 && Across(Across(i, 8), 4) < 16 && Across(Across(Across(i, 8), 4), 2) < 16
    ensures Across(Across(Across(Across(i, 8), 4), 2), 1) == 15 - i
  {
  }

  /** stbi__bit_reverse */
  function BitReversed(v: nat, bits: nat): (r: nat)
    requires bits <= 16
    ensures r == Reverse(v, bits)
  {
    Bitreverse16IsReverse(v);
    ReverseTop(v, bits, 16);
    ShrIsDiv(Bitreverse16(v), 16 - bits);
    Shr(Bitreverse16(v), 16 - bits)
  }

  // ---- Masks and shifts as arithmetic ----

  lemma {:induction false} ShlIsMul(n: nat, s: nat)
    ensures Shl(n, s) == n * Pow2(s)
    decreases s
  {
    if s > 0 {
      ShlIsMul(2 * n, s - 1);
      Twice(n, Pow2(s - 1));
    }
  }

  lemma Twice(n: nat, p: nat)
    ensures 2 * n * p == n * (2 * p)
  {
  }

  lemma {:induction false} AndMask(n: nat, k: nat)
    ensures And(n, Pow2(k) - 1) == n % Pow2(k)
    decreases k
  {
    if k > 0 {
      Halve(n, Pow2(k - 1));
      AndMask(n / 2, k - 1);
      if n == 0 { DivIs(0, Pow2(k), 0, 0); }
    }
  }

  lemma {:induction false} OrIsAdd(a: nat, b: nat, k: nat)
    requires a < Pow2(k)
    ensures Or(a, Shl(b, k)) == a + b * Pow2(k) && Or(Shl(b, k), a) == a + b * Pow2(k)
  {
    ShlIsMul(b, k);
    OrDisjoint(a, b, k);
  }

  lemma {:induction false} OrDisjoint(a: nat, b: nat, k: nat)
    requires a < Pow2(k)
    ensures Or(a, b * Pow2(k)) == a + b * Pow2(k) && Or(b * Pow2(k), a) == a + b * Pow2(k)
    decreases k
  {
    hide Or;
    if k == 0 { OrZero(b); } else {
      OrDisjoint(a / 2, b, k - 1);
      OrTwice(a, b, Pow2(k - 1));
    }
  }

  lemma OrTwice(a: nat, b: nat, p: nat)
    requires Or(a / 2, b * p) == a / 2 + b * p && Or(b * p, a / 2) == a / 2 + b * p
    ensures Or(a, b * (2 * p)) == a + b * (2 * p) && Or(b * (2 * p), a) == a + b * (2 * p)
  {
    hide Or;
    Double(b, p);
    OrHalf(a, b * p);
  }

  lemma Double(b: nat, p: nat)
    ensures b * (2 * p) == 2 * (b * p) && b * p >= 0
  {
  }

  lemma OrHalf(a: nat, m: nat)
    requires Or(a / 2, m) == a / 2 + m && Or(m, a / 2) == a / 2 + m
    ensures Or(a, 2 * m) == a + 2 * m && Or(2 * m, a) == a + 2 * m
  {
    hide Or;
    OrStep(a, m);
  }

  lemma OrStep(a: nat, m: nat)
    ensures Or(a, 2 * m) == 2 * Or(a / 2, m) + a % 2 && Or(2 * m, a) == 2 * Or(m, a / 2) + a % 2
  {
    assert 2 * m / 2 == m && 2 * m % 2 == 0;
  }

  lemma {:induction false} OrZero(b: nat)
    ensures Or(0, b) == b && Or(b, 0) == b
  {
    if b > 0 { OrZero(b / 2); }
  }

  /** Low bits of low bits. */
  lemma {:induction false} ModMod(n: nat, s: nat, k: nat)
    requires s <= k
    ensures n % Pow2(k) % Pow2(s) == n % Pow2(s)
    decreases s
  {
    if s > 0 {
      var p, q := Pow2(k - 1), Pow2(s - 1);
      Halve(n, p);
      Halve(n, q);
      ModMod(n / 2, s - 1, k - 1);
      LowHalf(n, p, q);
    }
  }

  lemma LowHalf(n: nat, p: nat, q: nat)
    requires p > 0 && q > 0 && n / 2 % p % q == n / 2 % q && n % (2 * p) == 2 * (n / 2 % p) + n % 2
    requires n % (2 * q) == 2 * (n / 2 % q) + n % 2
    ensures n % (2 * p) % (2 * q) == n % (2 * q)
  {
    var x := n / 2 % p;
    Halve(2 * x + n % 2, q);
    assert (2 * x + n % 2) / 2 == x;
  }
}
