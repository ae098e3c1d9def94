/** The DEFLATE bit reader of tools/stb_image.h and the two-path Huffman decoder on top of it. */
module BitReading {
  import opened Bits
  import opened CanonicalCodes
  import opened HuffmanTables

  /** Bytes as one number, first byte lowest. */
  function LittleEndian(bytes: seq<nat>): nat {
    if bytes == [] then 0 else bytes[0] + 256 * LittleEndian(bytes[1..])
  }

  // ---- Arithmetic of the bit buffer ----

  /** The bits still to be read: the buffered ones, then the unread bytes. */
  function Joined(buffer: nat, bits: nat, rest: nat): nat { buffer + Pow2(bits) * rest }

  lemma JoinByte(buffer: nat, bits: nat, byte: nat, rest: nat)
    requires buffer < Pow2(bits) && byte < 256
    ensures Or(buffer, Shl(byte, bits)) < Pow2(bits + 8)
    ensures Joined(Or(buffer, Shl(byte, bits)), bits + 8, rest) == Joined(buffer, bits, byte + 256 * rest)
  {
    OrIsAdd(buffer, byte, bits);
    Pow2Add(bits, 8);
    Pow2Values();
    var p := Pow2(bits);
    hide Pow2, Or, Shl;
    Widen(buffer, p, byte, rest);
  }

  lemma Widen(buffer: nat, p: nat, byte: nat, rest: nat)
    requires buffer < p && byte < 256
    ensures buffer + byte * p < p * 256
    ensures buffer + byte * p + p * 256 * rest == buffer + p * (byte + 256 * rest)
  {
    MulLess(byte, 256, p);
    assert p * 256 * rest == p * (256 * rest);
    assert p * (byte + 256 * rest) == p * byte + p * (256 * rest);
  }

  /** Dropping bits from the buffer drops them from the whole. */
  lemma DropBits(buffer: nat, bits: nat, rest: nat, s: nat)
    requires buffer < Pow2(bits) && s <= bits
    ensures Shr(buffer, s) < Pow2(bits - s)
    ensures Joined(Shr(buffer, s), bits - s, rest) == Shr(Joined(buffer, bits, rest), s)
  {
    ShrIsDiv(buffer, s);
    ShrIsDiv(Joined(buffer, bits, rest), s);
    Pow2Add(s, bits - s);
    var p, t := Pow2(s), Pow2(bits - s);
    hide Pow2, Shr;
    Shifted(buffer, p, t, rest);
  }

  lemma Shifted(buffer: nat, p: nat, t: nat, rest: nat)
    requires 0 < p && buffer < p * t
    ensures buffer / p < t
    ensures buffer / p + t * rest == (buffer + p * t * rest) / p
  {
    var q, r := buffer / p, buffer % p;
    assert buffer == q * p + r;
    if q >= t { MulMono(t, q, p); }
    assert p * t * rest == t * rest * p;
    Distribute(q, t * rest, p);
    DivIs(buffer + p * t * rest, p, q + t * rest, r);
  }

  /** The low bits of the whole are the low bits of the buffer. */
  lemma LowBits(buffer: nat, bits: nat, rest: nat, k: nat)
    requires k <= bits
    ensures Joined(buffer, bits, rest) % Pow2(k) == buffer % Pow2(k)
  {
    Pow2Add(k, bits - k);
    LowPart(buffer, Pow2(k), Pow2(bits - k), rest);
  }

  lemma LowPart(buffer: nat, p: nat, t: nat, rest: nat)
    requires 0 < p
    ensures (buffer + p * t * rest) % p == buffer % p
  {
    var q, r := buffer / p, buffer % p;
    assert buffer == q * p + r;
    assert p * t * rest == t * rest * p;
    Distribute(q, t * rest, p);
    DivIs(buffer + p * t * rest, p, q + t * rest, r);
  }

  // ---- Which table answers ----

  /** The lookup index carries enough of the buffer for every short code. */
  lemma ShortMatchIndex(lens: seq<nat>, n: nat, w: nat)
    requires Lengths(lens) && n < |lens| && lens[n] <= FAST_BITS
    ensures Matches(lens, n, w % 512) <==> Matches(lens, n, w)
  {
    Pow2Values();
    ModMod(w, lens[n], 9);
    ReverseDrops(w % 512, w, lens[n]);
  }

  /** A hit in the lookup table names the matching symbol and its length. */
  lemma FastHit(lens: seq<nat>, w: nat) returns (n: nat)
    requires Lengths(lens) && FastEntry(lens, |lens|, w % 512) != 0
    ensures n < |lens| && Matches(lens, n, w)
    ensures FastEntry(lens, |lens|, w % 512) == lens[n] * 512 + n
  {
    FastEntryMeans(lens, |lens|, w % 512);
    n :| 0 <= n < |lens| && ShortMatch(lens, n, w % 512) && FastEntry(lens, |lens|, w % 512) == lens[n] * 512 + n;
    ShortMatchIndex(lens, n, w);
  }

  /** A miss puts the bits beyond every short code. */
  lemma FastMiss(lens: seq<nat>, w: nat)
    requires Lengths(lens) && FastEntry(lens, |lens|, w % 512) == 0
    ensures Edge(lens, FAST_BITS) <= Reverse(w, 16)
  {
    if Reverse(w, 16) < Edge(lens, FAST_BITS) {
      var len := LevelOf(lens, FAST_BITS, Reverse(w, 16));
      var n := EdgesCovered(lens, len, w);
      ShortMatchIndex(lens, n, w);
      FastEntryMeans(lens, |lens|, w % 512);
      assert ShortMatch(lens, n, w % 512);
    }
  }

  lemma {:induction false} LevelOf(lens: seq<nat>, len: nat, k: nat) returns (r: nat)
    requires k < Edge(lens, len)
    ensures 1 <= r <= len && Edge(lens, r - 1) <= k < Edge(lens, r)
    decreases len
  {
    if Edge(lens, len - 1) <= k { r := len; } else { r := LevelOf(lens, len - 1, k); }
  }

  /** Bits beyond the last edge match nothing. */
  lemma NoMatch(lens: seq<nat>, w: nat)
    requires Lengths(lens) && Edge(lens, 15) <= Reverse(w, 16)
    ensures forall n :: 0 <= n < |lens| ==> !Matches(lens, n, w)
  {
    forall n | 0 <= n < |lens| ensures !Matches(lens, n, w) {
      if Matches(lens, n, w) {
        MatchBetweenEdges(lens, n, w);
        EdgeGrows(lens, lens[n], 15);
      }
    }
  }

  /** Between two edges the sorted table holds the match: its index and size checks cannot fail. */
  lemma SlowIndex(lens: seq<nat>, firstcode: seq<nat>, maxcode: seq<nat>, firstsymbol: seq<nat>,
                  size: seq<nat>, value: seq<nat>, s: nat, w: nat) returns (n: nat)
    requires Lengths(lens) && |firstcode| == 16 && |maxcode| == 17 && |firstsymbol| == 16
    requires |size| == SYMBOLS && |value| == SYMBOLS
    requires LimitsOk(lens, firstcode, maxcode, firstsymbol, 16) && SymbolsOk(lens, size, value, |lens|)
    requires 1 <= s <= 15 && Edge(lens, s - 1) <= Reverse(w, 16) < Edge(lens, s)
    ensures n < |lens| && lens[n] == s && Matches(lens, n, w) && Slot(lens, n) < SYMBOLS
    ensures Shr(Reverse(w, 16), 16 - s) - firstcode[s] + firstsymbol[s] == Slot(lens, n)
    ensures size[Slot(lens, n)] == s && value[Slot(lens, n)] == n
  {
    hide Edge, Pow2, Reverse, Shr;
    n := EdgesCovered(lens, s, w);
    ShrIsDiv(Reverse(w, 16), 16 - s);
    ReverseTop(w, s, 16);
    assert SlotOk(lens, n, size, value);
  }

  class Reader {
    const input: seq<nat>
    var pos: nat
    var buffer: nat
    var bits: nat
    var hitEof: bool

    ghost predicate Valid()
      reads this
    {
      Bytes(input) && pos <= |input| && buffer < Pow2(bits) && bits <= 32
    }

    /** Everything still to be read, as one number; past the end there are only zeros. */
    ghost function Stream(): nat
      requires Valid()
      reads this
    {
      Joined(buffer, bits, LittleEndian(input[pos..]))
    }

    /** Bits left before the padding is used up. */
    ghost function Left(): int
      reads this
    {
      bits + 8 * (|input| - pos) - if hitEof then 16 else 0
    }

    constructor (bytes: seq<nat>)
      requires Bytes(bytes)
      ensures Valid() && Stream() == LittleEndian(bytes) && Left() == 8 * |bytes| && input == bytes
    {
      input := bytes;
      pos, buffer, bits, hitEof := 0, 0, 0, false;
      new;
      assert bytes[0..] == bytes;
    }

    /** At least 25 buffered bits, same stream; the buffer's overflow test never fires. */
    method FillBits()
      requires Valid() && bits <= 24
      modifies this`pos, this`buffer, this`bits
      ensures Valid() && Stream() == old(Stream()) && bits > 24
      ensures Left() >= old(Left())
    {
      hide Pow2, Or, Shl, Joined;
      while bits <= 24
        invariant Valid() && Stream() == old(Stream()) && Left() >= old(Left())
        decreases 32 - bits
      {
        AddByte();
      }
    }

    /** One byte of input above the buffered bits; past the end, zero. */
    method AddByte()
      requires Valid() && bits <= 24
      modifies this`pos, this`buffer, this`bits
      ensures Valid() && Stream() == old(Stream()) && bits == old(bits) + 8 && Left() >= old(Left())
    {
      hide Pow2, Or, Shl, Joined;
      var byte := 0;
      if pos < |input| {
        byte := input[pos];
        assert input[pos..][0] == byte && input[pos..][1..] == input[pos + 1..];
        pos := pos + 1;
      } else {
        assert input[pos..] == [];
      }
      JoinByte(buffer, bits, byte, LittleEndian(input[pos..]));
      buffer := Or(buffer, Shl(byte, bits));
      bits := bits + 8;
    }

    /** Drops the lowest bits of the buffer. */
    method Consume(s: nat)
      requires Valid() && s <= bits
      modifies this`buffer, this`bits
      ensures Valid() && Stream() == Shr(old(Stream()), s) && bits == old(bits) - s
    {
      hide Pow2, Shr, Joined;
      DropBits(buffer, bits, LittleEndian(input[pos..]), s);
      buffer := Shr(buffer, s);
      bits := bits - s;
    }

    /** The next `n` bits of the stream, first bit lowest. */
    method Receive(n: nat) returns (k: nat)
      requires Valid() && n <= 16
      modifies this`pos, this`buffer, this`bits
      ensures Valid() && k == old(Stream()) % Pow2(n) && Stream() == Shr(old(Stream()), n)
      ensures Left() >= old(Left()) - n
    {
      hide Pow2, Shr, And, Joined;
      if bits < n {
        FillBits();
      }
      AndMask(buffer, n);
      LowBits(buffer, bits, LittleEndian(input[pos..]), n);
      k := And(buffer, Pow2(n) - 1);
      Consume(n);
    }

    /** The symbol whose canonical code comes next, or -1 when no code matches. */
    method DecodeSlow(h: Huffman, ghost lens: seq<nat>) returns (symbol: int)
      requires Valid() && h.Shape() && h.Built(lens) && bits >= 16
      requires FastEntry(lens, |lens|, buffer % 512) == 0
      modifies this`buffer, this`bits
      ensures Valid()
      ensures Decoded(lens, old(buffer), symbol)
      ensures symbol >= 0 ==> Stream() == Shr(old(Stream()), lens[symbol]) && bits == old(bits) - lens[symbol]
      ensures symbol < 0 ==> buffer == old(buffer) && bits == old(bits)
    {
      hide Pow2, Shr, Joined, Reverse, Edge, LittleEndian, FastEntry, FastOk;
      var k := BitReversed(buffer, 16);
      Pow2Values();
      FastMiss(lens, buffer);
      var s := FAST_BITS + 1;
      while k >= h.maxcode[s]
        invariant FAST_BITS < s <= 16 && Edge(lens, s - 1) <= k
        decreases 16 - s
      {
        assert h.maxcode[..][s] == Edge(lens, s);
        s := s + 1;
      }
      if s >= 16 {
        NoMatch(lens, buffer);
        return -1;
      }
      ghost var n := SlowIndex(lens, h.firstcode[..], h.maxcode[..], h.firstsymbol[..], h.size[..], h.value[..],
                               s, buffer);
      var b := Shr(k, 16 - s) - h.firstcode[s] + h.firstsymbol[s];
      // Neither of the two checks on the table entry can fail.
      if b >= SYMBOLS {
        assert false;
      } else if h.size[b] != s {
        assert false;
      } else {
        symbol := h.value[b];
        Consume(s);
      }
    }

    /** The symbol whose canonical code comes next in the stream. It fails exactly when no code matches, or when
        the padding at the end of the input has been used up. */
    method Decode(h: Huffman, ghost lens: seq<nat>) returns (symbol: int)
      requires Valid() && h.Shape() && h.Built(lens)
      modifies this`pos, this`buffer, this`bits, this`hitEof
      ensures Valid()
      ensures old(bits < 16 && pos == |input| && hitEof) ==>
        symbol == -1 && Stream() == old(Stream()) && old(Left()) < 0
      ensures !old(bits < 16 && pos == |input| && hitEof) ==> Decoded(lens, old(Stream()), symbol)
      ensures symbol >= 0 ==>
        symbol < |lens| && Stream() == Shr(old(Stream()), lens[symbol]) && Left() >= old(Left()) - lens[symbol]
      ensures symbol < 0 ==> Stream() == old(Stream())
    {
      hide Pow2, Shr, Joined, Reverse, Edge, LittleEndian, FastEntry, And, LimitsOk, SymbolsOk, Matches;
      if bits < 16 {
        if pos >= |input| {
          if !hitEof {
            hitEof := true;
            PadBits();
          } else {
            return -1;
          }
        } else {
          FillBits();
        }
      }
      ghost var w := buffer;
      StreamDecides(lens, buffer, bits, LittleEndian(input[pos..]));
      LowNine(buffer);
      assert h.fast[..][buffer % 512] == FastEntry(lens, |lens|, buffer % 512);
      var b := h.fast[And(buffer, 511)];
      if b != 0 {
        ghost var n := FastHit(lens, buffer);
        EntryParts(lens[n], n);
        var s := Shr(b, 9);
        Consume(s);
        return And(b, 511);
      }
      symbol := DecodeSlow(h, lens);
    }

    /** Sixteen zero bits past the end of the input. */
    method PadBits()
      requires Valid() && bits < 16 && pos == |input|
      modifies this`bits
      ensures Valid() && Stream() == old(Stream()) && bits == old(bits) + 16
    {
      assert input[pos..] == [];
      PadZeros(buffer, bits);
      bits := bits + 16;
    }
  }

  lemma PadZeros(buffer: nat, bits: nat)
    requires buffer < Pow2(bits)
    ensures buffer < Pow2(bits + 16)
    ensures Joined(buffer, bits + 16, 0) == Joined(buffer, bits, 0)
  {
    Pow2Add(bits, 16);
    Pow2Values();
    assert Pow2(bits + 16) == Pow2(bits) * 65536;
  }

  lemma LowNine(buffer: nat)
    ensures And(buffer, 511) == buffer % 512
  {
    Pow2Values();
    AndMask(buffer, 9);
  }

  lemma EntryParts(s: nat, n: nat)
    requires n < 512
    ensures Shr(s * 512 + n, 9) == s && And(s * 512 + n, 511) == n
  {
    Pow2Values();
    ShrIsDiv(s * 512 + n, 9);
    AndMask(s * 512 + n, 9);
    DivIs(s * 512 + n, 512, s, n);
  }

  /** With sixteen bits buffered, the buffer answers for the whole stream. */
  lemma StreamDecides(lens: seq<nat>, buffer: nat, bits: nat, rest: nat)
    requires Lengths(lens) && bits >= 16
    ensures forall symbol :: Decoded(lens, buffer, symbol) <==> Decoded(lens, Joined(buffer, bits, rest), symbol)
  {
    var v := Joined(buffer, bits, rest);
    forall n | 0 <= n < |lens| ensures Matches(lens, n, buffer) <==> Matches(lens, n, v) {
      LowBits(buffer, bits, rest, lens[n]);
      ReverseDrops(buffer, v, lens[n]);
    }
  }

  /** The decoder's answer is the only one there is. */
  lemma DecodedOnce(lens: seq<nat>, w: nat, a: int, b: int)
    requires Lengths(lens) && Decoded(lens, w, a) && Decoded(lens, w, b) && a >= -1 && b >= -1
    ensures a == b
  {
    if a >= 0 && b >= 0 { MatchUnique(lens, a, b, w); }
  }

  // ---- Decoding inverts encoding ----

  predicate Encodable(lens: seq<nat>, message: seq<nat>) {
    forall i :: 0 <= i < |message| ==> message[i] < |lens| && lens[message[i]] > 0
  }

  function EncodedBits(lens: seq<nat>, message: seq<nat>): nat
    requires Encodable(lens, message)
  {
    if message == [] then 0 else lens[message[0]] + EncodedBits(lens, message[1..])
  }

  /** The symbols' codes one after the other, each with its first bit lowest, and `tail` after them. */
  function Encoded(lens: seq<nat>, message: seq<nat>, tail: nat): nat
    requires Encodable(lens, message)
  {
    if message == [] then tail
    else Joined(Reverse(Code(lens, message[0]), lens[message[0]]), lens[message[0]], Encoded(lens, message[1..], tail))
  }

  lemma EncodedStep(lens: seq<nat>, message: seq<nat>, tail: nat)
    requires Lengths(lens) && Kraft(lens, |lens|) <= 65536 && Encodable(lens, message) && message != []
    ensures Matches(lens, message[0], Encoded(lens, message, tail))
    ensures Shr(Encoded(lens, message, tail), lens[message[0]]) == Encoded(lens, message[1..], tail)
  {
    var n := message[0];
    var len, code, rest := lens[n], Code(lens, n), Encoded(lens, message[1..], tail);
    var r := Reverse(code, len);
    CodeFits(lens, n);
    DropBits(r, len, rest, len);
    LowBits(r, len, rest, len);
    ReverseDrops(Joined(r, len, rest), r, len);
    ReverseTwice(code, len);
    DivIs(code, Pow2(len), 0, code);
    assert Pow2(0) == 1;
  }

  /** Decoding symbol by symbol gives the encoded message back and leaves what follows it. */
  method DecodeMessage(reader: Reader, h: Huffman, ghost lens: seq<nat>, ghost message: seq<nat>, ghost tail: nat,
                       count: nat) returns (out: seq<int>)
    requires reader.Valid() && h.Shape() && h.Built(lens) && Lengths(lens) && Kraft(lens, |lens|) <= 65536
    requires Encodable(lens, message) && count == |message|
    requires reader.Stream() == Encoded(lens, message, tail) && reader.Left() >= EncodedBits(lens, message)
    modifies reader`pos, reader`buffer, reader`bits, reader`hitEof
    ensures out == message && reader.Valid() && reader.Stream() == tail
  {
    hide Kraft, Joined, Shr, Matches, LittleEndian, Huffman.Built;
    out := [];
    while |out| < count
      invariant reader.Valid() && |out| <= count && h.Built(lens)
      invariant out == message[..|out|]
      invariant reader.Stream() == Encoded(lens, message[|out|..], tail)
      invariant reader.Left() >= EncodedBits(lens, message[|out|..])
    {
      ghost var rest := message[|out|..];
      EncodedStep(lens, rest, tail);
      var symbol := reader.Decode(h, lens);
      assert symbol == rest[0] by { DecodedOnce(lens, Encoded(lens, rest, tail), symbol, rest[0]); }
      out := out + [symbol];
      assert rest[1..] == message[|out|..];
    }
    assert message[|out|..] == [];
  }

  /** The canonical answer for the bits `w`: the one matching symbol, or none. */
  ghost predicate Decoded(lens: seq<nat>, w: nat, symbol: int) {
    if symbol >= 0 then symbol < |lens| && Matches(lens, symbol, w)
    else forall n :: 0 <= n < |lens| ==> !Matches(lens, n, w)
  }
}
