/** PNG scanline reconstruction of tools/stb_image.h against the filters of section 6 of RFC 2083. */
module PngFilters {
  import opened Bits

  function Abs(x: int): nat { if x < 0 then -x else x }

  /** PaethPredictor of section 6.6 of RFC 2083. */
  function PaethPredictor(a: int, b: int, c: int): int {
    var p := a + b - c;
    var pa, pb, pc := Abs(p - a), Abs(p - b), Abs(p - c);
    if pa <= pb && pa <= pc then a else if pb <= pc then b else c
  }

  /** The reformulated predictor agrees with the standard's for all arguments. */
  function Paeth(a: int, b: int, c: int): (r: int)
    ensures r == PaethPredictor(a, b, c)
  {
    var thresh := c * 3 - (a + b);
    var lo := if a < b then a else b;
    var hi := if a < b then b else a;
    var t0 := if hi <= thresh then lo else c;
    if thresh <= lo then hi else t0
  }

  // Filter types of section 6 of RFC 2083, and the synthetic one for averages on the first row.
  const NONE := 0
  const SUB := 1
  const UP := 2
  const AVERAGE := 3
  const PAETH := 4
  const AVERAGE_FIRST := 5

  /** What a filter predicts from the bytes to the left, above, and above left. */
  function Predict(filter: nat, left: nat, up: nat, upLeft: nat): nat {
    if filter == SUB then left
    else if filter == UP then up
    else if filter == AVERAGE then (left + up) / 2
    else if filter == PAETH then PaethPredictor(left, up, upLeft)
    else if filter == AVERAGE_FIRST then left / 2
    else 0
  }

  /** The filter types of sections 6.2 to 6.6 of RFC 2083, by their numbers. */
  lemma FilterTypes(left: nat, up: nat, upLeft: nat)
    ensures Predict(0, left, up, upLeft) == 0 && Predict(1, left, up, upLeft) == left
    ensures Predict(2, left, up, upLeft) == up && Predict(3, left, up, upLeft) == (left + up) / 2
    ensures Predict(4, left, up, upLeft) == PaethPredictor(left, up, upLeft)
  {
  }

  /** The byte one pixel to the left, or zero before the row starts. */
  function Back(row: seq<nat>, bpp: nat, i: nat): nat
    requires i < |row|
  {
    if i < bpp then 0 else row[i - bpp]
  }

  function PredictAt(filter: nat, row: seq<nat>, prior: seq<nat>, bpp: nat, i: nat): nat
    requires i < |row| == |prior|
  {
    Predict(filter, Back(row, bpp, i), prior[i], Back(prior, bpp, i))
  }

  /** The table of replacements on the first row. */
  function FirstRowFilter(filter: nat): nat
    requires filter <= 4
  {
    [NONE, SUB, NONE, AVERAGE_FIRST, SUB][filter]
  }

  /** The replacements do not look at the row above and predict as if it were all zeros. */
  lemma FirstRowPredicts(filter: nat, left: nat, up: nat, upLeft: nat)
    requires filter <= 4
    ensures Predict(FirstRowFilter(filter), left, up, upLeft) == Predict(filter, left, 0, 0)
  {
  }

  // ---- The standard's encoder ----

  function FilterByte(x: nat, predicted: nat): nat { (x + 256 - predicted % 256) % 256 }

  function FilterRow(filter: nat, row: seq<nat>, prior: seq<nat>, bpp: nat): (r: seq<nat>)
    requires |row| == |prior|
    ensures |r| == |row|
  {
    seq(|row|, i requires 0 <= i < |row| => FilterByte(row[i], PredictAt(filter, row, prior, bpp, i)))
  }

  predicate IsImage(rows: seq<seq<nat>>, width: nat) {
    forall j :: 0 <= j < |rows| ==> |rows[j]| == width && Bytes(rows[j])
  }

  function PriorRow(rows: seq<seq<nat>>, width: nat, j: nat): seq<nat>
    requires j <= |rows|
  {
    if j == 0 then Zeros(width) else rows[j - 1]
  }

  /** Each row's filter type, then the filtered row. */
  function Encode(rows: seq<seq<nat>>, filters: seq<nat>, width: nat, bpp: nat): seq<nat>
    requires |rows| == |filters| && IsImage(rows, width)
    decreases |rows|
  {
    if rows == [] then []
    else
      var n := |rows| - 1;
      Encode(rows[..n], filters[..n], width, bpp)
      + [filters[n]] + FilterRow(filters[n], rows[n], PriorRow(rows, width, n), bpp)
  }

  lemma {:induction false} EncodeLength(rows: seq<seq<nat>>, filters: seq<nat>, width: nat, bpp: nat)
    requires |rows| == |filters| && IsImage(rows, width)
    ensures |Encode(rows, filters, width, bpp)| == |rows| * (width + 1)
    decreases |rows|
  {
    hide FilterRow, Bytes;
    if rows != [] {
      var n := |rows| - 1;
      EncodeLength(rows[..n], filters[..n], width, bpp);
      assert |rows| * (width + 1) == n * (width + 1) + (width + 1);
    }
  }

  /** Equal filtered rows over equal prior rows come from equal rows. */
  lemma {:induction false} FilterRowInjective(filter: nat, a: seq<nat>, b: seq<nat>, prior: seq<nat>, bpp: nat, i: nat)
    requires |a| == |b| == |prior| && bpp > 0 && Bytes(a) && Bytes(b) && i < |a|
    requires FilterRow(filter, a, prior, bpp) == FilterRow(filter, b, prior, bpp)
    ensures a[i] == b[i]
    decreases i
  {
    if i >= bpp { FilterRowInjective(filter, a, b, prior, bpp, i - bpp); }
    assert FilterRow(filter, a, prior, bpp)[i] == FilterRow(filter, b, prior, bpp)[i];
    var p := PredictAt(filter, a, prior, bpp, i);
    FilterByteInverse(a[i], p);
    FilterByteInverse(b[i], p);
  }

  lemma SameRow(filter: nat, a: seq<nat>, b: seq<nat>, prior: seq<nat>, bpp: nat)
    requires |a| == |b| == |prior| && bpp > 0 && Bytes(a) && Bytes(b)
    requires FilterRow(filter, a, prior, bpp) == FilterRow(filter, b, prior, bpp)
    ensures a == b
  {
    forall i | 0 <= i < |a| ensures a[i] == b[i] { FilterRowInjective(filter, a, b, prior, bpp, i); }
  }

  lemma FilterByteInverse(x: nat, p: nat)
    requires x < 256
    ensures (FilterByte(x, p) + p) % 256 == x
  {
  }

  /** A filtered byte is undone by adding the same prediction, and nothing else gives it. */
  lemma UnfilterByte(raw: nat, p: nat)
    requires raw < 256
    ensures FilterByte((raw + p) % 256, p) == raw
  {
  }

  /** The encoded bytes determine the filter types and the rows. */
  lemma {:induction false} EncodeInjective(rows: seq<seq<nat>>, filters: seq<nat>, rows': seq<seq<nat>>,
                                           filters': seq<nat>, width: nat, bpp: nat)
    requires |rows| == |filters| == |rows'| == |filters'| && IsImage(rows, width) && IsImage(rows', width) && bpp > 0
    requires Encode(rows, filters, width, bpp) == Encode(rows', filters', width, bpp)
    ensures rows == rows' && filters == filters'
    decreases |rows|
  {
    hide FilterRow, Bytes;
    if rows != [] {
      var n := |rows| - 1;
      var e, e' := Encode(rows[..n], filters[..n], width, bpp), Encode(rows'[..n], filters'[..n], width, bpp);
      var f := FilterRow(filters[n], rows[n], PriorRow(rows, width, n), bpp);
      var f' := FilterRow(filters'[n], rows'[n], PriorRow(rows', width, n), bpp);
      EncodeLength(rows[..n], filters[..n], width, bpp);
      EncodeLength(rows'[..n], filters'[..n], width, bpp);
      Parts(e, filters[n], f, e', filters'[n], f');
      EncodeInjective(rows[..n], filters[..n], rows'[..n], filters'[..n], width, bpp);
      assert n > 0 ==> rows[n - 1] == rows[..n][n - 1] && rows'[n - 1] == rows'[..n][n - 1];
      SameRow(filters[n], rows[n], rows'[n], PriorRow(rows, width, n), bpp);
      assert rows == rows[..n] + [rows[n]] && rows' == rows'[..n] + [rows'[n]];
      assert filters == filters[..n] + [filters[n]] && filters' == filters'[..n] + [filters'[n]];
    }
  }

  lemma Parts(a: seq<nat>, x: nat, b: seq<nat>, a': seq<nat>, x': nat, b': seq<nat>)
    requires |a| == |a'| && |b| == |b'| && a + [x] + b == a' + [x'] + b'
    ensures a == a' && x == x' && b == b'
  {
    var s, s' := a + [x] + b, a' + [x'] + b';
    assert a == s[..|a|] && a' == s'[..|a|];
    assert x == s[|a|] && x' == s'[|a|];
    assert b == s[|a| + 1..] && b' == s'[|a| + 1..];
  }

  // ---- The reconstruction loops, on a buffer holding two rows ----

  /** The first `k` bytes of the current row are reconstructed. */
  ghost predicate Done(buf: seq<nat>, cur: nat, prior: nat, raw: seq<nat>, filter: nat, bpp: nat, k: nat)
    requires cur + |raw| <= |buf| && prior + |raw| <= |buf| && k <= |raw|
  {
    forall i :: 0 <= i < k ==>
      buf[cur + i] == (raw[i] + PredictAt(filter, buf[cur..cur + |raw|], buf[prior..prior + |raw|], bpp, i)) % 256
  }

  /** One byte further: writing byte `k` leaves everything the predictions before it looked at. */
  lemma DoneStep(buf: seq<nat>, cur: nat, prior: nat, raw: seq<nat>, filter: nat, bpp: nat, k: nat, left: nat,
                 upLeft: nat)
    requires cur + |raw| <= |buf| && prior + |raw| <= |buf| && k < |raw| && bpp > 0
    requires cur + |raw| <= prior || prior + |raw| <= cur
    requires Done(buf, cur, prior, raw, filter, bpp, k)
    requires left == (if k < bpp then 0 else buf[cur + k - bpp])
    requires upLeft == (if k < bpp then 0 else buf[prior + k - bpp])
    ensures Done(buf[cur + k := (raw[k] + Predict(filter, left, buf[prior + k], upLeft)) % 256],
                 cur, prior, raw, filter, bpp, k + 1)
  {
    hide Predict;
    var buf': seq<nat> := buf[cur + k := (raw[k] + Predict(filter, left, buf[prior + k], upLeft)) % 256];
    var n := |raw|;
    assert buf'[prior..prior + n] == buf[prior..prior + n];
    forall i | 0 <= i < k + 1
      ensures buf'[cur + i] == (raw[i] + PredictAt(filter, buf'[cur..cur + n], buf'[prior..prior + n], bpp, i)) % 256
    {
      assert Back(buf'[cur..cur + n], bpp, i) == Back(buf[cur..cur + n], bpp, i);
    }
  }

  /** Two separate rows of the buffer, and at least one pixel of input. */
  ghost predicate Setup(size: nat, cur: nat, prior: nat, raw: seq<nat>, bpp: nat) {
    && cur + |raw| <= size && prior + |raw| <= size && (cur + |raw| <= prior || prior + |raw| <= cur)
    && Bytes(raw) && 0 < bpp <= |raw|
  }

  /** Nothing outside the current row changed. */
  ghost predicate OutsideKept(buf: seq<nat>, buf': seq<nat>, cur: nat, n: nat)
    requires |buf| == |buf'|
  {
    forall i :: 0 <= i < |buf| && !(cur <= i < cur + n) ==> buf'[i] == buf[i]
  }

  lemma Begin(buf: seq<nat>, cur: nat, prior: nat, raw: seq<nat>, filter: nat, bpp: nat)
    requires Setup(|buf|, cur, prior, raw, bpp)
    ensures Done(buf, cur, prior, raw, filter, bpp, 0)
  {
  }

  /** Copies the row. */
  method UnfilterNone(buf: array<nat>, cur: nat, prior: nat, raw: seq<nat>, bpp: nat)
    requires Setup(buf.Length, cur, prior, raw, bpp)
    modifies buf
    ensures Done(buf[..], cur, prior, raw, NONE, bpp, |raw|) && OutsideKept(old(buf[..]), buf[..], cur, |raw|)
  {
    hide Done, PaethPredictor;
    Begin(buf[..], cur, prior, raw, NONE, bpp);
    for k := 0 to |raw|
      invariant Done(buf[..], cur, prior, raw, NONE, bpp, k) && OutsideKept(old(buf[..]), buf[..], cur, |raw|)
    {
      DoneStep(buf[..], cur, prior, raw, NONE, bpp, k, if k < bpp then 0 else buf[cur + k - bpp],
               if k < bpp then 0 else buf[prior + k - bpp]);
      ghost var was := buf[..];
      buf[cur + k] := raw[k];
      assert buf[..] == was[cur + k := buf[cur + k]];
    }
  }

  /** Adds the byte to the left. */
  method UnfilterSub(buf: array<nat>, cur: nat, prior: nat, raw: seq<nat>, bpp: nat)
    requires Setup(buf.Length, cur, prior, raw, bpp)
    modifies buf
    ensures Done(buf[..], cur, prior, raw, SUB, bpp, |raw|) && OutsideKept(old(buf[..]), buf[..], cur, |raw|)
  {
    hide Done, PaethPredictor;
    Begin(buf[..], cur, prior, raw, SUB, bpp);
    for k := 0 to bpp
      invariant Done(buf[..], cur, prior, raw, SUB, bpp, k) && OutsideKept(old(buf[..]), buf[..], cur, |raw|)
    {
      DoneStep(buf[..], cur, prior, raw, SUB, bpp, k, 0, 0);
      ghost var was := buf[..];
      buf[cur + k] := raw[k];
      assert buf[..] == was[cur + k := buf[cur + k]];
    }
    for k := bpp to |raw|
      invariant Done(buf[..], cur, prior, raw, SUB, bpp, k) && OutsideKept(old(buf[..]), buf[..], cur, |raw|)
    {
      DoneStep(buf[..], cur, prior, raw, SUB, bpp, k, buf[cur + k - bpp], buf[prior + k - bpp]);
      ghost var was := buf[..];
      buf[cur + k] := (raw[k] + buf[cur + k - bpp]) % 256;
      assert buf[..] == was[cur + k := buf[cur + k]];
    }
  }

  /** Adds the byte above. */
  method UnfilterUp(buf: array<nat>, cur: nat, prior: nat, raw: seq<nat>, bpp: nat)
    requires Setup(buf.Length, cur, prior, raw, bpp)
    modifies buf
    ensures Done(buf[..], cur, prior, raw, UP, bpp, |raw|) && OutsideKept(old(buf[..]), buf[..], cur, |raw|)
  {
    hide Done, PaethPredictor;
    Begin(buf[..], cur, prior, raw, UP, bpp);
    for k := 0 to |raw|
      invariant Done(buf[..], cur, prior, raw, UP, bpp, k) && OutsideKept(old(buf[..]), buf[..], cur, |raw|)
    {
      DoneStep(buf[..], cur, prior, raw, UP, bpp, k, if k < bpp then 0 else buf[cur + k - bpp],
               if k < bpp then 0 else buf[prior + k - bpp]);
      ghost var was := buf[..];
      buf[cur + k] := (raw[k] + buf[prior + k]) % 256;
      assert buf[..] == was[cur + k := buf[cur + k]];
    }
  }

  /** Adds the mean of the bytes to the left and above. */
  method UnfilterAverage(buf: array<nat>, cur: nat, prior: nat, raw: seq<nat>, bpp: nat)
    requires Setup(buf.Length, cur, prior, raw, bpp)
    modifies buf
    ensures Done(buf[..], cur, prior, raw, AVERAGE, bpp, |raw|) && OutsideKept(old(buf[..]), buf[..], cur, |raw|)
  {
    hide Done, PaethPredictor;
    Begin(buf[..], cur, prior, raw, AVERAGE, bpp);
    for k := 0 to bpp
      invariant Done(buf[..], cur, prior, raw, AVERAGE, bpp, k) && OutsideKept(old(buf[..]), buf[..], cur, |raw|)
    {
      DoneStep(buf[..], cur, prior, raw, AVERAGE, bpp, k, 0, 0);
      ghost var was := buf[..];
      buf[cur + k] := (raw[k] + buf[prior + k] / 2) % 256;
      assert buf[..] == was[cur + k := buf[cur + k]];
    }
    for k := bpp to |raw|
      invariant Done(buf[..], cur, prior, raw, AVERAGE, bpp, k) && OutsideKept(old(buf[..]), buf[..], cur, |raw|)
    {
      DoneStep(buf[..], cur, prior, raw, AVERAGE, bpp, k, buf[cur + k - bpp], buf[prior + k - bpp]);
      ghost var was := buf[..];
      buf[cur + k] := (raw[k] + (buf[prior + k] + buf[cur + k - bpp]) / 2) % 256;
      assert buf[..] == was[cur + k := buf[cur + k]];
    }
  }

  /** Adds the Paeth prediction. */
  method UnfilterPaeth(buf: array<nat>, cur: nat, prior: nat, raw: seq<nat>, bpp: nat)
    requires Setup(buf.Length, cur, prior, raw, bpp)
    modifies buf
    ensures Done(buf[..], cur, prior, raw, PAETH, bpp, |raw|) && OutsideKept(old(buf[..]), buf[..], cur, |raw|)
  {
    hide Done, PaethPredictor;
    Begin(buf[..], cur, prior, raw, PAETH, bpp);
    for k := 0 to bpp
      invariant Done(buf[..], cur, prior, raw, PAETH, bpp, k) && OutsideKept(old(buf[..]), buf[..], cur, |raw|)
    {
      DoneStep(buf[..], cur, prior, raw, PAETH, bpp, k, 0, 0);
      PaethEdge(buf[prior + k]);
      ghost var was := buf[..];
      buf[cur + k] := (raw[k] + buf[prior + k]) % 256;
      assert buf[..] == was[cur + k := buf[cur + k]];
    }
    for k := bpp to |raw|
      invariant Done(buf[..], cur, prior, raw, PAETH, bpp, k) && OutsideKept(old(buf[..]), buf[..], cur, |raw|)
    {
      DoneStep(buf[..], cur, prior, raw, PAETH, bpp, k, buf[cur + k - bpp], buf[prior + k - bpp]);
      ghost var was := buf[..];
      buf[cur + k] := (raw[k] + Paeth(buf[cur + k - bpp], buf[prior + k], buf[prior + k - bpp])) % 256;
      assert buf[..] == was[cur + k := buf[cur + k]];
    }
  }

  /** Adds half the byte to the left. */
  method UnfilterAverageFirst(buf: array<nat>, cur: nat, prior: nat, raw: seq<nat>, bpp: nat)
    requires Setup(buf.Length, cur, prior, raw, bpp)
    modifies buf
    ensures Done(buf[..], cur, prior, raw, AVERAGE_FIRST, bpp, |raw|) && OutsideKept(old(buf[..]), buf[..], cur, |raw|)
  {
    hide Done, PaethPredictor;
    Begin(buf[..], cur, prior, raw, AVERAGE_FIRST, bpp);
    for k := 0 to bpp
      invariant Done(buf[..], cur, prior, raw, AVERAGE_FIRST, bpp, k) && OutsideKept(old(buf[..]), buf[..], cur, |raw|)
    {
      DoneStep(buf[..], cur, prior, raw, AVERAGE_FIRST, bpp, k, 0, 0);
      ghost var was := buf[..];
      buf[cur + k] := raw[k];
      assert buf[..] == was[cur + k := buf[cur + k]];
    }
    for k := bpp to |raw|
      invariant Done(buf[..], cur, prior, raw, AVERAGE_FIRST, bpp, k) && OutsideKept(old(buf[..]), buf[..], cur, |raw|)
    {
      DoneStep(buf[..], cur, prior, raw, AVERAGE_FIRST, bpp, k, buf[cur + k - bpp], buf[prior + k - bpp]);
      ghost var was := buf[..];
      buf[cur + k] := (raw[k] + buf[cur + k - bpp] / 2) % 256;
      assert buf[..] == was[cur + k := buf[cur + k]];
    }
  }

  lemma PaethEdge(up: nat)
    ensures PaethPredictor(0, up, 0) == up
  {
  }

  /** A finished row filters back to its input. */
  lemma DoneMeansFiltered(buf: seq<nat>, cur: nat, prior: nat, raw: seq<nat>, filter: nat, bpp: nat)
    requires Setup(|buf|, cur, prior, raw, bpp) && Done(buf, cur, prior, raw, filter, bpp, |raw|)
    ensures Bytes(buf[cur..cur + |raw|])
    ensures FilterRow(filter, buf[cur..cur + |raw|], buf[prior..prior + |raw|], bpp) == raw
  {
    var n := |raw|;
    var row, above := buf[cur..cur + n], buf[prior..prior + n];
    forall i | 0 <= i < n ensures row[i] < 256 && FilterByte(row[i], PredictAt(filter, row, above, bpp, i)) == raw[i] {
      assert row[i] == buf[cur + i];
      UnfilterByte(raw[i], PredictAt(filter, row, above, bpp, i));
    }
  }

  /** On the first row the replacement filters do what the named ones do below a row of zeros. */
  lemma FirstRowFiltered(filter: nat, row: seq<nat>, above: seq<nat>, raw: seq<nat>, bpp: nat)
    requires filter <= 4 && |row| == |above| == |raw|
    requires FilterRow(FirstRowFilter(filter), row, above, bpp) == raw
    ensures FilterRow(filter, row, Zeros(|row|), bpp) == raw
  {
    forall i | 0 <= i < |row| ensures FilterRow(filter, row, Zeros(|row|), bpp)[i] == raw[i] {
      assert FilterRow(FirstRowFilter(filter), row, above, bpp)[i] == raw[i];
      FirstRowPredicts(filter, Back(row, bpp, i), above[i], Back(above, bpp, i));
    }
  }

  /** Reconstructs one row with the filter it names. */
  method UnfilterRow(buf: array<nat>, cur: nat, prior: nat, raw: seq<nat>, filter: nat, bpp: nat)
    requires Setup(buf.Length, cur, prior, raw, bpp) && filter <= 5
    modifies buf
    ensures OutsideKept(old(buf[..]), buf[..], cur, |raw|)
    ensures Bytes(buf[cur..cur + |raw|])
    ensures FilterRow(filter, buf[cur..cur + |raw|], buf[prior..prior + |raw|], bpp) == raw
  {
    hide Done, FilterRow, OutsideKept, Bytes;
    if filter == NONE { UnfilterNone(buf, cur, prior, raw, bpp); }
    else if filter == SUB { UnfilterSub(buf, cur, prior, raw, bpp); }
    else if filter == UP { UnfilterUp(buf, cur, prior, raw, bpp); }
    else if filter == AVERAGE { UnfilterAverage(buf, cur, prior, raw, bpp); }
    else if filter == PAETH { UnfilterPaeth(buf, cur, prior, raw, bpp); }
    else { UnfilterAverageFirst(buf, cur, prior, raw, bpp); }
    DoneMeansFiltered(buf[..], cur, prior, raw, filter, bpp);
    assert buf[..][cur..cur + |raw|] == buf[cur..cur + |raw|];
    assert buf[..][prior..prior + |raw|] == buf[prior..prior + |raw|];
  }

  // ---- The whole image ----

  function Offset(width: nat, j: nat): nat { j * (width + 1) }

  lemma OffsetStep(width: nat, j: nat)
    ensures Offset(width, j + 1) == Offset(width, j) + width + 1
  {
  }

  lemma OffsetGrows(width: nat, i: nat, j: nat)
    requires i <= j
    ensures Offset(width, i) <= Offset(width, j)
  {
    assert (j - i) * (width + 1) >= 0;
    assert (j - i) * (width + 1) == Offset(width, j) - Offset(width, i);
  }

  ghost predicate Enough(raw: seq<nat>, width: nat, height: nat) { |raw| >= Offset(width, height) }

  /** The filter type in front of row `j`. */
  ghost function FilterAt(raw: seq<nat>, width: nat, height: nat, j: nat): nat
    requires Enough(raw, width, height) && j < height
  {
    OffsetStep(width, j);
    OffsetGrows(width, j + 1, height);
    raw[Offset(width, j)]
  }

  ghost function Filters(raw: seq<nat>, width: nat, height: nat, upto: nat): (r: seq<nat>)
    requires Enough(raw, width, height) && upto <= height
    ensures |r| == upto
  {
    if upto == 0 then [] else Filters(raw, width, height, upto - 1) + [FilterAt(raw, width, height, upto - 1)]
  }

  datatype Outcome = Image(rows: seq<seq<nat>>) | InvalidFilter | NotEnoughPixels

  /** `rows` are the first rows of the image that `raw` encodes. */
  ghost predicate Decodes(raw: seq<nat>, width: nat, height: nat, bpp: nat, rows: seq<seq<nat>>)
    requires Enough(raw, width, height) && |rows| <= height
  {
    && IsImage(rows, width)
    && Offset(width, |rows|) <= |raw|
    && Encode(rows, Filters(raw, width, height, |rows|), width, bpp) == raw[..Offset(width, |rows|)]
  }

  lemma DecodesNext(raw: seq<nat>, width: nat, height: nat, bpp: nat, rows: seq<seq<nat>>, row: seq<nat>)
    requires Enough(raw, width, height) && |rows| < height && Decodes(raw, width, height, bpp, rows)
    requires |row| == width && Bytes(row)
    requires Offset(width, |rows|) + width + 1 <= |raw|
    requires FilterRow(FilterAt(raw, width, height, |rows|), row, PriorRow(rows, width, |rows|), bpp)
             == raw[Offset(width, |rows|) + 1..Offset(width, |rows|) + 1 + width]
    ensures Decodes(raw, width, height, bpp, rows + [row])
  {
    hide FilterRow, Offset, Bytes;
    var n := |rows|;
    var rows', o := rows + [row], Offset(width, n);
    OffsetStep(width, n);
    var filters := Filters(raw, width, height, n);
    var t := FilterAt(raw, width, height, n);
    assert rows'[..n] == rows && (filters + [t])[..n] == filters;
    assert PriorRow(rows', width, n) == PriorRow(rows, width, n);
    assert raw[..o] + [raw[o]] + raw[o + 1..o + 1 + width] == raw[..o + 1 + width];
  }

  /** Reconstruction of a whole image. It succeeds exactly on enough data with filter types 0 to 4, and then the
      rows it delivers are those the data encodes. */
  method Reconstruct(raw: seq<nat>, width: nat, bpp: nat, height: nat) returns (result: Outcome)
    requires Bytes(raw) && 0 < bpp <= width
    ensures result == NotEnoughPixels <==> !Enough(raw, width, height)
    ensures result == InvalidFilter <==>
      Enough(raw, width, height) && exists j :: 0 <= j < height && FilterAt(raw, width, height, j) > 4
    ensures result.Image? ==> |result.rows| == height && Decodes(raw, width, height, bpp, result.rows)
  {
    hide FilterRow, Offset, Encode;
    if |raw| < Offset(width, height) {
      return NotEnoughPixels;
    }
    var buf := new nat[2 * width];
    var rows: seq<seq<nat>> := [];
    var used := 0;
    Nothing(raw, width, height, bpp);
    for j := 0 to height
      invariant |rows| == j && used == Offset(width, j) && Decodes(raw, width, height, bpp, rows)
      invariant
        forall i {:trigger FilterAt(raw, width, height, i)} :: 0 <= i < j ==> FilterAt(raw, width, height, i) <= 4
      invariant
        j > 0 ==> buf[(if j % 2 == 1 then 0 else width)..(if j % 2 == 1 then width else 2 * width)] == rows[j - 1]
    {
      OffsetStep(width, j);
      OffsetGrows(width, j + 1, height);
      var filter := raw[used];
      assert filter == FilterAt(raw, width, height, j);
      if filter > 4 {
        return InvalidFilter;
      }
      var row := ReconstructRow(buf, j, rows, raw[used + 1..used + 1 + width], filter, width, bpp);
      DecodesNext(raw, width, height, bpp, rows, row);
      rows := rows + [row];
      used := used + 1 + width;
    }
    return Image(rows);
  }

  lemma Nothing(raw: seq<nat>, width: nat, height: nat, bpp: nat)
    requires Enough(raw, width, height)
    ensures Offset(width, 0) == 0 && Decodes(raw, width, height, bpp, [])
  {
  }

  lemma Halves(j: nat, width: nat)
    ensures j % 2 * width == (if j % 2 == 0 then 0 else width)
    ensures (j + 1) % 2 * width == (if j % 2 == 1 then 0 else width)
  {
  }

  /** One row into its half of the buffer; the other half holds the row above. */
  method ReconstructRow(buf: array<nat>, j: nat, ghost rows: seq<seq<nat>>, raw: seq<nat>, filter: nat, width: nat,
                        bpp: nat)
    returns (row: seq<nat>)
    requires buf.Length == 2 * width && |raw| == width && 0 < bpp <= width && filter <= 4 && |rows| == j
    requires Bytes(raw) && IsImage(rows, width)
    requires j > 0 ==> buf[(if j % 2 == 1 then 0 else width)..(if j % 2 == 1 then width else 2 * width)] == rows[j - 1]
    modifies buf
    ensures |row| == width && Bytes(row) && FilterRow(filter, row, PriorRow(rows, width, j), bpp) == raw
    ensures row == buf[(if j % 2 == 0 then 0 else width)..(if j % 2 == 0 then width else 2 * width)]
  {
    hide FilterRow, Bytes;
    Halves(j, width);
    var cur := j % 2 * width;
    var prior := (j + 1) % 2 * width;
    var used := if j == 0 then FirstRowFilter(filter) else filter;
    UnfilterRow(buf, cur, prior, raw, used, bpp);
    row := buf[cur..cur + width];
    if j == 0 {
      FirstRowFiltered(filter, row, buf[prior..prior + width], raw, bpp);
    } else {
      assert buf[prior..prior + width] == rows[j - 1];
    }
  }

  lemma {:induction false} FiltersRecovered(rows: seq<seq<nat>>, filters: seq<nat>, width: nat, bpp: nat, j: nat)
    requires |rows| == |filters| && IsImage(rows, width) && j < |rows|
    ensures Offset(width, j) < |Encode(rows, filters, width, bpp)|
    ensures Encode(rows, filters, width, bpp)[Offset(width, j)] == filters[j]
    decreases |rows|
  {
    hide FilterRow, Bytes;
    var n := |rows| - 1;
    EncodeLength(rows[..n], filters[..n], width, bpp);
    if j < n { FiltersRecovered(rows[..n], filters[..n], width, bpp, j); }
  }

  lemma {:induction false} FiltersAre(raw: seq<nat>, width: nat, height: nat, filters: seq<nat>, upto: nat)
    requires Enough(raw, width, height) && upto <= height == |filters|
    requires forall j {:trigger FilterAt(raw, width, height, j)} ::
      0 <= j < height ==> FilterAt(raw, width, height, j) == filters[j]
    ensures Filters(raw, width, height, upto) == filters[..upto]
    decreases upto
  {
    if upto > 0 { FiltersAre(raw, width, height, filters, upto - 1); }
  }

  /** Every image, under every choice of filters, survives encoding and reconstruction. */
  method RoundTrip(rows: seq<seq<nat>>, filters: seq<nat>, width: nat, bpp: nat) returns (result: Outcome)
    requires |rows| == |filters| && IsImage(rows, width) && 0 < bpp <= width
    requires forall j :: 0 <= j < |filters| ==> filters[j] <= 4
    ensures result == Image(rows)
  {
    hide FilterRow, Encode, Offset;
    var raw := Encode(rows, filters, width, bpp);
    var height := |rows|;
    EncodedSize(rows, filters, width, bpp);
    EncodedBytes(rows, filters, width, bpp);
    forall j | 0 <= j < height ensures FilterAt(raw, width, height, j) == filters[j] {
      FiltersRecovered(rows, filters, width, bpp, j);
    }
    FiltersAre(raw, width, height, filters, height);
    assert filters[..height] == filters && raw[..Offset(width, height)] == raw;
    result := Reconstruct(raw, width, bpp, height);
    EncodeInjective(rows, filters, result.rows, filters, width, bpp);
  }

  lemma EncodedSize(rows: seq<seq<nat>>, filters: seq<nat>, width: nat, bpp: nat)
    requires |rows| == |filters| && IsImage(rows, width)
    ensures |Encode(rows, filters, width, bpp)| == Offset(width, |rows|)
  {
    EncodeLength(rows, filters, width, bpp);
  }

  lemma {:induction false} EncodedBytes(rows: seq<seq<nat>>, filters: seq<nat>, width: nat, bpp: nat)
    requires |rows| == |filters| && IsImage(rows, width) && forall j :: 0 <= j < |filters| ==> filters[j] <= 4
    ensures Bytes(Encode(rows, filters, width, bpp))
    decreases |rows|
  {
    if rows != [] {
      var n := |rows| - 1;
      EncodedBytes(rows[..n], filters[..n], width, bpp);
      FilteredBytes(filters[n], rows[n], PriorRow(rows, width, n), bpp);
    }
  }

  lemma FilteredBytes(filter: nat, row: seq<nat>, prior: seq<nat>, bpp: nat)
    requires |row| == |prior|
    ensures Bytes(FilterRow(filter, row, prior, bpp))
  {
  }
}
