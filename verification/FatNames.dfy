/** 8.3 names of directory entries (src/fs/fat32.c). */
module FatNames {

  const SPACE := 0x20
  const DOT := 0x2E

  function Upper(c: nat): nat { if 0x61 <= c <= 0x7A then c - 32 else c }

  function Lower(c: nat): nat { if 0x41 <= c <= 0x5A then c + 32 else c }

  /** Upper and lower case of the 26 letters; any other character is its own. */
  lemma Cases(i: nat, c: nat)
    requires i < 26
    ensures Upper('a' as nat + i) == 'A' as nat + i == Upper('A' as nat + i)
    ensures Lower('A' as nat + i) == 'a' as nat + i == Lower('a' as nat + i)
    ensures c < 'A' as nat || 'Z' as nat < c < 'a' as nat || 'z' as nat < c ==> Upper(c) == c == Lower(c)
  {
  }

  function UpperAll(s: seq<nat>): (r: seq<nat>)
    ensures |r| == |s|
  {
    seq(|s|, i requires 0 <= i < |s| => Upper(s[i]))
  }

  function LowerAll(s: seq<nat>): (r: seq<nat>)
    ensures |r| == |s|
  {
    seq(|s|, i requires 0 <= i < |s| => Lower(s[i]))
  }

  function Pad(s: seq<nat>, n: nat): (r: seq<nat>)
    requires |s| <= n
    ensures |r| == n
  {
    s + seq(n - |s|, _ => SPACE)
  }

  /** Length of the part before the dot, cut off at `most`. */
  function BaseLength(name: seq<nat>, most: nat): (r: nat)
    ensures r <= |name| && r <= most
  {
    if most == 0 || name == [] || name[0] == DOT then 0 else 1 + BaseLength(name[1..], most - 1)
  }

  function Cut(s: seq<nat>, n: nat): (r: seq<nat>)
    ensures |r| <= n
  {
    if |s| <= n then s else s[..n]
  }

  function Base(name: seq<nat>): (r: seq<nat>)
    ensures |r| <= 8
  {
    name[..BaseLength(name, 8)]
  }

  function Extension(name: seq<nat>): (r: seq<nat>)
    ensures |r| <= 3
  {
    var n := BaseLength(name, 8);
    if n < |name| && name[n] == DOT then Cut(name[n + 1..], 3) else []
  }

  /** The padded, upper-case name as stored in an entry. */
  function To83(name: seq<nat>): (r: seq<nat>)
    ensures |r| == 11
  {
    Pad(UpperAll(Base(name)), 8) + Pad(UpperAll(Extension(name)), 3)
  }

  /** A name of at most eight characters, a dot, and at most three: both parts in upper case, filled up with spaces. */
  lemma To83Is(b: seq<nat>, e: seq<nat>)
    requires |b| <= 8 && |e| <= 3 && '.' as nat !in b
    ensures To83(b + ['.' as nat] + e) ==
      UpperAll(b) + seq(8 - |b|, _ => ' ' as nat) + UpperAll(e) + seq(3 - |e|, _ => ' ' as nat)
  {
    var name := b + ['.' as nat] + e;
    BaseLengthOf(b, ['.' as nat] + e, 8);
    assert name == b + (['.' as nat] + e);
    assert name[..|b|] == b && name[|b| + 1..] == e;
  }

  lemma {:induction false} BaseLengthOf(b: seq<nat>, rest: seq<nat>, most: nat)
    requires |b| <= most && DOT !in b && rest != [] && rest[0] == DOT
    ensures BaseLength(b + rest, most) == |b|
    decreases |b|
  {
    if b == [] {
      assert b + rest == rest;
    } else {
      assert (b + rest)[1..] == b[1..] + rest;
      BaseLengthOf(b[1..], rest, most - 1);
    }
  }

  /** Writing the next character into the padding. */
  lemma PadNext(s: seq<nat>, c: nat, n: nat)
    requires |s| < n
    ensures Pad(UpperAll(s), n)[|s| := Upper(c)] == Pad(UpperAll(s + [c]), n)
  {
    assert UpperAll(s + [c]) == UpperAll(s) + [Upper(c)];
  }

  lemma PadWider(s: seq<nat>)
    requires |s| <= 8
    ensures Pad(s, 11) == Pad(s, 8) + Pad([], 3)
  {
  }

  /** Fills the eleven bytes the way the source does. */
  method NameTo83(name: seq<nat>) returns (out: array<nat>)
    ensures out.Length == 11 && out[..] == To83(name) && fresh(out)
  {
    hide Pad, UpperAll;
    out := new nat[11](_ => SPACE);
    AllSpaces(out[..], name[..0]);
    var i := PutBase(name, out);
    PadWider(UpperAll(name[..i]));
    NoLetters();
    if i < |name| && name[i] == DOT {
      PutExtension(name, i, out);
    }
  }

  /** Up to eight characters before the dot. */
  method PutBase(name: seq<nat>, out: array<nat>) returns (i: nat)
    requires out.Length == 11 && out[..] == Pad(UpperAll(name[..0]), 11)
    modifies out
    ensures i == BaseLength(name, 8) && out[..] == Pad(UpperAll(name[..i]), 11)
  {
    hide Pad, UpperAll;
    i := 0;
    while i < |name| && name[i] != DOT && i < 8
      invariant i <= 8 && i <= |name| && BaseLength(name, 8) == i + BaseLength(name[i..], 8 - i)
      invariant out[..] == Pad(UpperAll(name[..i]), 11)
    {
      PadNext(name[..i], name[i], 11);
      assert name[..i] + [name[i]] == name[..i + 1] && name[i..][1..] == name[i + 1..];
      ghost var was := out[..];
      out[i] := Upper(name[i]);
      assert out[..] == was[i := Upper(name[i])];
      i := i + 1;
    }
  }

  /** Up to three characters after the dot. */
  method PutExtension(name: seq<nat>, n: nat, out: array<nat>)
    requires out.Length == 11 && n < |name| && n <= 8 && out[..] == Pad(UpperAll(name[..n]), 8) + Pad([], 3)
    modifies out
    ensures out[..] == Pad(UpperAll(name[..n]), 8) + Pad(UpperAll(Cut(name[n + 1..], 3)), 3)
  {
    hide Pad, UpperAll;
    var i, j := n + 1, 8;
    NoLetters();
    assert name[n + 1..n + 1] == [];
    while i < |name| && j < 11
      invariant 8 <= j <= 11 && i == n + 1 + (j - 8) && i <= |name|
      invariant out[..] == Pad(UpperAll(name[..n]), 8) + Pad(UpperAll(name[n + 1..i]), 3)
    {
      PadNext(name[n + 1..i], name[i], 3);
      assert name[n + 1..i] + [name[i]] == name[n + 1..i + 1];
      ghost var was := out[..];
      out[j] := Upper(name[i]);
      assert out[..] == was[j := Upper(name[i])];
      i, j := i + 1, j + 1;
    }
    assert name[n + 1..i] == Cut(name[n + 1..], 3);
  }

  lemma AllSpaces(s: seq<nat>, none: seq<nat>)
    requires |s| == 11 && none == [] && forall i :: 0 <= i < 11 ==> s[i] == SPACE
    ensures s == Pad(UpperAll(none), 11)
  {
  }

  lemma NoLetters()
    ensures UpperAll([]) == []
  {
  }

  // ---- Back to a readable name ----

  function Trim(s: seq<nat>): (r: seq<nat>)
    ensures |r| <= |s| && r == s[..|r|] && SPACE !in r && (|r| < |s| ==> s[|r|] == SPACE)
  {
    if s == [] || s[0] == SPACE then [] else
      var t := Trim(s[1..]);
      assert [s[0]] + t == s[..|t| + 1];
      [s[0]] + t
  }

  /** Lower-case base, and a dot and extension when there is one. */
  function DirentName(d: seq<nat>): seq<nat>
    requires |d| == 11
  {
    LowerAll(Trim(d[..8])) + if d[8] != SPACE then [DOT] + LowerAll(Trim(d[8..])) else []
  }

  predicate Plain(c: nat) { 0x21 <= c < 0x7F && c != DOT && !(0x61 <= c <= 0x7A) }

  /** Plain characters, then spaces only. */
  predicate Field(s: seq<nat>) {
    (forall i :: 0 <= i < |Trim(s)| ==> Plain(s[i])) && (forall i :: |Trim(s)| <= i < |s| ==> s[i] == SPACE)
  }

  /** A stored name in canonical form. */
  predicate Canonical83(d: seq<nat>) {
    |d| == 11 && d[0] != SPACE && Field(d[..8]) && Field(d[8..])
  }

  lemma {:induction false} BaseLengthSame(a: seq<nat>, b: seq<nat>, most: nat)
    requires |a| == |b| && forall i :: 0 <= i < |a| ==> (a[i] == DOT <==> b[i] == DOT)
    ensures BaseLength(a, most) == BaseLength(b, most)
    decreases most
  {
    if most > 0 && a != [] && a[0] != DOT { BaseLengthSame(a[1..], b[1..], most - 1); }
  }

  /** Case does not matter to the stored form. */
  lemma To83IgnoresCase(name: seq<nat>)
    ensures To83(LowerAll(name)) == To83(name)
  {
    var low, n := LowerAll(name), BaseLength(name, 8);
    BaseLengthSame(name, low, 8);
    assert Base(low) == LowerAll(Base(name));
    UpperLower(Base(name));
    if n < |name| && name[n] == DOT {
      assert low[n + 1..] == LowerAll(name[n + 1..]);
      assert Extension(low) == LowerAll(Extension(name));
      UpperLower(Extension(name));
    }
  }

  lemma UpperLower(s: seq<nat>)
    ensures UpperAll(LowerAll(s)) == UpperAll(s)
  {
  }

  lemma {:induction false} BaseLengthIs(name: seq<nat>, n: nat, most: nat)
    requires n <= |name| && n <= most && (n == |name| || n == most || name[n] == DOT)
    requires forall i :: 0 <= i < n ==> name[i] != DOT
    ensures BaseLength(name, most) == n
    decreases n
  {
    if n > 0 { BaseLengthIs(name[1..], n - 1, most - 1); }
  }

  lemma FieldBack(s: seq<nat>)
    requires Field(s)
    ensures Pad(UpperAll(LowerAll(Trim(s))), |s|) == s
    ensures forall i :: 0 <= i < |Trim(s)| ==> LowerAll(Trim(s))[i] != DOT
  {
  }

  /** Reading a stored name and storing it again changes nothing. */
  lemma NameRoundTrip(d: seq<nat>)
    requires Canonical83(d)
    ensures To83(DirentName(d)) == d
  {
    var b, e := LowerAll(Trim(d[..8])), LowerAll(Trim(d[8..]));
    var name := DirentName(d);
    FieldBack(d[..8]);
    FieldBack(d[8..]);
    assert d == d[..8] + d[8..];
    assert forall i :: 0 <= i < |b| ==> name[i] == b[i];
    if d[8] != SPACE {
      assert name[|b|] == DOT;
      BaseLengthIs(name, |b|, 8);
      assert name[|b| + 1..] == e && Extension(name) == e;
    } else {
      BaseLengthIs(name, |b|, 8);
      assert Trim(d[8..]) == [] && Extension(name) == [];
    }
    assert name[..|b|] == b && Base(name) == b;
  }

  /** The two comparisons made against an entry: stored form, then readable form. */
  predicate Hit(d: seq<nat>, name: seq<nat>)
    requires |d| == 11
  {
    d == To83(name) || DirentName(d) == LowerAll(name)
  }

  /** On canonical entries the second comparison never finds anything the first does not. */
  lemma HitIsStored(d: seq<nat>, name: seq<nat>)
    requires Canonical83(d)
    ensures Hit(d, name) <==> d == To83(name)
  {
    NameRoundTrip(d);
    To83IgnoresCase(name);
  }

  /** A name of one to eight plain characters, or those, a dot, and one to three more; case is free. */
  predicate CanonicalName(name: seq<nat>) { Canonical83(To83(name)) && LowerAll(name) == DirentName(To83(name)) }

  /** The entries for the directory itself and its parent are never found by a canonical name. */
  lemma DotsNeverHit(d: seq<nat>, name: seq<nat>)
    requires |d| == 11 && d[0] == DOT && CanonicalName(name)
    ensures !Hit(d, name)
  {
    var t := To83(name);
    assert Plain(t[..8][0]) by { assert |Trim(t[..8])| > 0; }
    assert DirentName(d)[0] == DOT;
    assert DirentName(t)[0] == Lower(t[0]);
  }
}
