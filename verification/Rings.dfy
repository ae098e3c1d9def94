/** Circular buffers: the bytes from a position on, wrapping round at the end. */
module Rings {
  /** The place `i` steps after `at`. */
  function Pos(size: nat, at: nat, i: nat): (r: nat)
    requires at < size && i <= size
    ensures r < size
  {
    if at + i < size then at + i else at + i - size
  }

  function Ring<T>(buf: seq<T>, at: nat, n: nat): (r: seq<T>)
    requires at < |buf| && n <= |buf|
    ensures |r| == n
  {
    seq(n, i requires 0 <= i < n => buf[Pos(|buf|, at, i)])
  }

  /** Taking the first elements moves the start. */
  lemma RingSplit<T>(buf: seq<T>, at: nat, n: nat, k: nat)
    requires at < |buf| && k <= n <= |buf|
    ensures Ring(buf, at, n) == Ring(buf, at, k) + Ring(buf, Pos(|buf|, at, k), n - k)
  {
  }

  /** Storing behind the last element appends it. */
  lemma RingAppend<T>(buf: seq<T>, at: nat, n: nat, b: T)
    requires at < |buf| && n < |buf|
    ensures Ring(buf[Pos(|buf|, at, n) := b], at, n + 1) == Ring(buf, at, n) + [b]
  {
  }

  /** A ring that does not wrap is a slice; one that does is two. */
  lemma RingSlices<T>(buf: seq<T>, at: nat, n: nat)
    requires at < |buf| && n <= |buf|
    ensures Ring(buf, at, n) == if at + n <= |buf| then buf[at..at + n] else buf[at..] + buf[..at + n - |buf|]
  {
  }

  lemma PosSum(size: nat, at: nat, i: nat, j: nat)
    requires at < size && i + j <= size
    ensures Pos(size, Pos(size, at, i), j) == Pos(size, at, i + j)
  {
  }

  lemma RingFirst<T>(buf: seq<T>, at: nat)
    requires at < |buf|
    ensures Ring(buf, at, 1) == [buf[at]]
  {
  }
}
