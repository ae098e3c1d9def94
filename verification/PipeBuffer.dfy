/** The ring buffer of an anonymous pipe (src/ipc/pipe.c); each method is one critical section. */
module PipeBuffer {
  import opened Rings
  import Descriptors

  const SIZE := 4096

  lemma Advance(at: nat)
    requires at < SIZE
    ensures (at + 1) % SIZE == Pos(SIZE, at, 1)
  {
  }

  class Pipe {
    const buf: array<nat>
    var readPos: nat
    var writePos: nat
    var count: nat
    var readersOpen: nat
    var writersOpen: nat
    ghost var written: seq<nat>
    ghost var taken: seq<nat>

    /** Everything written is what was taken followed by what the ring holds. */
    ghost predicate Valid()
      reads this, buf
    {
      && buf.Length == SIZE && readPos < SIZE && writePos < SIZE && count <= SIZE
      && writePos == Pos(SIZE, readPos, count)
      && written == taken + Ring(buf[..], readPos, count)
    }

    /** The open ends, as the descriptor tables count them. */
    function Ends(): Descriptors.Pipe
      reads this
    {
      Descriptors.Pipe(readersOpen, writersOpen)
    }

    constructor ()
      ensures Valid() && written == [] && taken == [] && readersOpen == 1 && writersOpen == 1 && fresh(buf)
      ensures buf.Length == 4096
    {
      buf := new nat[SIZE](_ => 0);
      readPos, writePos, count, readersOpen, writersOpen := 0, 0, 0, 1, 1;
      written, taken := [], [];
    }

    /** A read end goes: `gone` says that it was the last end of both kinds, with which the pipe is freed.  What is in
        the ring stays there. */
    method CloseRead() returns (gone: bool)
      requires Valid() && readersOpen > 0
      modifies this`readersOpen
      ensures Valid() && readersOpen == old(readersOpen) - 1 && (gone <==> readersOpen == 0 && writersOpen == 0)
      ensures Descriptors.PipesAfter(map[0 := old(Ends())], Descriptors.ReadEnd(0)) ==
        if gone then map[] else map[0 := Ends()]
    {
      readersOpen := readersOpen - 1;
      gone := readersOpen == 0 && writersOpen == 0;
    }

    /** A write end goes; a reader that then finds the ring empty is at the end of the stream. */
    method CloseWrite() returns (gone: bool)
      requires Valid() && writersOpen > 0
      modifies this`writersOpen
      ensures Valid() && writersOpen == old(writersOpen) - 1 && (gone <==> readersOpen == 0 && writersOpen == 0)
      ensures Descriptors.PipesAfter(map[0 := old(Ends())], Descriptors.WriteEnd(0)) ==
        if gone then map[] else map[0 := Ends()]
    {
      writersOpen := writersOpen - 1;
      gone := readersOpen == 0 && writersOpen == 0;
    }

    /** Takes the oldest bytes, as many as there are and asked for; nothing only at the end of the stream. */
    method Read(n: nat) returns (out: seq<nat>)
      requires Valid() && (count > 0 || writersOpen == 0)
      modifies this`readPos, this`count, this`taken
      ensures Valid() && |out| == (if n < old(count) then n else old(count))
      ensures taken == old(taken) + out && out <= Ring(buf[..], old(readPos), old(count))
    {
      hide Ring, Pos;
      out := [];
      if count == 0 {
        assert taken + [] == taken;
        return;
      }
      var toRead := if n < count then n else count;
      ghost var all := Ring(buf[..], readPos, count);
      ghost var left := count;
      for i := 0 to toRead
        invariant count == old(count) && taken == old(taken) && |out| == i && left == count - i
        invariant readPos < SIZE && writePos == Pos(SIZE, readPos, left) && all == out + Ring(buf[..], readPos, left)
      {
        RingSplit(buf[..], readPos, left, 1);
        RingFirst(buf[..], readPos);
        PosSum(SIZE, readPos, 1, left - 1);
        Advance(readPos);
        out := out + [buf[readPos]];
        readPos := (readPos + 1) % SIZE;
        left := left - 1;
      }
      count := count - toRead;
      assert taken + (out + Ring(buf[..], readPos, count)) == taken + out + Ring(buf[..], readPos, count);
      taken := taken + out;
    }

    /** Appends as many bytes as there is room for; a full pipe without readers is broken. */
    method Write(src: seq<nat>) returns (n: int)
      requires Valid() && (count < SIZE || readersOpen == 0)
      modifies this`writePos, this`count, this`written, buf
      ensures Valid()
      ensures old(count) == SIZE ==> n == -1 && written == old(written) && count == SIZE
      ensures old(count) < SIZE ==>
        n == (if |src| < SIZE - old(count) then |src| else SIZE - old(count)) && written == old(written) + src[..n]
    {
      hide Ring, Pos;
      if count >= SIZE {
        return -1;
      }
      n := if |src| < SIZE - count then |src| else SIZE - count;
      ghost var before := Ring(buf[..], readPos, count);
      for i := 0 to n
        invariant count == old(count) && written == old(written) && writePos == Pos(SIZE, readPos, count + i)
        invariant Ring(buf[..], readPos, count + i) == before + src[..i]
      {
        RingAppend(buf[..], readPos, count + i, src[i]);
        PosSum(SIZE, readPos, count + i, 1);
        Advance(writePos);
        assert src[..i] + [src[i]] == src[..i + 1];
        ghost var was := buf[..];
        buf[writePos] := src[i];
        assert buf[..] == was[writePos := src[i]];
        writePos := (writePos + 1) % SIZE;
      }
      assert taken + before + src[..n] == taken + (before + src[..n]);
      count := count + n;
      written := written + src[..n];
    }
  }

  /** Everything written before the last writer goes is read, in order, and then the stream ends. */
  method Drain(p: Pipe) returns (out: seq<nat>, rest: seq<nat>)
    requires p.Valid() && p.writersOpen == 1
    modifies p, p.buf
    ensures p.Valid() && p.writersOpen == 0 && p.count == 0 && p.written == old(p.written)
    ensures p.taken == p.written && p.taken == old(p.taken) + out && rest == []
  {
    var gone := p.CloseWrite();
    out := p.Read(SIZE);
    RingNone(p.buf[..], p.readPos);
    rest := p.Read(1);
    assert p.taken + [] == p.taken;
  }

  lemma RingNone(buf: seq<nat>, at: nat)
    requires at < |buf|
    ensures Ring(buf, at, 0) == []
  {
  }
}
