/** Reception on one established TCP connection (src/net/tcp.c). */
module TcpReceive {
  import opened Rings

  const SIZE := 16384
  const WORD := 0x1_0000_0000
  const EAGAIN := 11

  datatype State = Established | CloseWait | Closed

  /** Sequence numbers wrap at 32 bits (section 3.3 of RFC 793); the stream's first byte follows the SYN. */
  function SeqOf(isn: nat, offset: nat): nat { (isn + 1 + offset) % WORD }

  /** Within one stream of less than 2^32 bytes a sequence number names one offset. */
  lemma SeqOnce(isn: nat, a: nat, b: nat)
    requires a < WORD && b < WORD && SeqOf(isn, a) == SeqOf(isn, b)
    ensures a == b
  {
    var q, r := (isn + 1 + a) / WORD, (isn + 1 + b) / WORD;
    assert isn + 1 + a == q * WORD + SeqOf(isn, a) && isn + 1 + b == r * WORD + SeqOf(isn, b);
  }

  lemma SeqNext(isn: nat, a: nat, n: nat)
    ensures (SeqOf(isn, a) + n) % WORD == SeqOf(isn, a + n)
  {
    var q := (isn + 1 + a) / WORD;
    assert isn + 1 + a == q * WORD + SeqOf(isn, a);
    var x := SeqOf(isn, a) + n;
    assert isn + 1 + (a + n) == q * WORD + x;
    assert (q * WORD + x) % WORD == x % WORD by { ModMany(q, x); }
  }

  lemma {:induction false} ModMany(q: nat, x: nat)
    ensures (q * WORD + x) % WORD == x % WORD
    decreases q
  {
    if q > 0 {
      ModMany(q - 1, x);
      assert q * WORD + x == (q - 1) * WORD + x + WORD;
    }
  }

  lemma ModOnce(a: nat, n: nat)
    requires a < WORD
    ensures a % WORD == a && ((a + n) % WORD + 1) % WORD == (a + n + 1) % WORD
  {
  }

  /** How many bytes lie between tail and head. */
  function Fill(head: nat, tail: nat): nat
    requires tail <= SIZE
  {
    if head >= tail then head - tail else SIZE - tail + head
  }

  lemma FillIs(head: nat, tail: nat)
    requires head < SIZE && tail < SIZE
    ensures Fill(head, tail) < SIZE && Pos(SIZE, tail, Fill(head, tail)) == head
    ensures (head + 1) % SIZE == tail <==> Fill(head, tail) == SIZE - 1
    ensures (head + 1) % SIZE != tail ==> Fill((head + 1) % SIZE, tail) == Fill(head, tail) + 1
  {
  }

  function Min(a: nat, b: nat): nat { if a <= b then a else b }

  class Socket {
    const buf: array<nat>
    var head: nat
    var tail: nat
    var rcvNxt: nat
    var state: State
    var active: bool
    const isn: nat
    /** What the peer sends, in all. */
    ghost const stream: seq<nat>
    /** How much of it has been acknowledged, and what has been handed to the reader. */
    ghost var acked: nat
    ghost var delivered: seq<nat>

    ghost predicate Shape()
      reads this`head, this`tail, buf
    {
      buf.Length == SIZE && head < SIZE && tail < SIZE
    }

    /** The bytes waiting in the ring. */
    ghost function Waiting(): seq<nat>
      requires Shape()
      reads this`head, this`tail, buf
    {
      FillIs(head, tail);
      Ring(buf[..], tail, Fill(head, tail))
    }

    ghost function Got(): seq<nat>
      requires Shape()
      reads this`head, this`tail, this`delivered, buf
    {
      delivered + Waiting()
    }

    /** How many more bytes the ring takes. */
    ghost function Room(): nat
      requires Shape()
      reads this`head, this`tail, buf
    {
      FillIs(head, tail);
      SIZE - 1 - Fill(head, tail)
    }

    /** Nothing that was acknowledged has been dropped. */
    ghost predicate Intact()
      requires Shape()
      reads this`head, this`tail, this`delivered, this`acked, buf
    {
      |Got()| == acked
    }

    /** While nothing has been dropped, what was delivered and what waits is the beginning of the peer's stream. */
    ghost predicate Valid()
      reads this, buf
    {
      && Shape() && |stream| < WORD && acked <= |stream| && |Got()| <= acked && rcvNxt < WORD
      && (state == Established ==> rcvNxt == SeqOf(isn, acked))
      && (Intact() ==> Got() == stream[..acked])
    }

    constructor (isn: nat, stream: seq<nat>)
      requires isn < WORD && |stream| < WORD
      ensures Valid() && Intact() && acked == 0 && delivered == [] && state == Established && active
      ensures this.isn == isn && this.stream == stream && fresh(buf) && buf.Length == 16384
    {
      buf := new nat[SIZE](_ => 0);
      head, tail, state, active := 0, 0, Established, true;
      this.isn, rcvNxt := isn, (isn + 1) % WORD;
      this.stream, acked, delivered := stream, 0, [];
    }

    /** A segment of the peer's, in any order, any number of times. Data is taken when it is the next expected, and
        is kept whole exactly when the ring has room for it; other data is ignored. */
    method Receive(ghost offset: nat, seqno: nat, data: seq<nat>, fin: bool, rst: bool)
      requires Valid() && offset + |data| <= |stream| && data == stream[offset..offset + |data|]
      requires seqno == SeqOf(isn, offset)
      modifies this`head, this`rcvNxt, this`state, this`active, this`acked, buf
      ensures Valid() && delivered == old(delivered)
      ensures old(state) == Established && offset == old(acked) ==>
        && acked == old(acked) + |data| && (Intact() <==> old(Intact()) && |data| <= old(Room()))
        && Got() == old(Got()) + data[..Min(|data|, old(Room()))]
        && rcvNxt == (old(rcvNxt) + |data| + (if fin then 1 else 0)) % WORD
      ensures !(old(state) == Established && offset == old(acked)) ==>
        acked == old(acked) && Got() == old(Got()) && rcvNxt == (old(rcvNxt) + (if fin then 1 else 0)) % WORD
      ensures state == if rst then Closed else if fin && old(state) == Established then CloseWait else old(state)
      ensures active == (old(active) && !rst)
    {
      hide Ring, Pos, Fill, Min, Got, Room, SeqOf;
      ModOnce(rcvNxt, |data|);
      ModOnce(rcvNxt, 0);
      Take(offset, seqno, data);
      if fin {
        rcvNxt := (rcvNxt + 1) % WORD;
        if state == Established {
          state := CloseWait;
        }
      }
      if rst {
        state, active := Closed, false;
      }
    }

    /** The data part of a segment. */
    method Take(ghost offset: nat, seqno: nat, data: seq<nat>)
      requires Valid() && offset + |data| <= |stream| && data == stream[offset..offset + |data|]
      requires seqno == SeqOf(isn, offset)
      modifies this`head, this`rcvNxt, this`acked, buf
      ensures Valid() && delivered == old(delivered)
      ensures old(state) == Established && offset == old(acked) ==>
        && acked == old(acked) + |data| && (Intact() <==> old(Intact()) && |data| <= old(Room()))
        && Got() == old(Got()) + data[..Min(|data|, old(Room()))] && rcvNxt == (old(rcvNxt) + |data|) % WORD
      ensures !(old(state) == Established && offset == old(acked)) ==>
        acked == old(acked) && Got() == old(Got()) && rcvNxt == old(rcvNxt)
    {
      hide Ring, Pos, Fill;
      if |data| > 0 && state == Established {
        if seqno == rcvNxt {
          SeqOnce(isn, offset, acked);
          Accept(data);
        }
      }
      if data == [] {
        assert Got() + data[..0] == Got();
        ModOnce(rcvNxt, 0);
      }
    }

    /** In-order data into the ring, as far as it goes; all of it is acknowledged. */
    method Accept(data: seq<nat>)
      requires Valid() && acked + |data| <= |stream| && data == stream[acked..acked + |data|] && |data| > 0
      requires state == Established
      modifies this`head, this`rcvNxt, this`acked, buf
      ensures Valid() && delivered == old(delivered) && acked == old(acked) + |data|
      ensures Intact() <==> old(Intact()) && |data| <= old(Room())
      ensures Got() == old(Got()) + data[..Min(|data|, old(Room()))] && rcvNxt == (old(rcvNxt) + |data|) % WORD
    {
      var kept := Store(data);
      SeqNext(isn, acked, |data|);
      rcvNxt := (rcvNxt + |data|) % WORD;
      acked := acked + |data|;
      if Intact() {
        Kept(stream, old(acked), data, delivered, old(Waiting()), Waiting(), kept);
      }
    }

    /** Bytes into the ring until it is full. */
    method Store(data: seq<nat>) returns (kept: nat)
      requires Shape()
      modifies this`head, buf
      ensures Shape() && kept == Min(|data|, old(Room()))
      ensures Waiting() == old(Waiting()) + data[..kept]
    {
      hide Ring, Pos, Fill;
      kept := 0;
      assert data[..0] == [];
      FillIs(head, tail);
      while kept < |data|
        invariant Shape() && kept <= |data| && Waiting() == old(Waiting()) + data[..kept]
      {
        FillIs(head, tail);
        var next := (head + 1) % SIZE;
        if next == tail {
          break;
        }
        RingAppend(buf[..], tail, Fill(head, tail), data[kept]);
        assert data[..kept] + [data[kept]] == data[..kept + 1];
        ghost var was := buf[..];
        buf[head] := data[kept];
        assert buf[..] == was[head := data[kept]];
        head := next;
        kept := kept + 1;
      }
      FillIs(head, tail);
    }

    /** The bytes waiting on a socket in use. */
    method Available() returns (n: nat)
      requires Shape()
      ensures n == if active then |Waiting()| else 0
    {
      if !active {
        return 0;
      }
      n := if head >= tail then head - tail else SIZE - tail + head;
    }

    /** Hands over the oldest waiting bytes, at most `most`, once the wait for data is over.  An empty ring is an
        error on a dead socket and on one that does not wait. */
    method Recv(most: nat, nonblocking: bool) returns (r: int, out: seq<nat>)
      requires Valid()
      modifies this`tail, this`delivered
      ensures Valid() && delivered == old(delivered) + out && Got() == old(Got())
      ensures |out| == Min(|old(Waiting())|, most)
      ensures r == if |old(Waiting())| > 0 then |out| else if !active then -1 else if nonblocking then -EAGAIN else 0
    {
      hide Ring, Pos, Fill;
      FillIs(head, tail);
      EmptyRing(head, tail);
      out := [];
      assert delivered + [] == delivered;
      if !active && head == tail {
        return -1, [];
      }
      if nonblocking && head == tail {
        return -EAGAIN, [];
      }
      var avail := Fill(head, tail);
      var copy := Min(avail, most);
      if copy == 0 {
        return 0, [];
      }
      RingSplit(buf[..], tail, avail, copy);
      RingSlices(buf[..], tail, copy);
      var linear := SIZE - tail;
      if linear >= copy {
        out := buf[tail..tail + copy];
      } else {
        out := buf[tail..] + buf[..copy - linear];
      }
      TailMoves(head, tail, copy);
      assert delivered + (out + Ring(buf[..], Pos(SIZE, tail, copy), avail - copy))
          == delivered + out + Ring(buf[..], Pos(SIZE, tail, copy), avail - copy);
      tail := (tail + copy) % SIZE;
      delivered := delivered + out;
      r := copy;
    }
  }

  lemma EmptyRing(head: nat, tail: nat)
    requires head < SIZE && tail < SIZE
    ensures Fill(head, tail) == 0 <==> head == tail
  {
  }

  lemma TailMoves(head: nat, tail: nat, n: nat)
    requires head < SIZE && tail < SIZE && n <= Fill(head, tail)
    ensures (tail + n) % SIZE == Pos(SIZE, tail, n) && Fill(head, (tail + n) % SIZE) == Fill(head, tail) - n
  {
  }

  /** When nothing was dropped, the new bytes continue the stream. */
  lemma Kept(stream: seq<nat>, acked: nat, data: seq<nat>, delivered: seq<nat>, before: seq<nat>, after: seq<nat>,
             kept: nat)
    requires acked + |data| <= |stream| && data == stream[acked..acked + |data|] && kept <= |data|
    requires after == before + data[..kept] && |delivered + after| == acked + |data| && |delivered + before| <= acked
    requires |delivered + before| == acked ==> delivered + before == stream[..acked]
    ensures delivered + after == stream[..acked + |data|]
  {
    assert kept == |data| && data[..kept] == data;
    assert delivered + (before + data) == delivered + before + data;
    assert stream[..acked] + stream[acked..acked + |data|] == stream[..acked + |data|];
  }

  /** A segment of 16384 bytes in sequence does not fit the ring, and its last byte is acknowledged and lost. */
  method Overrun(stream: seq<nat>) returns (s: Socket)
    requires SIZE <= |stream| < WORD
    ensures fresh(s) && fresh(s.buf) && s.Valid() && s.stream == stream && s.isn == 0 && s.state == Established
    ensures s.active
    ensures s.acked == SIZE && !s.Intact() && s.Got() == stream[..SIZE - 1] && s.delivered == []
  {
    s := new Socket(0, stream);
    assert s.Waiting() == [] && s.Got() == [] && s.Room() == SIZE - 1;
    var data := stream[..SIZE];
    assert data == stream[0..0 + |data|] && data[..SIZE - 1] == stream[..SIZE - 1];
    s.Receive(0, SeqOf(0, 0), data, false, false);
    assert [] + stream[..SIZE - 1] == stream[..SIZE - 1];
  }

  /** What follows a gap continues the stream exactly when it reads like what is missing. */
  lemma GapPrefix(stream: seq<nat>, p: nat, a: nat, n: nat)
    requires p + n <= |stream| && a + n <= |stream|
    ensures stream[..p] + stream[a..a + n] <= stream <==> stream[p..p + n] == stream[a..a + n]
  {
    var got := stream[..p] + stream[a..a + n];
    assert got[..p] == stream[..p] && got[p..] == stream[a..a + n];
    assert stream[..p + n] == stream[..p] + stream[p..p + n];
    if got <= stream { assert got == stream[..p + n] && stream[..p + n][p..] == stream[p..p + n]; }
  }

  /** After the overrun a reader makes room for a byte, and the next byte in sequence is taken: what is delivered is
      no prefix of the stream unless that byte happens to equal the lost one. */
  method OverrunThenMore(stream: seq<nat>) returns (s: Socket)
    requires SIZE < |stream| < WORD
    ensures s.Valid() && s.stream == stream && s.delivered == stream[..SIZE - 1] + [stream[SIZE]]
    ensures s.delivered <= s.stream <==> stream[SIZE - 1] == stream[SIZE]
  {
    hide Ring, Pos, Fill, SeqOf;
    s := Overrun(stream);
    var r, out := s.Recv(1, true);
    RoomIs(s);
    ghost var got := s.Got();
    var data := stream[SIZE..SIZE + 1];
    s.Receive(SIZE, SeqOf(0, SIZE), data, false, false);
    assert data[..1] == data == [stream[SIZE]];
    r, out := s.Recv(SIZE, true);
    RoomIs(s);
    assert s.delivered == s.Got();
    GapPrefix(stream, SIZE - 1, SIZE, 1);
    assert stream[SIZE - 1..SIZE] == [stream[SIZE - 1]];
  }

  lemma RoomIs(s: Socket)
    requires s.Shape()
    ensures s.Room() == SIZE - 1 - |s.Waiting()| && |s.Waiting()| < SIZE
  {
  }

  /** What the reader has is a prefix of what the peer sent, as long as nothing has been dropped. */
  lemma DeliveredPrefix(s: Socket)
    requires s.Valid() && s.Intact()
    ensures s.delivered <= s.stream
  {
    assert s.delivered <= s.Got();
    assert s.stream[..s.acked] <= s.stream;
  }
}
