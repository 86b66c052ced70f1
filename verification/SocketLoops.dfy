/** The two socket loops shared by the TCP programs: the doubling receive buffer and `send_all`. */
module SocketLoops {
  import opened Bytes
  import opened Kernels

  datatype Drained =
    | Batch(eof: bool)   // nothing is pending any more: EAGAIN, or end of stream
    | TooBig             // the buffer filled up at its largest size
    | NoMemory           // malloc failed
    | NoRoom             // realloc failed
    | RecvFailed

  /** Only connection `id` changed between `before` and `after`, and it was read by exactly `bytes`. */
  ghost predicate ReadsOnly(before: seq<Conn>, after: seq<Conn>, id: nat, bytes: seq<byte>)
    requires id < |before|
  {
    && |after| == |before|
    && after == before[id := after[id]]
    && before[id].Reads(after[id], bytes)
  }

  /** EAGAIN and end of stream mean that nothing is pending. */
  ghost predicate AllRead(c: Conn, n: RecvResult) {
    n.Eof? || n.WouldBlock? ==> c.received == c.arrived && c.ended == n.Eof?
  }

  lemma NothingRead(conns: seq<Conn>, id: nat)
    requires id < |conns|
    ensures ReadsOnly(conns, conns, id, [])
  {
    assert conns[id].received + [] == conns[id].received;
  }

  function Count(n: RecvResult): nat {
    if n.Data? then n.n else 0
  }

  /** One more recv into the free part of the buffer, continuing the reads of `bytes` since `start`. */
  method ReadMore(k: Kernel, fd: nat, buf: array<byte>, total: nat, ghost start: seq<Conn>, ghost bytes: seq<byte>)
      returns (n: RecvResult, ghost bytes': seq<byte>)
    requires k.Valid() && fd in k.open && k.open[fd] < |start|
    requires total < buf.Length && bytes == buf[..total]
    requires ReadsOnly(start, k.conns, k.open[fd], bytes)
    modifies k`replies, k`conns, k`faults, buf
    ensures k.Valid() && |k.replies| <= |old(k.replies)|
    ensures total + Count(n) <= buf.Length && (n.Data? ==> n.n >= 1)
    ensures bytes' == buf[..total + Count(n)]
    ensures |k.conns| == |start| && ReadsOnly(start, k.conns, k.open[fd], bytes')
    ensures AllRead(k.conns[k.open[fd]], n) && k.conns[k.open[fd]].recvs > start[k.open[fd]].recvs
    ensures k.faults == old(k.faults) + (if n.RecvError? then 1 else 0)
  {
    ghost var id := k.open[fd];
    ghost var c := k.conns[id];
    n := k.Recv(fd, buf, total, buf.Length - total);
    ghost var more := buf[total..total + Count(n)];
    bytes' := bytes + more;
    ReadsTwice(start[id], c, k.conns[id], bytes, more);
  }

  /** realloc to a larger size: the bytes are kept, and on failure the old buffer is. */
  method Grow(k: Kernel, buf: array<byte>, newCap: nat, ghost bytes: seq<byte>) returns (ok: bool, tmp: array<byte>)
    requires buf.Length <= newCap && bytes == buf[..]
    modifies k`replies, k`faults
    ensures |k.replies| <= |old(k.replies)| && k.faults == old(k.faults) + (if ok then 0 else 1)
    ensures if ok then fresh(tmp) && tmp.Length == newCap && tmp[..buf.Length] == bytes else tmp == buf
  {
    tmp := buf;
    ok := k.Alloc();
    if ok {
      tmp := new byte[newCap];
      forall j | 0 <= j < buf.Length {
        tmp[j] := buf[j];
      }
    }
  }

  /**
   Reads everything pending on `fd` into a buffer that starts at `initial` bytes and doubles up to
   `max`. Whatever the sizes of the reads: with L bytes pending, the batch is exactly those bytes
   when L < max and it is refused when L >= max. `copied` counts the bytes realloc moved.
   */
  method Drain(k: Kernel, fd: nat, initial: nat, max: nat)
      returns (r: Drained, buf: array<byte>, total: nat, ghost copied: nat)
    requires k.Valid() && fd in k.open
    requires 0 < initial <= max
    modifies k`replies, k`conns, k`faults
    ensures k.Valid() && fresh(buf) && |k.replies| <= |old(k.replies)|
    ensures total <= buf.Length && total <= max
    ensures |k.conns| == |old(k.conns)| && ReadsOnly(old(k.conns), k.conns, k.open[fd], buf[..total])
    ensures var c := k.conns[k.open[fd]]; r.Batch? ==> c.received == c.arrived && c.ended == r.eof
    ensures !r.NoMemory? ==> k.conns[k.open[fd]].recvs > old(k.conns)[k.open[fd]].recvs
    ensures r.Batch? ==> total < max && total < buf.Length && buf[total] == 0
    ensures r.TooBig? ==> total == max
    ensures buf.Length <= initial || buf.Length <= 2 * total
    ensures copied <= 2 * total
    ensures k.faults == old(k.faults) <==> r.Batch? || r.TooBig?
  {
    hide Wired, ReadsOnly;
    var cap := initial;
    total, copied := 0, 0;
    buf := new byte[cap];
    ghost var id, start := k.open[fd], k.conns;
    WiredAt(k.conns, k.open, fd);
    ghost var bytes: seq<byte> := [];
    NothingRead(start, id);
    var ok := k.Alloc();
    if !ok {
      return NoMemory, buf, 0, 0;
    }
    r := Batch(false);
    while true
      invariant k.Valid() && fresh(buf) && buf.Length == cap && |k.replies| <= |old(k.replies)|
      invariant r == Batch(false) && |k.conns| == |start| && k.faults == old(k.faults)
      invariant total > 0 ==> k.conns[id].recvs > start[id].recvs
      invariant total < cap <= max && (cap == initial || cap <= 2 * total)
      invariant copied <= 2 * total && (cap < max ==> copied + initial == cap)
      invariant bytes == buf[..total] && ReadsOnly(start, k.conns, id, bytes)
      decreases max - total
    {
      var n;
      n, bytes := ReadMore(k, fd, buf, total, start, bytes);
      if !n.Data? {
        r := if n.RecvError? then RecvFailed else Batch(n.Eof?);
        break;
      }
      total := total + n.n;
      if total == cap {
        if cap >= max {
          r := TooBig;
          break;
        }
        var newCap := if cap * 2 > max then max else cap * 2;
        ok, buf := Grow(k, buf, newCap, bytes);
        if !ok {
          r := NoRoom;
          break;
        }
        copied := copied + cap;
        cap := newCap;
      }
    }
    if r.Batch? {
      // The terminator always fits: the source's re-allocation for total == cap is never reached.
      buf[total] := 0;
      assert buf[..total] == bytes;
    }
  }

  /** `send_all`: all of `buf[..len]` is handed over, or the call failed and a strict prefix was. */
  method SendAll(k: Kernel, fd: nat, buf: array<byte>, len: nat) returns (ok: bool, ghost sent: nat)
    requires k.Valid() && fd in k.open
    requires len <= buf.Length
    modifies k`replies, k`conns, k`faults
    ensures k.Valid() && |k.replies| <= |old(k.replies)|
    ensures sent <= len && (ok <==> sent == len)
    ensures var id := k.open[fd]; var c := old(k.conns)[id];
            k.conns == old(k.conns)[id := c.Sends(buf[..sent])]
    ensures k.faults == old(k.faults) + (if ok then 0 else 1)
  {
    var done := 0;
    ghost var id := k.open[fd];
    ghost var c := k.conns[id];
    SendsTwice(c, buf[..0], []);
    while done < len
      invariant k.Valid() && |k.replies| <= |old(k.replies)|
      invariant 0 <= done <= len
      invariant k.conns == old(k.conns)[id := c.Sends(buf[..done])]
      invariant k.faults == old(k.faults)
      decreases |k.replies|
    {
      var n := k.Send(fd, buf, done, len - done);
      match n
      case SendInterrupted =>
      case SendError =>
        return false, done;
      case Sent(m) =>
        SendsTwice(c, buf[..done], buf[done..done + m]);
        assert buf[..done + m] == buf[..done] + buf[done..done + m];
        done := done + m;
    }
    return true, done;
  }
}
