/** The receiving ends of the TCP clients: the time and basic clients, and the duplex chat client. */
module TcpClients {
  import opened Bytes
  import opened Kernels
  import opened SocketLoops

  /** The reply of the time client (64, 256) and of the basic client (512, 2048): everything the server
      sent before it closed, if that is less than `max` bytes and nothing failed or timed out. */
  method ReceiveReply(k: Kernel, fd: nat, initial: nat, max: nat) returns (r: Option<seq<byte>>)
    requires k.Valid() && fd in k.open && k.conns[k.open[fd]].received == []
    requires 0 < initial <= max
    modifies k`replies, k`conns, k`faults
    ensures k.Valid()
    ensures var c := k.conns[k.open[fd]];
            && (r.Some? ==> c.ended && r.value == c.received == c.arrived && |r.value| < max)
            && (r.None? && k.faults == old(k.faults) ==> |c.received| == max || (!c.ended && c.received == c.arrived))
  {
    var d, buf, total, copied := Drain(k, fd, initial, max);
    ghost var c := k.conns[k.open[fd]];
    assert c.received == [] + buf[..total] == buf[..total];
    r := if d == Batch(true) then Some(buf[..total]) else None;
  }

  /**
   The duplex client's receiver prints a batch only when recv has reported the end of the stream, so
   it prints at most once, everything the peer ever sent, and only after the peer has closed.
   */
  method Receiver(k: Kernel, fd: nat) returns (printed: seq<seq<byte>>, status: nat)
    requires k.Valid() && fd in k.open
    requires var c := k.conns[k.open[fd]]; c.received == [] && !c.ended
    modifies k`replies, k`conns, k`faults
    ensures k.Valid()
    ensures var c := k.conns[k.open[fd]];
            && (printed == [] || (printed == [c.arrived] && c.ended && 0 < |c.arrived| < 4096))
            && (status == 0 ==> c.ended && printed == if c.arrived == [] then [] else [c.arrived])
    ensures status in {0, 4, 5, 6}
    ensures var c := k.conns[k.open[fd]];
            k.faults == old(k.faults) && status != 0 ==>
              printed == [] &&
              if |c.received| == 4096 then status == 5
              else status == 6 && !c.ended && c.received == c.arrived
  {
    printed := [];
    ghost var id := k.open[fd];
    while true
      invariant k.Valid() && k.open == old(k.open) && id < |k.conns|
      invariant var c := k.conns[id];
                if printed == [] then c.received == [] && !c.ended
                else printed == [c.arrived] && c.received == c.arrived && c.ended && 0 < |c.arrived| < 4096
      invariant k.faults == old(k.faults)
      decreases 1 - |printed|
    {
      ghost var before := k.conns[id];
      var d, buf, total, copied := Drain(k, fd, 256, 4096);
      ghost var c := k.conns[id];
      assert |c.received| == |before.received| + total;
      assert before.received == [] ==> c.received == buf[..total];
      match d
      case NoMemory => return printed, 4;
      case TooBig => return printed, 5;
      case NoRoom => return printed, 5;
      case RecvFailed => return printed, 6;
      case Batch(eof) =>
        if !eof {
          return printed, 6;
        }
        if total == 0 {
          return printed, 0;
        }
        printed := printed + [buf[..total]];
    }
  }
}
