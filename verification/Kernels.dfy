/**
 The operating system as the TCP programs see it. A script of replies, fixed in advance and
 quantified over by every theorem, plays the adversary: it picks short reads, short sends, EINTR,
 EAGAIN, end of stream, failures, refused allocations and the descriptor number of each accepted
 connection. A reply that POSIX would not allow at that point, or a script that has run out, counts
 as a failure of the call. Descriptor numbers are reused; connections are numbered by acceptance.
 */
module Kernels {
  import opened Bytes

  /** One accepted connection, over its whole life. */
  datatype Conn = Conn(
    fd: nat,              // the descriptor it was given
    arrived: seq<byte>,   // everything the peer's bytes brought to this host
    received: seq<byte>,  // the part of it that recv has handed over
    ended: bool,          // the end of the stream was reported
    recvs: nat,           // how often recv was called on it
    sent: seq<byte>,      // everything accepted by send
    closes: nat)          // how often it was closed
  {
    function Sends(bytes: seq<byte>): Conn {
      this.(sent := sent + bytes)
    }

    /** What recv answers on this connection when at most `want` bytes are asked for. */
    function Answer(reply: Reply, want: nat): (r: (RecvResult, Conn, seq<byte>))
      requires 0 < want && received <= arrived
      ensures Reads(r.1, r.2) && |r.2| <= want
      ensures r.0 == Data(|r.2|) || (r.2 == [] && !r.0.Data?)
      ensures r.2 == [] <==> !r.0.Data?
      ensures r.1.recvs == recvs + 1
      ensures r.0.Eof? || r.0.WouldBlock? ==> r.1.received == r.1.arrived && r.1.ended == r.0.Eof?
    {
      assert received + [] == received;
      var called := this.(recvs := recvs + 1);
      if !reply.Incoming? then (RecvError, called, []) else
      var c := if ended then called else called.(arrived := arrived + reply.more);
      var pending := c.arrived[|received|..];
      assert c.arrived == received + pending;
      if pending == [] then
        var c' := c.(ended := ended || reply.closing);
        (if c'.ended then Eof else WouldBlock, c', [])
      else
        var n := Clamp(reply.take, if |pending| < want then |pending| else want);
        assert received + pending[..n] <= c.arrived;
        (Data(n), c.(received := received + pending[..n]), pending[..n])
    }

    /** `after` is this connection once recv has handed over exactly `bytes` more. */
    ghost predicate Reads(after: Conn, bytes: seq<byte>) {
      && after == this.(arrived := after.arrived, received := received + bytes, ended := after.ended,
                        recvs := after.recvs)
      && recvs <= after.recvs
      && arrived <= after.arrived
      && (received <= arrived ==> after.received <= after.arrived)
      && (ended ==> after.ended && after.arrived == arrived)
    }
  }

  lemma ReadsTwice(c: Conn, c1: Conn, c2: Conn, b1: seq<byte>, b2: seq<byte>)
    requires c.Reads(c1, b1) && c1.Reads(c2, b2)
    ensures c.Reads(c2, b1 + b2)
  {
    assert (c.received + b1) + b2 == c.received + (b1 + b2);
  }

  lemma SendsTwice(c: Conn, b1: seq<byte>, b2: seq<byte>)
    ensures c.Sends(b1).Sends(b2) == c.Sends(b1 + b2)
    ensures c.Sends([]) == c
  {
    assert (c.sent + b1) + b2 == c.sent + (b1 + b2);
  }

  datatype Reply =
    | Ready(fds: set<nat>)
    | NewConnection(fd: nat)
    | Incoming(more: seq<byte>, take: nat, closing: bool)
    | Outgoing(take: nat)
    | Interrupted
    | Granted
    | Refused

  /** A successful select: what it was asked, and what it reported. */
  datatype Poll = Poll(nfds: nat, watched: set<nat>, ready: set<nat>)

  datatype RecvResult = Data(n: nat) | Eof | WouldBlock | RecvError
  datatype SendResult = Sent(n: nat) | SendInterrupted | SendError

  function Clamp(n: nat, max: nat): (r: nat)
    requires 0 < max
    ensures 1 <= r <= max
    ensures 1 <= n <= max ==> r == n
  {
    if n == 0 then 1 else if n <= max then n else max
  }

  /** Each open descriptor belongs to one connection, the one that got it last and is not closed;
      nothing is closed twice. */
  ghost predicate Wired(conns: seq<Conn>, open: map<nat, nat>) {
    && (forall fd | fd in open :: open[fd] < |conns| && conns[open[fd]].fd == fd && conns[open[fd]].closes == 0)
    && (forall id | 0 <= id < |conns| ::
          && conns[id].received <= conns[id].arrived
          && conns[id].closes <= 1
          && (conns[id].closes == 0 ==> conns[id].fd in open && open[conns[id].fd] == id))
  }

  lemma WiredAt(conns: seq<Conn>, open: map<nat, nat>, fd: nat)
    requires Wired(conns, open) && fd in open
    ensures open[fd] < |conns| && conns[open[fd]].fd == fd && conns[open[fd]].closes == 0
  {
  }

  lemma CloseKeepsWired(conns: seq<Conn>, open: map<nat, nat>, fd: nat)
    requires Wired(conns, open) && fd in open
    ensures Wired(conns[open[fd] := conns[open[fd]].(closes := 1)], open - {fd})
  {
  }

  lemma WiredReceives(conns: seq<Conn>, open: map<nat, nat>, id: nat)
    requires Wired(conns, open) && id < |conns|
    ensures conns[id].received <= conns[id].arrived
    ensures forall c: Conn, bytes: seq<byte> | conns[id].Reads(c, bytes) :: Wired(conns[id := c], open)
  {
  }

  class Kernel {
    var replies: seq<Reply>
    var conns: seq<Conn>
    var open: map<nat, nat>      // client descriptors now open, and whose they are
    var faults: nat              // failed recv, send and allocation calls
    var accepts: nat             // calls of accept
    var polls: seq<Poll>         // the successful calls of select
    const reserved: set<nat>     // the listener and whatever else the process holds open

    constructor (replies: seq<Reply>, reserved: set<nat>)
      ensures Valid() && conns == [] && open == map[]
      ensures this.replies == replies && this.reserved == reserved && faults == 0 && polls == []
    {
      this.replies := replies;
      this.reserved := reserved;
      conns, open, faults, accepts, polls := [], map[], 0, 0, [];
    }

    ghost predicate Valid()
      reads this`conns, this`open
    {
      Wired(conns, open) && open.Keys !! reserved
    }

    method Next() returns (r: Reply)
      modifies this`replies
      ensures if old(replies) == [] then r == Refused && replies == []
              else r == old(replies)[0] && replies == old(replies)[1..]
    {
      if replies == [] {
        r := Refused;
      } else {
        r := replies[0];
        replies := replies[1..];
      }
    }

    /** Descriptors below `nfds` among `watched` that are readable, or None for an error.
        A closed descriptor in the set would be EBADF. */
    method Select(nfds: nat, watched: set<nat>) returns (r: Option<set<nat>>)
      requires watched <= open.Keys + reserved
      modifies this`replies, this`polls
      ensures r.Some? <==> old(replies) != [] && old(replies)[0].Ready?
      ensures r.Some? ==> |replies| < |old(replies)|
      ensures polls == if r.Some? then old(polls) + [Poll(nfds, watched, r.value)] else old(polls)
      ensures r.Some? ==> r.value <= watched && forall fd | fd in r.value :: fd < nfds
    {
      var reply := Next();
      if reply.Ready? {
        r := Some(set fd | fd in reply.fds && fd in watched && fd < nfds);
        polls := polls + [Poll(nfds, watched, r.value)];
      } else {
        r := None;
      }
    }

    /** accept may give any number that is not in use. */
    predicate Acceptable(reply: Reply)
      reads this`open
    {
      reply.NewConnection? && reply.fd !in open && reply.fd !in reserved
    }

    /** A new connection on any descriptor that is not in use, or None for an error. */
    method Accept() returns (r: Option<nat>)
      requires Valid()
      modifies this`replies, this`conns, this`open, this`accepts
      ensures Valid() && accepts == old(accepts) + 1
      ensures r == old(if replies != [] && Acceptable(replies[0]) then Some(replies[0].fd) else None)
      ensures r.None? ==> conns == old(conns) && open == old(open)
      ensures r.Some? ==> r.value !in old(open) && r.value !in reserved
      ensures r.Some? ==> conns == old(conns) + [Conn(r.value, [], [], false, 0, [], 0)]
      ensures r.Some? ==> open == old(open)[r.value := |old(conns)|]
      ensures |replies| <= |old(replies)|
    {
      var reply := Next();
      accepts := accepts + 1;
      if Acceptable(reply) {
        open := open[reply.fd := |conns|];
        conns := conns + [Conn(reply.fd, [], [], false, 0, [], 0)];
        r := Some(reply.fd);
      } else {
        r := None;
      }
    }

    /** Up to `want` bytes into `buf` from `off` on. Bytes may arrive at any call; EAGAIN and end of
        stream are only reported when nothing is pending, an error at any time. */
    method Recv(fd: nat, buf: array<byte>, off: nat, want: nat) returns (r: RecvResult)
      requires Valid() && fd in open
      requires 0 < want && off + want <= buf.Length
      modifies this`replies, this`conns, this`faults, buf
      ensures Valid() && |replies| <= |old(replies)|
      ensures r.Data? ==> 1 <= r.n <= want
      ensures var id := open[fd]; var n := if r.Data? then r.n else 0;
              && |conns| == |old(conns)| && conns == old(conns)[id := conns[id]]
              && old(conns)[id].Reads(conns[id], buf[off..off + n]) && conns[id].recvs == old(conns)[id].recvs + 1
              && (r.Eof? || r.WouldBlock? ==>
                    conns[id].received == conns[id].arrived && conns[id].ended == r.Eof?)
      ensures forall k | 0 <= k < buf.Length && !(off <= k < off + want) :: buf[k] == old(buf[k])
      ensures faults == old(faults) + (if r.RecvError? then 1 else 0)
    {
      hide Wired;
      WiredAt(conns, open, fd);
      WiredReceives(conns, open, open[fd]);
      var reply := Next();
      var id := open[fd];
      var (answer, c, bytes) := conns[id].Answer(reply, want);
      forall k | 0 <= k < |bytes| {
        buf[off + k] := bytes[k];
      }
      assert buf[off..off + |bytes|] == bytes;
      conns := conns[id := c];
      if answer.RecvError? {
        faults := faults + 1;
      }
      r := answer;
    }

    /** Some non-empty part of the bytes offered is accepted, or EINTR, or an error. */
    method Send(fd: nat, buf: array<byte>, off: nat, want: nat) returns (r: SendResult)
      requires Valid() && fd in open
      requires 0 < want && off + want <= buf.Length
      modifies this`replies, this`conns, this`faults
      ensures Valid()
      ensures !r.SendError? ==> |replies| < |old(replies)|
      ensures |replies| <= |old(replies)|
      ensures r.Sent? ==> 1 <= r.n <= want
      ensures var id := open[fd]; var c := old(conns)[id];
              conns == old(conns)[id := if r.Sent? then c.Sends(buf[off..off + r.n]) else c]
      ensures faults == old(faults) + (if r.SendError? then 1 else 0)
    {
      var reply := Next();
      var id := open[fd];
      if reply.Interrupted? {
        r := SendInterrupted;
      } else if reply.Outgoing? {
        var n := Clamp(reply.take, want);
        conns := conns[id := conns[id].Sends(buf[off..off + n])];
        r := Sent(n);
      } else {
        faults := faults + 1;
        r := SendError;
      }
    }

    /** Only an open descriptor may be closed. */
    method Close(fd: nat)
      requires Valid() && fd in open
      modifies this`conns, this`open
      ensures Valid()
      ensures open == old(open) - {fd}
      ensures var id := old(open)[fd]; conns == old(conns)[id := old(conns)[id].(closes := 1)]
    {
      var id := open[fd];
      conns := conns[id := conns[id].(closes := conns[id].closes + 1)];
      open := open - {fd};
    }

    /** Does malloc or realloc succeed? */
    method Alloc() returns (ok: bool)
      modifies this`replies, this`faults
      ensures |replies| <= |old(replies)|
      ensures faults == old(faults) + (if ok then 0 else 1)
    {
      var reply := Next();
      ok := reply.Granted?;
      if !ok {
        faults := faults + 1;
      }
    }
  }
}
