/**
 The story of a run of the chat room as events, and what each connection's part in it amounts to.
 Nothing here looks at descriptors, buffers or flags: it is the yardstick for the server.
 */
module History {
  import opened Bytes
  import opened Auth
  import opened Kernels

  const FD_SETSIZE := 1024
  const INITIAL_BUF_SIZE := 256
  const MAX_MSG_SIZE := 4096

  datatype Why =
    | Rejected        // its descriptor does not fit in an fd_set
    | AllocFault      // malloc or realloc failed
    | Overflow        // its batch has MAX_MSG_SIZE bytes or more
    | RecvFault
    | NotAuthorised   // its first batch is no AUTH line
    | SendFault       // a broadcast could not be handed over completely
    | HungUp

  datatype Event =
    | Joined(who: nat, line: seq<byte>)
    | Said(who: nat, text: seq<byte>)
    | Left(who: nat, why: Why)

  /** A connection's part in a history: its AUTH line, all it said since, all that the others said
      while it was a member, and how it ended. */
  datatype View = View(line: Option<seq<byte>>, spoken: seq<byte>, stream: seq<byte>, left: Option<Why>)
  {
    predicate Member() {
      line.Some? && left.None?
    }

    function Heard(): seq<byte> {
      (if line.Some? then line.value else []) + spoken
    }
  }

  const STRANGER := View(None, [], [], None)

  function Observe(v: View, e: Event, id: nat): View {
    match e
    case Joined(who, line) => if who == id then v.(line := Some(line)) else v
    case Said(who, text) =>
      if who == id then v.(spoken := v.spoken + text)
      else if v.Member() then v.(stream := v.stream + text)
      else v
    case Left(who, why) => if who == id then v.(left := Some(why)) else v
  }

  function ViewOf(h: seq<Event>, id: nat): View {
    if h == [] then STRANGER else Observe(ViewOf(h[..|h| - 1], id), h[|h| - 1], id)
  }

  function Losses(ids: seq<nat>): seq<Event> {
    seq(|ids|, k requires 0 <= k < |ids| => Left(ids[k], SendFault))
  }

  lemma LossesConcat(a: seq<nat>, b: seq<nat>)
    ensures Losses(a + b) == Losses(a) + Losses(b)
  {
  }

  lemma LossesContain(ids: seq<nat>, id: nat)
    requires id in ids
    ensures Left(id, SendFault) in Losses(ids)
  {
    var k :| 0 <= k < |ids| && ids[k] == id;
    assert Losses(ids)[k] == Left(id, SendFault);
  }

  lemma ViewAfter(h: seq<Event>, e: Event)
    ensures forall id: nat :: ViewOf(h + [e], id) == Observe(ViewOf(h, id), e, id)
  {
    assert (h + [e])[..|h|] == h;
  }

  /** May `e` come after `h`? Only members speak, one joins once and with an AUTH line, one leaves once. */
  predicate May(h: seq<Event>, e: Event, token: seq<byte>) {
    match e
    case Joined(who, line) => ViewOf(h, who).line.None? && ViewOf(h, who).left.None? && IsAuthLine(line, token)
    case Said(who, text) => ViewOf(h, who).Member() && text != []
    case Left(who, why) => ViewOf(h, who).left.None?
  }

  ghost predicate Legal(h: seq<Event>, token: seq<byte>) {
    forall k | 0 <= k < |h| :: May(h[..k], h[k], token)
  }

  lemma LegalAfter(h: seq<Event>, e: Event, token: seq<byte>)
    requires Legal(h, token) && May(h, e, token)
    ensures Legal(h + [e], token)
  {
    var g := h + [e];
    forall k | 0 <= k < |g|
      ensures May(g[..k], g[k], token)
    {
      assert g[..k] == h[..k];
      assert h[..|h|] == h;
    }
  }

  lemma LegalPrefix(h: seq<Event>, n: nat, token: seq<byte>)
    requires Legal(h, token) && n <= |h|
    ensures Legal(h[..n], token)
  {
    forall k | 0 <= k < n
      ensures May(h[..n][..k], h[..n][k], token)
    {
      assert h[..n][..k] == h[..k];
      assert h[..n][k] == h[k];
    }
  }

  /** Who has not joined has said nothing and is due nothing; who has, did so with an AUTH line. */
  lemma {:induction false} OnlyMembersCount(h: seq<Event>, id: nat, token: seq<byte>)
    requires Legal(h, token)
    ensures var v := ViewOf(h, id);
            && (v.line.None? ==> v.spoken == [] && v.stream == [])
            && (v.line.Some? ==> IsAuthLine(v.line.value, token))
  {
    if h != [] {
      var n := |h| - 1;
      LegalPrefix(h, n, token);
      OnlyMembersCount(h[..n], id, token);
      assert May(h[..n], h[n], token);
    }
  }

  /** How a connection with this record may end for this reason. */
  predicate MayPart(c: Conn, v: View, why: Why, token: seq<byte>) {
    && (if why == SendFault
        then v.line.Some? && c.sent < v.stream  // a strict prefix: something it should have got is missing
        else c.sent == v.stream)
    && match why
       case Rejected => v.line.None? && c.received == [] && c.fd >= FD_SETSIZE
       case NotAuthorised => v.line.None? && c.received != [] && !IsAuthLine(c.received, token)
       case HungUp => c.ended && c.received == c.arrived == v.Heard()
       case SendFault => c.received == v.Heard()
       case Overflow => |v.Heard()| + MAX_MSG_SIZE == |c.received| && v.Heard() <= c.received
       case _ => v.Heard() <= c.received
  }

  /** The kernel's record of a connection agrees with its part in the history, but for `owed`
      bytes that it is still to be sent. */
  predicate Agrees(c: Conn, v: View, owed: seq<byte>, token: seq<byte>) {
    match v.left
    case None => c.closes == 0 && c.fd < FD_SETSIZE && c.received == v.Heard() && c.sent + owed == v.stream
    case Some(why) => c.closes == 1 && owed == [] && MayPart(c, v, why, token)
  }
}
