/** What one serviced connection must lead to, as a relation between two states of the room. */
module Reactions {
  import opened Bytes
  import opened Auth
  import opened Kernels
  import opened SocketLoops
  import opened History
  import opened Rooms

  /** What one drained batch makes happen, before anybody is told. */
  function Verdict(id: nat, member: bool, d: Drained, text: seq<byte>, token: seq<byte>): seq<Event> {
    match d
    case TooBig => [Left(id, Overflow)]
    case NoMemory => [Left(id, AllocFault)]
    case NoRoom => [Left(id, AllocFault)]
    case RecvFailed => [Left(id, RecvFault)]
    case Batch(_) =>
      if text == [] then []
      else if member then [Said(id, text)]
      else if IsAuthLine(text, token) then [Joined(id, text)]
      else [Left(id, NotAuthorised)]
  }

  /** After its batch has been dealt with, a connection whose stream has ended leaves. */
  function Farewell(id: nat, d: Drained, verdict: seq<Event>): seq<Event> {
    if d == Batch(true) && (verdict == [] || !verdict[0].Left?) then [Left(id, HungUp)] else []
  }

  function Cause(d: Drained): Why
    requires !d.Batch?
  {
    if d.TooBig? then Overflow else if d.RecvFailed? then RecvFault else AllocFault
  }

  /** From `before` to `after`, the batch `text` of the connection on `i` had the consequences it must have. */
  ghost predicate Reacted(before: Room, after: Room, token: seq<byte>, i: nat, text: seq<byte>,
                          drops: seq<nat>, refused: bool)
    requires i in before.open && before.open[i] < |before.conns| && i < |before.flags|
  {
    var id := before.open[i];
    var verdict := Verdict(id, before.flags[i], Batch(false), text, token);
    && Narrows(before, after) && Unread(before.conns, after.conns, {})
    && after.hist == before.hist + verdict + Losses(drops)
    && (refused <==> verdict == [Left(id, NotAuthorised)])
    && (refused <==> i !in after.open)
    && Lost(before, after, i, drops)
    && (drops != [] ==> verdict == [Said(id, text)])
    && after.conns[id] == before.conns[id].(closes := if refused then 1 else before.conns[id].closes)
  }

  lemma ReactedByJoining(before: Room, token: seq<byte>, i: nat, text: seq<byte>)
    requires i in before.open && before.open[i] < |before.conns| && i < |before.flags|
    requires text != [] && !before.flags[i] && IsAuthLine(text, token)
    ensures var joined := Joined(before.open[i], text);
            Reacted(before, before.(flags := before.flags[i := true], hist := before.hist + [joined]),
                    token, i, text, [], false)
  {
    LossesOfNobody(before.hist + [Joined(before.open[i], text)]);
  }

  lemma ReactedByRefusing(before: Room, token: seq<byte>, i: nat, text: seq<byte>)
    requires i in before.open && before.open[i] < |before.conns| && i < |before.flags|
    requires text != [] && !before.flags[i] && !IsAuthLine(text, token)
    ensures Reacted(before, Parted(before, i, NotAuthorised), token, i, text, [], true)
  {
    LossesOfNobody(before.hist + [Left(before.open[i], NotAuthorised)]);
  }

  lemma ReactedToNothing(before: Room, token: seq<byte>, i: nat)
    requires i in before.open && before.open[i] < |before.conns| && i < |before.flags|
    ensures Reacted(before, before, token, i, [], [], false)
  {
    LossesOfNobody(before.hist);
    assert before.hist + [] == before.hist;
  }

  lemma ReactedFacts(before: Room, after: Room, token: seq<byte>, i: nat, text: seq<byte>,
                     drops: seq<nat>, refused: bool)
    requires i in before.open && before.open[i] < |before.conns| && i < |before.flags|
    requires Reacted(before, after, token, i, text, drops, refused) && !refused
    ensures i in after.open && after.open[i] == before.open[i] && before.open[i] < |after.conns|
    ensures after.conns[before.open[i]] == before.conns[before.open[i]]
  {
  }

  lemma LossesOfNobody(h: seq<Event>)
    ensures h + Losses([]) == h
  {
  }

  lemma ReactedBySaying(before: Room, after: Room, token: seq<byte>, i: nat, text: seq<byte>, drops: seq<nat>)
    requires i in before.open && before.open[i] < |before.conns| && i < |before.flags|
    requires Lost(before, after, i, drops)
    requires text != [] && before.flags[i] && Spares(before, after, i)
    requires after.hist == before.hist + [Said(before.open[i], text)] + Losses(drops)
    ensures Reacted(before, after, token, i, text, drops, false)
  {
  }

  lemma ReactedReadList(before: Room, after: Room, token: seq<byte>, i: nat, text: seq<byte>, refused: bool)
    requires i in before.open && before.open[i] < |before.conns| && i < |before.flags|
    requires Reacted(before, after, token, i, text, [], refused)
    ensures before.open.Keys - after.open.Keys - {i} == {}
  {
  }

  /** Draining a connection into `text` may end like this: a batch is all that is pending, and less than
      the largest size. */
  predicate Drains(c: Conn, d: Drained, text: seq<byte>) {
    && (d.Batch? ==> c.received == c.arrived && c.ended == d.eof && |text| < MAX_MSG_SIZE)
    && (d.TooBig? ==> |text| == MAX_MSG_SIZE)
  }

  /** From `before` to `after`, the connection on `i` was drained into `text` with outcome `d`, and what
      had to follow did. */
  ghost predicate Serviced(before: Room, after: Room, token: seq<byte>, i: nat, d: Drained, text: seq<byte>,
                           drops: seq<nat>)
    requires i in before.open && before.open[i] < |before.conns| && i < |before.flags|
  {
    var id := before.open[i];
    var verdict := Verdict(id, before.flags[i], d, text, token);
    && Narrows(before, after) && Unread(before.conns, after.conns, {id})
    && after.conns[id].recvs >= before.conns[id].recvs + (if d.NoMemory? then 0 else 1)
    && after.hist == before.hist + verdict + Losses(drops) + Farewell(id, d, verdict)
    && (drops != [] ==> verdict == [Said(id, text)])
    && Lost(before, after, i, drops)
    && (i in after.open <==> d == Batch(false) && verdict != [Left(id, NotAuthorised)])
    && after.conns[id].received == before.conns[id].received + text
    && Drains(after.conns[id], d, text)
  }

  /** What one service comes to, case by case: the outcome of the drain, the batch and the flag decide what
      happens next, and whether the descriptor stays open. */
  lemma ServiceMeans(before: Room, after: Room, token: seq<byte>, i: nat, d: Drained, text: seq<byte>, drops: seq<nat>)
    requires i in before.open && before.open[i] < |before.conns| && i < |before.flags|
    requires Serviced(before, after, token, i, d, text, drops)
    ensures |after.conns| == |before.conns|
    ensures after.conns[before.open[i]].received == before.conns[before.open[i]].received + text
    ensures var id, h := before.open[i], before.hist;
            match d
            case TooBig => |text| == 4096 && i !in after.open && after.hist == h + [Left(id, Overflow)]
            case NoMemory => i !in after.open && after.hist == h + [Left(id, AllocFault)]
            case NoRoom => i !in after.open && after.hist == h + [Left(id, AllocFault)]
            case RecvFailed => i !in after.open && after.hist == h + [Left(id, RecvFault)]
            case Batch(eof) =>
              var c, end := after.conns[id], if eof then [Left(id, HungUp)] else [];
              && |text| < 4096 && c.received == c.arrived && c.ended == eof
              && if text == [] then after.hist == h + end && (i in after.open <==> !eof)
                 else if before.flags[i] then
                   && (i in after.open <==> !eof)
                   && after.hist == h + [Said(id, text)]
                                    + seq(|drops|, n requires 0 <= n < |drops| => Left(drops[n], SendFault)) + end
                 else if IsAuthLine(text, token) then
                   after.hist == h + [Joined(id, text)] + end && (i in after.open <==> !eof)
                 else after.hist == h + [Left(id, NotAuthorised)] && i !in after.open
    ensures drops != [] ==> d.Batch? && text != [] && before.flags[i]
    ensures forall fd | fd in before.open && fd != i ::
              if fd in after.open then after.open[fd] == before.open[fd] else before.open[fd] in drops
    ensures forall fd | fd in after.open :: fd in before.open
  {
    hide IsAuthLine, Unread;
    var id := before.open[i];
    var verdict := Verdict(id, before.flags[i], d, text, token);
    assert drops == [] ==> Losses(drops) == [];
    assert before.hist + [] == before.hist;
    assert after.hist + [] == after.hist;
    assert before.hist + verdict + [] + [] == before.hist + verdict;
  }

  lemma ServicedFault(before: Room, read: Room, token: seq<byte>, i: nat, d: Drained, text: seq<byte>)
    requires i in before.open && Wired(before.conns, before.open) && i < |before.flags| && !d.Batch?
    requires ReadFrom(before, read, before.open[i], d, text)
    ensures Serviced(before, Parted(read, i, Cause(d)), token, i, d, text, [])
  {
    LossesOfNobody(before.hist + [Left(before.open[i], Cause(d))]);
  }

  /** `after` differs from `before` by one drain of connection `id`. */
  ghost predicate ReadFrom(before: Room, after: Room, id: nat, d: Drained, text: seq<byte>)
    requires id < |before.conns|
  {
    && ReadsOnly(before.conns, after.conns, id, text)
    && after == before.(conns := after.conns)
    && (d.NoMemory? || after.conns[id].recvs > before.conns[id].recvs)
    && Drains(after.conns[id], d, text)
  }

  lemma ServicedBatch(before: Room, read: Room, after: Room, token: seq<byte>, i: nat, d: Drained, text: seq<byte>,
                      drops: seq<nat>, refused: bool)
    requires i in before.open && Wired(before.conns, before.open) && i < |before.flags| && d.Batch?
    requires ReadFrom(before, read, before.open[i], d, text)
    requires Reacted(read, after, token, i, text, drops, refused)
    ensures refused || !d.eof ==> Serviced(before, after, token, i, d, text, drops)
    ensures !refused && d.eof ==> Serviced(before, Parted(after, i, HungUp), token, i, d, text, drops)
  {
    hide Reacted, Serviced, ReadFrom;
    WiredAt(before.conns, before.open, i);
    if !refused && d.eof {
      BatchThenHangUp(before, read, after, token, i, d, text, drops);
    } else {
      BatchAlone(before, read, after, token, i, d, text, drops, refused);
    }
  }

  lemma BatchAlone(before: Room, read: Room, after: Room, token: seq<byte>, i: nat, d: Drained, text: seq<byte>,
                   drops: seq<nat>, refused: bool)
    requires i in before.open && before.open[i] < |before.conns| && i < |before.flags| && d.Batch?
    requires ReadFrom(before, read, before.open[i], d, text)
    requires Reacted(read, after, token, i, text, drops, refused) && (refused || !d.eof)
    ensures Serviced(before, after, token, i, d, text, drops)
  {
    hide IsAuthLine, Losses, Lost;
    SameLosers(before, read, after, i, drops);
    assert after.hist + [] == after.hist;
  }

  lemma BatchThenHangUp(before: Room, read: Room, after: Room, token: seq<byte>, i: nat, d: Drained, text: seq<byte>,
                        drops: seq<nat>)
    requires i in before.open && before.open[i] < |before.conns| && i < |before.flags| && d == Batch(true)
    requires ReadFrom(before, read, before.open[i], d, text)
    requires Reacted(read, after, token, i, text, drops, false)
    ensures i in after.open && after.open[i] < |after.conns|
    ensures Serviced(before, Parted(after, i, HungUp), token, i, d, text, drops)
  {
    hide IsAuthLine, Losses, Lost, Narrows, Unread;
    StillThere(read, after, i);
    OnlyRead(before, read, after, i, text);
    SameLosers(before, read, after, i, drops);
    SameLosers(before, read, Parted(after, i, HungUp), i, drops);
    LostMore(read, after, i, drops);
  }

  lemma SameLosers(before: Room, read: Room, after: Room, i: nat, drops: seq<nat>)
    requires read == before.(conns := read.conns)
    ensures Lost(read, after, i, drops) <==> Lost(before, after, i, drops)
  {
  }

  lemma LostMore(before: Room, after: Room, i: nat, drops: seq<nat>)
    requires i in after.open && after.open[i] < |after.conns| && Lost(before, after, i, drops)
    ensures Lost(before, Parted(after, i, HungUp), i, drops)
  {
  }

  lemma StillThere(read: Room, after: Room, i: nat)
    requires Narrows(read, after) && i in after.open && i in read.open && read.open[i] < |read.conns|
    ensures after.open[i] == read.open[i] < |after.conns|
  {
  }

  lemma OnlyRead(before: Room, read: Room, after: Room, i: nat, text: seq<byte>)
    requires i in before.open && before.open[i] < |before.conns| && i in after.open && after.open[i] == before.open[i]
    requires read == before.(conns := read.conns) && ReadsOnly(before.conns, read.conns, before.open[i], text)
    requires Narrows(read, after) && Unread(read.conns, after.conns, {}) && after.open[i] < |after.conns|
    ensures Narrows(before, Parted(after, i, HungUp))
    ensures Unread(before.conns, Parted(after, i, HungUp).conns, {before.open[i]})
  {
  }
}
