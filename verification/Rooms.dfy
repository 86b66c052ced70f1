/**
 The chat room's global invariant as a predicate on values, and one lemma for each kind of step the
 server takes. The invariant says, for every connection there ever was, that the kernel's record of
 it agrees with its part in the history.
 */
module Rooms {
  import opened Bytes
  import opened Auth
  import opened Kernels
  import opened History

  datatype Room = Room(conns: seq<Conn>, open: map<nat, nat>, flags: seq<bool>, hist: seq<Event>)

  function NewConn(fd: nat, closes: nat): Conn {
    Conn(fd, [], [], false, 0, [], closes)
  }

  function NewRoom(): Room {
    Room([], map[], seq(FD_SETSIZE, _ => false), [])
  }

  /** The descriptor set and the highest descriptor agree with what the kernel has open. */
  ghost predicate Watching(open: map<nat, nat>, listener: nat, list: set<nat>, maxSet: nat) {
    && list == open.Keys + {listener} && listener !in open
    && maxSet < FD_SETSIZE && forall fd | fd in list :: fd <= maxSet
  }

  /** Connections in `free` may be between two states; those in `debtors` have still to be sent `text`. */
  ghost predicate Inv(r: Room, token: seq<byte>, free: set<nat>, debtors: set<nat>, text: seq<byte>) {
    && Wired(r.conns, r.open)
    && Flagged(r.open, r.flags, r.hist)
    && Legal(r.hist, token)
    && Recorded(r.conns, r.hist, token, free, debtors, text)
  }

  /** The flag of an open descriptor says whether its holder has joined. */
  ghost predicate Flagged(open: map<nat, nat>, flags: seq<bool>, hist: seq<Event>) {
    && |flags| == FD_SETSIZE
    && forall fd | fd in open :: fd < FD_SETSIZE && flags[fd] == ViewOf(hist, open[fd]).line.Some?
  }

  /** The kernel's records agree with the history, which speaks of nobody else. */
  ghost predicate Recorded(conns: seq<Conn>, hist: seq<Event>, token: seq<byte>, free: set<nat>, debtors: set<nat>,
                           text: seq<byte>)
  {
    && (forall id: nat | |conns| <= id :: ViewOf(hist, id) == STRANGER)
    && forall id: nat | id < |conns| && id !in free ::
         Agrees(conns[id], ViewOf(hist, id), if id in debtors then text else [], token)
  }

  /** The descriptors open later were open before, with the same holder; connections keep their descriptor. */
  ghost predicate Narrows(before: Room, after: Room) {
    && after.open.Keys <= before.open.Keys
    && (forall fd | fd in after.open :: after.open[fd] == before.open[fd])
    && |after.conns| == |before.conns|
    && (forall id | 0 <= id < |after.conns| :: after.conns[id].fd == before.conns[id].fd)
  }

  /** Whoever lost its descriptor, but for the holder of `i`, is among the dropped. */
  ghost predicate Lost(before: Room, after: Room, i: nat, drops: seq<nat>) {
    forall fd | fd in before.open && fd !in after.open && fd != i :: before.open[fd] in drops
  }

  /** No connection but those in `served` was read from. */
  ghost predicate Unread(before: seq<Conn>, after: seq<Conn>, served: set<nat>)
  {
    |before| <= |after|
    && forall id: nat | id < |before| && id !in served :: after[id].recvs == before[id].recvs
  }

  /** ... and the one on descriptor `i` is untouched. */
  ghost predicate Spares(before: Room, after: Room, i: nat) {
    && Narrows(before, after) && Unread(before.conns, after.conns, {})
    && i in before.open && before.open[i] < |before.conns|
    && i in after.open && after.conns[before.open[i]] == before.conns[before.open[i]]
  }

  /** `text` has been read from the connection on `fd`, and nothing has come of it yet. */
  ghost predicate Unsettled(r: Room, token: seq<byte>, fd: nat, text: seq<byte>)
    requires fd in r.open && fd < |r.flags| && r.open[fd] < |r.conns|
  {
    var v, c := ViewOf(r.hist, r.open[fd]), r.conns[r.open[fd]];
    && v.left.None? && v.line.Some? == r.flags[fd]
    && c.received == v.Heard() + text && c.sent == v.stream
    && (!r.flags[fd] ==> v == STRANGER && c.received == text)
  }

  /** Neither looks at the history. */
  lemma HistoryAside(before: Room, h: seq<Event>, after: Room, i: nat, drops: seq<nat>)
    requires Spares(before.(hist := h), after, i) && Lost(before.(hist := h), after, i, drops)
    ensures Spares(before, after, i) && Lost(before, after, i, drops)
  {
  }

  lemma OpenFacts(r: Room, token: seq<byte>, debtors: set<nat>, text: seq<byte>, fd: nat)
    requires fd in r.open && Inv(r, token, {}, debtors, text)
    ensures var id := r.open[fd]; var v := ViewOf(r.hist, id);
            && id < |r.conns| && r.conns[id].closes == 0 && v.left.None? && v.line.Some? == r.flags[fd]
            && r.conns[id].received == v.Heard() && (id !in debtors ==> r.conns[id].sent == v.stream)
  {
    var id := r.open[fd];
    assert Agrees(r.conns[id], ViewOf(r.hist, id), if id in debtors then text else [], token);
    assert r.conns[id].sent + [] == r.conns[id].sent;
  }

  /** After reading `text` from an open connection: every reason the server may have to end it is sound. */
  lemma ReadFacts(r: Room, token: seq<byte>, fd: nat, c: Conn, text: seq<byte>)
    requires fd in r.open && Inv(r, token, {}, {}, []) && r.open[fd] < |r.conns|
    requires r.conns[r.open[fd]].Reads(c, text)
    ensures var v := ViewOf(r.hist, r.open[fd]);
            && Unsettled(r.(conns := r.conns[r.open[fd] := c]), token, fd, text)
            && MayPart(c, v, AllocFault, token) && MayPart(c, v, RecvFault, token)
            && (|text| == MAX_MSG_SIZE ==> MayPart(c, v, Overflow, token))
  {
    OpenFacts(r, token, {}, [], fd);
    OnlyMembersCount(r.hist, r.open[fd], token);
    assert [] + text == text;
  }

  /** A connection on which everything is settled may be exempt, and may hang up at the end of its stream. */
  lemma SettledFacts(r: Room, token: seq<byte>, fd: nat)
    requires fd in r.open && Inv(r, token, {}, {}, [])
    ensures var id := r.open[fd]; var v := ViewOf(r.hist, id);
            && Inv(r, token, {id}, {}, []) && v.left.None? && id < |r.conns|
            && (r.conns[id].ended && r.conns[id].received == r.conns[id].arrived ==>
                  MayPart(r.conns[id], v, HungUp, token))
  {
    OpenFacts(r, token, {}, [], fd);
  }

  /** Reading nothing settles at once. */
  lemma NothingKeeps(r: Room, token: seq<byte>, fd: nat)
    requires fd in r.open && fd < |r.flags| && r.open[fd] < |r.conns| && Inv(r, token, {r.open[fd]}, {}, [])
    requires Unsettled(r, token, fd, [])
    ensures Inv(r, token, {}, {}, [])
  {
    var id := r.open[fd];
    assert r.conns[id].sent + [] == r.conns[id].sent;
    assert ViewOf(r.hist, id).Heard() + [] == ViewOf(r.hist, id).Heard();
    assert Agrees(r.conns[id], ViewOf(r.hist, id), [], token);
  }

  /** The room after accept has returned `client`. */
  function Admitted(r: Room, client: Option<nat>): Room
    requires |r.flags| == FD_SETSIZE
  {
    match client
    case None => r
    case Some(fd) =>
      if fd < FD_SETSIZE
      then Room(r.conns + [NewConn(fd, 0)], r.open[fd := |r.conns|], r.flags[fd := false], r.hist)
      else Room(r.conns + [NewConn(fd, 1)], r.open, r.flags, r.hist + [Left(|r.conns|, Rejected)])
  }

  lemma AdmitKeeps(r: Room, token: seq<byte>, fd: nat)
    requires Inv(r, token, {}, {}, [])
    requires fd !in r.open && fd < FD_SETSIZE
    ensures var c := Conn(fd, [], [], false, 0, [], 0);
            && |r.flags| == FD_SETSIZE
            && Inv(Room(r.conns + [c], r.open[fd := |r.conns|], r.flags[fd := false], r.hist), token, {}, {}, [])
  {
    hide Legal, Flagged, Wired, Recorded;
    AdmitWired(r.conns, r.open, fd);
    NotYet(r.conns, r.hist, token);
    AdmitFlagged(r.conns, r.open, r.flags, r.hist, fd);
    AdmitRecorded(r.conns, r.hist, token, NewConn(fd, 0));
  }

  lemma NotYet(conns: seq<Conn>, hist: seq<Event>, token: seq<byte>)
    requires Recorded(conns, hist, token, {}, {}, [])
    ensures ViewOf(hist, |conns|) == STRANGER
  {
  }

  lemma AdmitWired(conns: seq<Conn>, open: map<nat, nat>, fd: nat)
    requires Wired(conns, open) && fd !in open
    ensures Wired(conns + [NewConn(fd, 0)], open[fd := |conns|])
  {
  }

  /** The flag of the descriptor's former holder is cleared. */
  lemma AdmitFlagged(conns: seq<Conn>, open: map<nat, nat>, flags: seq<bool>, hist: seq<Event>, fd: nat)
    requires Flagged(open, flags, hist) && fd < FD_SETSIZE && ViewOf(hist, |conns|) == STRANGER
    ensures |flags| == FD_SETSIZE && Flagged(open[fd := |conns|], flags[fd := false], hist)
  {
  }

  lemma AdmitRecorded(conns: seq<Conn>, hist: seq<Event>, token: seq<byte>, c: Conn)
    requires Recorded(conns, hist, token, {}, {}, []) && c.fd < FD_SETSIZE && c == NewConn(c.fd, 0)
    ensures Recorded(conns + [c], hist, token, {}, {}, [])
  {
    hide MayPart;
  }

  lemma RejectKeeps(r: Room, token: seq<byte>, fd: nat)
    requires Inv(r, token, {}, {}, [])
    requires fd !in r.open && fd >= FD_SETSIZE
    ensures var c := Conn(fd, [], [], false, 0, [], 1);
            && |r.flags| == FD_SETSIZE
            && Inv(Room(r.conns + [c], r.open, r.flags, r.hist + [Left(|r.conns|, Rejected)]), token, {}, {}, [])
  {
    hide Legal, IsAuthLine;
    ViewAfter(r.hist, Left(|r.conns|, Rejected));
    LegalAfter(r.hist, Left(|r.conns|, Rejected), token);
  }

  /** Reading from one connection concerns no other. */
  lemma ReadKeeps(r: Room, token: seq<byte>, id: nat, c: Conn, bytes: seq<byte>)
    requires Inv(r, token, {}, {}, [])
    requires id < |r.conns| && r.conns[id].Reads(c, bytes)
    ensures Inv(r.(conns := r.conns[id := c]), token, {id}, {}, [])
  {
    hide Legal, Flagged, Wired, Recorded;
    WiredReceives(r.conns, r.open, id);
    OthersRecorded(r.conns, r.hist, token, {}, [], id, c);
  }

  /** Whatever becomes of one connection's record, the others' still agree. */
  lemma OthersRecorded(conns: seq<Conn>, hist: seq<Event>, token: seq<byte>, debtors: set<nat>, text: seq<byte>,
                       id: nat, c: Conn)
    requires Recorded(conns, hist, token, {}, debtors, text) && id < |conns|
    ensures Recorded(conns[id := c], hist, token, {id}, debtors, text)
  {
    hide Agrees, ViewOf;
  }

  lemma StrangerFacts(r: Room, token: seq<byte>, fd: nat, text: seq<byte>)
    requires fd in r.open && fd < |r.flags| && r.open[fd] < |r.conns|
    requires Unsettled(r, token, fd, text) && !r.flags[fd] && text != []
    ensures ViewOf(r.hist, r.open[fd]) == STRANGER
    ensures r.conns[r.open[fd]].received == text && r.conns[r.open[fd]].sent == []
    ensures !IsAuthLine(text, token) ==> MayPart(r.conns[r.open[fd]], STRANGER, NotAuthorised, token)
  {
  }

  lemma JoinKeeps(r: Room, token: seq<byte>, fd: nat, line: seq<byte>)
    requires fd in r.open && Inv(r, token, {r.open[fd]}, {}, [])
    requires ViewOf(r.hist, r.open[fd]) == STRANGER && IsAuthLine(line, token)
    requires r.conns[r.open[fd]].received == line && r.conns[r.open[fd]].sent == []
    ensures Inv(r.(flags := r.flags[fd := true], hist := r.hist + [Joined(r.open[fd], line)]), token, {}, {}, [])
  {
    hide Legal, Wired, Flagged, Recorded, IsAuthLine;
    WiredAt(r.conns, r.open, fd);
    FlagsReach(r.open, r.flags, r.hist, fd);
    JoinFlagged(r.conns, r.open, r.flags, r.hist, fd, line);
    JoinRecorded(r.conns, r.hist, r.open[fd], line, token);
    LegalAfter(r.hist, Joined(r.open[fd], line), token);
  }

  lemma FlagsReach(open: map<nat, nat>, flags: seq<bool>, hist: seq<Event>, fd: nat)
    requires Flagged(open, flags, hist) && fd in open
    ensures fd < FD_SETSIZE == |flags|
  {
  }

  lemma JoinFlagged(conns: seq<Conn>, open: map<nat, nat>, flags: seq<bool>, hist: seq<Event>, fd: nat, line: seq<byte>)
    requires Wired(conns, open) && Flagged(open, flags, hist) && fd in open
    ensures fd < |flags| && Flagged(open, flags[fd := true], hist + [Joined(open[fd], line)])
  {
    ViewAfter(hist, Joined(open[fd], line));
    forall d | d in open && d != fd
      ensures open[d] != open[fd]
    {
      WiredAt(conns, open, d);
      WiredAt(conns, open, fd);
    }
  }

  lemma JoinRecorded(conns: seq<Conn>, hist: seq<Event>, id: nat, line: seq<byte>, token: seq<byte>)
    requires Recorded(conns, hist, token, {id}, {}, []) && id < |conns| && ViewOf(hist, id) == STRANGER
    requires conns[id].received == line && conns[id].sent == [] && conns[id].closes == 0 && conns[id].fd < FD_SETSIZE
    ensures Recorded(conns, hist + [Joined(id, line)], token, {}, {}, [])
  {
    hide MayPart, ViewOf;
    ViewAfter(hist, Joined(id, line));
    assert line + [] == line;
  }

  /** The members that a broadcast from descriptor `i` still has to reach, from descriptor `j` on. */
  predicate Owed(r: Room, i: nat, j: nat, debtors: set<nat>)
    requires |r.flags| == FD_SETSIZE && forall fd | fd in r.open :: fd < FD_SETSIZE
  {
    && (forall fd | fd in r.open :: r.open[fd] in debtors <==> fd != i && r.flags[fd] && fd >= j)
    && (forall id | id in debtors :: id < |r.conns| && r.conns[id].closes == 0)
  }

  /** What one connection owes or is owed when somebody else speaks. */
  lemma HeardBySome(c: Conn, v: View, e: Event, id: nat, token: seq<byte>)
    requires e.Said? && e.who != id && Agrees(c, v, [], token)
    ensures Agrees(c, Observe(v, e, id), if v.Member() then e.text else [], token)
  {
    assert c.sent + [] == c.sent;
  }

  lemma HeardFromMe(c: Conn, v: View, e: Event, token: seq<byte>)
    requires e.Said? && v.Member() && c.closes == 0 && c.fd < FD_SETSIZE
    requires c.received == v.Heard() + e.text && c.sent == v.stream
    ensures Agrees(c, Observe(v, e, e.who), [], token)
  {
    assert v.Heard() + e.text == v.line.value + (v.spoken + e.text);
    assert c.sent + [] == c.sent;
  }

  function Others(r: Room, me: nat): set<nat> {
    set id: nat | id < |r.conns| && id != me && ViewOf(r.hist, id).Member()
  }

  lemma OthersOwed(r: Room, token: seq<byte>, fd: nat)
    requires fd in r.open && Inv(r, token, {r.open[fd]}, {}, [])
    ensures Owed(r, fd, 0, Others(r, r.open[fd]))
  {
    var me := r.open[fd];
    forall d | d in r.open
      ensures r.open[d] in Others(r, me) <==> d != fd && r.flags[d]
    {
      if d != fd {
        assert Agrees(r.conns[r.open[d]], ViewOf(r.hist, r.open[d]), [], token);
      }
    }
    forall id | id in Others(r, me)
      ensures r.conns[id].closes == 0
    {
      assert Agrees(r.conns[id], ViewOf(r.hist, id), [], token);
    }
  }

  /** Once something is said, every other member is owed it. */
  lemma SaidKeeps(r: Room, token: seq<byte>, fd: nat, text: seq<byte>)
    requires fd in r.open && Inv(r, token, {r.open[fd]}, {}, [])
    requires r.flags[fd] && text != [] && ViewOf(r.hist, r.open[fd]).left.None?
    requires r.conns[r.open[fd]].received == ViewOf(r.hist, r.open[fd]).Heard() + text
    requires r.conns[r.open[fd]].sent == ViewOf(r.hist, r.open[fd]).stream
    ensures Inv(r.(hist := r.hist + [Said(r.open[fd], text)]), token, {}, Others(r, r.open[fd]), text)
  {
    hide Wired, Legal, Agrees, IsAuthLine;
    WiredAt(r.conns, r.open, fd);
    var me := r.open[fd];
    var debtors := Others(r, me);
    var e := Said(me, text);
    ViewAfter(r.hist, e);
    LegalAfter(r.hist, e, token);
    forall id: nat | id < |r.conns|
      ensures Agrees(r.conns[id], Observe(ViewOf(r.hist, id), e, id), if id in debtors then text else [], token)
    {
      var v := ViewOf(r.hist, id);
      if id == me {
        HeardFromMe(r.conns[id], v, e, token);
      } else {
        HeardBySome(r.conns[id], v, e, id, token);
      }
    }
  }

  lemma PaidKeeps(r: Room, token: seq<byte>, id: nat, debtors: set<nat>, text: seq<byte>)
    requires Inv(r, token, {}, debtors, text)
    requires id < |r.conns| && id in debtors
    ensures Inv(r.(conns := r.conns[id := r.conns[id].Sends(text)]), token, {}, debtors - {id}, text)
  {
    hide Legal, Flagged, Wired, Recorded;
    SendKeepsWired(r.conns, r.open, id, text);
    PaidRecorded(r.conns, r.hist, token, debtors, text, id);
  }

  lemma SendKeepsWired(conns: seq<Conn>, open: map<nat, nat>, id: nat, bytes: seq<byte>)
    requires Wired(conns, open) && id < |conns|
    ensures Wired(conns[id := conns[id].Sends(bytes)], open)
  {
  }

  lemma PaidRecorded(conns: seq<Conn>, hist: seq<Event>, token: seq<byte>, debtors: set<nat>, text: seq<byte>, id: nat)
    requires Recorded(conns, hist, token, {}, debtors, text) && id < |conns| && id in debtors
    ensures Recorded(conns[id := conns[id].Sends(text)], hist, token, {}, debtors - {id}, text)
  {
    hide Agrees, ViewOf;
    PaidAgrees(conns[id], ViewOf(hist, id), text, token);
  }

  lemma PaidAgrees(c: Conn, v: View, text: seq<byte>, token: seq<byte>)
    requires Agrees(c, v, text, token)
    ensures Agrees(c.Sends(text), v, [], token)
  {
    hide IsAuthLine;
    assert c.sent + text + [] == c.sent + text;
    assert text == [] ==> c.sent + text == c.sent;
  }

  /** `after` differs from `before` in the connection on descriptor `j` only, which is dropped if `lost`. */
  ghost predicate Handed(before: Room, after: Room, j: nat, lost: bool)
    requires j in before.open && before.open[j] < |before.conns|
  {
    var id := before.open[j];
    && after.flags == before.flags
    && after.open == (if lost then before.open - {j} else before.open)
    && |after.conns| == |before.conns|
    && after.conns == before.conns[id := after.conns[id]]
    && after.conns[id].fd == before.conns[id].fd && after.conns[id].recvs == before.conns[id].recvs
  }

  /** How far a broadcast from `i` that began in `start`, with `ready0` still to be scanned, has come
      when it is at `j`: what it owes, whom it dropped, and how many calls failed. */
  ghost predicate Sending(start: Room, r: Room, ready0: set<nat>, ready: set<nat>, faults: int,
                          i: nat, j: nat, owing: set<nat>, drops: seq<nat>)
  {
    && |r.flags| == FD_SETSIZE && (forall fd | fd in r.open :: fd < FD_SETSIZE)
    && Owed(r, i, j, owing) && Spares(start, r, i)
    && ready == ready0 - (start.open.Keys - r.open.Keys)
    && r.hist == start.hist + Losses(drops)
    && faults >= 0 && (drops == [] <==> faults == 0) && Lost(start, r, i, drops)
  }

  /** When the scan has passed every open descriptor, nobody is owed anything. */
  lemma AllPaid(r: Room, token: seq<byte>, i: nat, j: nat, debtors: set<nat>, text: seq<byte>)
    requires Inv(r, token, {}, debtors, text) && Owed(r, i, j, debtors)
    requires forall fd | fd in r.open :: fd < j
    ensures Inv(r, token, {}, {}, [])
  {
    forall id: nat | id < |r.conns| && r.conns[id].closes == 0
      ensures id !in debtors
    {
      assert r.conns[id].fd in r.open;
    }
  }

  lemma SendingStarts(r: Room, token: seq<byte>, ready: set<nat>, i: nat, owing: set<nat>, text: seq<byte>)
    requires Inv(r, token, {}, owing, text) && i in r.open && Owed(r, i, 0, owing)
    ensures Sending(r, r, ready, ready, 0, i, 0, owing, [])
  {
    assert r.hist == r.hist + Losses([]);
  }

  lemma SendingEnds(start: Room, r: Room, token: seq<byte>, ready0: set<nat>, ready: set<nat>, faults: int,
                    i: nat, j: nat, owing: set<nat>, drops: seq<nat>, text: seq<byte>)
    requires Inv(r, token, {}, owing, text) && forall fd | fd in r.open :: fd < j
    requires Sending(start, r, ready0, ready, faults, i, j, owing, drops)
    ensures Inv(r, token, {}, {}, []) && Spares(start, r, i)
    ensures ready == ready0 - (start.open.Keys - r.open.Keys)
    ensures r.hist == start.hist + Losses(drops)
    ensures faults >= 0 && (drops == [] <==> faults == 0) && Lost(start, r, i, drops)
  {
    AllPaid(r, token, i, j, owing, text);
  }

  lemma SendingOwes(start: Room, r: Room, ready0: set<nat>, ready: set<nat>, faults: int,
                    i: nat, j: nat, owing: set<nat>, drops: seq<nat>)
    requires Sending(start, r, ready0, ready, faults, i, j, owing, drops)
    requires j in r.open && j != i && |r.flags| == FD_SETSIZE && j < FD_SETSIZE && r.flags[j]
    ensures r.open[j] in owing
  {
  }

  lemma HandedFacts(r: Room, r': Room, j: nat, lost: bool)
    requires Wired(r.conns, r.open) && j in r.open && Handed(r, r', j, lost)
    ensures r'.flags == r.flags && r'.open.Keys <= r.open.Keys
  {
  }

  lemma HandedNext(start: Room, r: Room, r': Room, ready0: set<nat>, ready: set<nat>, ready': set<nat>,
                   faults: int, faults': int, i: nat, j: nat, owing: set<nat>, drops: seq<nat>, dropped: seq<nat>)
    requires Sending(start, r, ready0, ready, faults, i, j, owing, drops)
    requires Wired(r.conns, r.open) && j in r.open && j != i && Handed(r, r', j, dropped != [])
    requires dropped == [] || dropped == [r.open[j]]
    requires ready' == if dropped == [] then ready else ready - {j}
    requires r'.hist == r.hist + Losses(dropped)
    requires faults' >= faults && (dropped == [] <==> faults' == faults)
    ensures Sending(start, r', ready0, ready', faults', i, j + 1, owing - {r.open[j]}, drops + dropped)
  {
    hide Wired, Owed, Spares, Lost, Losses, Handed;
    LossesConcat(drops, dropped);
    HandedSpares(start, r, r', i, j, dropped != []);
    HandedOwed(r, r', i, j, owing, dropped != []);
    HandedLost(start, r, r', i, j, drops, dropped);
    HandedFacts(r, r', j, dropped != []);
    HandedReady(start, r, r', ready0, ready, i, j, dropped != []);
  }

  lemma HandedReady(start: Room, r: Room, r': Room, ready0: set<nat>, ready: set<nat>, i: nat, j: nat, lost: bool)
    requires Wired(r.conns, r.open) && j in r.open && Handed(r, r', j, lost) && Spares(start, r, i)
    requires ready == ready0 - (start.open.Keys - r.open.Keys)
    ensures (if lost then ready - {j} else ready) == ready0 - (start.open.Keys - r'.open.Keys)
  {
  }

  lemma HandedSpares(start: Room, r: Room, r': Room, i: nat, j: nat, lost: bool)
    requires Wired(r.conns, r.open) && j in r.open && j != i && Handed(r, r', j, lost)
    requires Spares(start, r, i)
    ensures Spares(start, r', i)
  {
  }

  lemma HandedLost(start: Room, r: Room, r': Room, i: nat, j: nat, drops: seq<nat>, dropped: seq<nat>)
    requires Wired(r.conns, r.open) && j in r.open && Handed(r, r', j, dropped != [])
    requires Spares(start, r, i) && Lost(start, r, i, drops)
    requires dropped == [] || dropped == [r.open[j]]
    ensures Lost(start, r', i, drops + dropped)
  {
  }

  lemma HandedOwed(r: Room, r': Room, i: nat, j: nat, owing: set<nat>, lost: bool)
    requires Wired(r.conns, r.open) && j in r.open && j != i && Handed(r, r', j, lost)
    requires |r.flags| == FD_SETSIZE && forall fd | fd in r.open :: fd < FD_SETSIZE
    requires Owed(r, i, j, owing)
    ensures Owed(r', i, j + 1, owing - {r.open[j]})
  {
  }

  lemma SkippedNext(start: Room, r: Room, ready0: set<nat>, ready: set<nat>, faults: int,
                    i: nat, j: nat, owing: set<nat>, drops: seq<nat>)
    requires Sending(start, r, ready0, ready, faults, i, j, owing, drops)
    requires !(j in r.open && j != i && j < |r.flags| && r.flags[j])
    ensures Sending(start, r, ready0, ready, faults, i, j + 1, owing, drops)
  {
  }

  /** A failed broadcast leaves the connection ready to be dropped: a strict prefix of its stream was sent. */
  lemma UnpaidKeeps(r: Room, token: seq<byte>, id: nat, debtors: set<nat>, text: seq<byte>, part: seq<byte>)
    requires Inv(r, token, {}, debtors, text)
    requires id < |r.conns| && id in debtors && r.conns[id].closes == 0 && ViewOf(r.hist, id).line.Some?
    requires part < text
    ensures Inv(r.(conns := r.conns[id := r.conns[id].Sends(part)]), token, {id}, debtors, text)
    ensures MayPart(r.conns[id].Sends(part), ViewOf(r.hist, id), SendFault, token)
  {
    hide Legal, Flagged, Wired, IsAuthLine;
    SendKeepsWired(r.conns, r.open, id, part);
    OthersRecorded(r.conns, r.hist, token, debtors, text, id, r.conns[id].Sends(part));
    assert Agrees(r.conns[id], ViewOf(r.hist, id), text, token);
    assert text == part + text[|part|..];
  }

  /** The connection on `fd` is closed and its leaving recorded. */
  function Parted(r: Room, fd: nat, why: Why): Room
    requires fd in r.open && r.open[fd] < |r.conns|
  {
    var id := r.open[fd];
    Room(r.conns[id := r.conns[id].(closes := 1)], r.open - {fd}, r.flags, r.hist + [Left(id, why)])
  }

  /** A justified close agrees with the record of it. */
  lemma PartedAgrees(c: Conn, v: View, why: Why, token: seq<byte>)
    requires v.left.None? && MayPart(c, v, why, token)
    ensures Agrees(c.(closes := 1), v.(left := Some(why)), [], token)
  {
    hide IsAuthLine;
  }

  lemma PartKeeps(r: Room, token: seq<byte>, fd: nat, why: Why, debtors: set<nat>, text: seq<byte>)
    requires fd in r.open && Inv(r, token, {r.open[fd]}, debtors, text)
    requires ViewOf(r.hist, r.open[fd]).left.None?
    requires MayPart(r.conns[r.open[fd]], ViewOf(r.hist, r.open[fd]), why, token)
    ensures r.open[fd] < |r.conns| && Inv(Parted(r, fd, why), token, {}, debtors - {r.open[fd]}, text)
  {
    hide Legal, Flagged, Recorded, Wired, MayPart;
    WiredAt(r.conns, r.open, fd);
    CloseKeepsWired(r.conns, r.open, fd);
    LegalAfter(r.hist, Left(r.open[fd], why), token);
    PartFlagged(r.open, r.flags, r.hist, fd, why);
    PartRecorded(r.conns, r.hist, r.open[fd], why, debtors, text, token);
  }

  lemma PartFlagged(open: map<nat, nat>, flags: seq<bool>, hist: seq<Event>, fd: nat, why: Why)
    requires Flagged(open, flags, hist) && fd in open
    ensures Flagged(open - {fd}, flags, hist + [Left(open[fd], why)])
  {
    ViewAfter(hist, Left(open[fd], why));
  }

  lemma PartRecorded(conns: seq<Conn>, hist: seq<Event>, id: nat, why: Why, debtors: set<nat>, text: seq<byte>,
                     token: seq<byte>)
    requires Recorded(conns, hist, token, {id}, debtors, text) && id < |conns|
    requires ViewOf(hist, id).left.None? && MayPart(conns[id], ViewOf(hist, id), why, token)
    ensures Recorded(conns[id := conns[id].(closes := 1)], hist + [Left(id, why)], token, {}, debtors - {id}, text)
  {
    hide Agrees, MayPart;
    ViewAfter(hist, Left(id, why));
    PartedAgrees(conns[id], ViewOf(hist, id), why, token);
  }
}
