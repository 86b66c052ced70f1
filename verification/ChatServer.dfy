/** The authenticated chat server: one select loop over the listener and the clients. */
module ChatServer {
  import opened Bytes
  import opened Auth
  import opened Kernels
  import opened SocketLoops
  import opened History
  import opened Rooms
  import opened Reactions
  import opened Trails
  import opened Scans

  ghost predicate Mirrors(a: array<bool>, flags: seq<bool>)
    reads a
  {
    a.Length == FD_SETSIZE == |flags| && forall i | 0 <= i < FD_SETSIZE :: flags[i] == a[i]
  }

  class Server {
    const k: Kernel
    const token: seq<byte>
    const listener: nat
    var list: set<nat>
    var readList: set<nat>
    var maxSet: nat
    const authed: array<bool>
    ghost var flags: seq<bool>   // authed[..]
    ghost var hist: seq<Event>

    ghost function Now(): Room
      reads this`flags, this`hist, k`conns, k`open
    {
      Room(k.conns, k.open, flags, hist)
    }

    /** The descriptor sets agree with the kernel's. */
    ghost predicate Tracks()
      reads this`list, this`maxSet, this`flags, k`conns, k`open, authed
    {
      && k.Valid() && listener in k.reserved
      && Watching(k.open, listener, list, maxSet)
      && Mirrors(authed, flags)
    }

    ghost predicate Valid()
      reads this, k, authed
    {
      Tracks() && Inv(Now(), token, {}, {}, [])
    }

    constructor (k: Kernel, token: seq<byte>, listener: nat)
      requires k.Valid() && k.conns == [] && listener in k.reserved && listener < FD_SETSIZE
      ensures Valid() && fresh(authed)
      ensures this.k == k && this.token == token && this.listener == listener && Now() == NewRoom()
    {
      this.k, this.token, this.listener := k, token, listener;
      list, readList, maxSet, hist := {listener}, {}, listener, [];
      authed := new bool[FD_SETSIZE](_ => false);
      flags := seq(FD_SETSIZE, _ => false);
    }

    method SetFlag(i: nat, flag: bool)
      requires i < authed.Length && Tracks()
      modifies this`flags, authed
      ensures Tracks() && flags == old(flags)[i := flag]
    {
      hide Wired;
      authed[i] := flag;
      flags := flags[i := flag];
    }

    /** close and FD_CLR, as on every path that ends a connection. */
    method Drop(fd: nat, why: Why, ghost debtors: set<nat>, ghost text: seq<byte>)
      requires fd in k.open && Tracks() && Inv(Now(), token, {k.open[fd]}, debtors, text)
      requires ViewOf(hist, k.open[fd]).left.None?
      requires MayPart(k.conns[k.open[fd]], ViewOf(hist, k.open[fd]), why, token)
      modifies this`list, this`hist, k`conns, k`open
      ensures Tracks() && Inv(Now(), token, {}, debtors - {old(k.open[fd])}, text)
      ensures debtors == {} && text == [] ==> Valid()
      ensures old(k.open[fd] < |k.conns|) && Now() == Parted(old(Now()), fd, why)
      ensures k.open == old(k.open) - {fd} && list == old(list) - {fd} && flags == old(flags)
      ensures hist == old(hist) + [Left(old(k.open[fd]), why)] && k.conns[old(k.open[fd])].closes == 1
    {
      hide Inv, Wired;
      PartKeeps(Now(), token, fd, why, debtors, text);
      ghost var id := k.open[fd];
      k.Close(fd);
      list := list - {fd};
      hist := hist + [Left(id, why)];
      assert debtors == {} ==> debtors - {id} == {};
    }

    /** A new connection is watched, unauthenticated; one that does not fit is closed at once. */
    method HandleAccept() returns (client: Option<nat>)
      requires Valid()
      modifies this`list, this`maxSet, this`hist, k`replies, k`conns, k`open, k`accepts, this`flags, authed
      ensures Valid() && |k.replies| <= |old(k.replies)| && old(maxSet) <= maxSet
      ensures k.accepts == old(k.accepts) + 1
      ensures client == old(if k.replies != [] && k.Acceptable(k.replies[0]) then Some(k.replies[0].fd) else None)
      ensures client.Some? ==> client.value !in old(k.open) && client.value != listener
      ensures old(|flags|) == FD_SETSIZE && Now() == Admitted(old(Now()), client)
      ensures client.None? ==>
                k.conns == old(k.conns) && k.open == old(k.open) && hist == old(hist) && list == old(list)
      ensures client.Some? ==>
                var fd, id := client.value, |old(k.conns)|;
                && k.conns[..|k.conns| - 1] == old(k.conns) && |k.conns| == id + 1 && k.conns[id].fd == fd
                && (if fd < FD_SETSIZE
                    then && k.open == old(k.open)[fd := id] && k.conns[id].closes == 0 && hist == old(hist)
                         && list == old(list) + {fd} && fd <= maxSet && flags[fd] == false
                    else && k.open == old(k.open) && k.conns[id].closes == 1 && list == old(list)
                         && hist == old(hist) + [Left(id, Rejected)])
    {
      hide Inv, Wired, Mirrors;
      ghost var before := Now();
      FlagCount();
      client := k.Accept();
      if client.Some? {
        var fd := client.value;
        if fd >= FD_SETSIZE {
          RejectKeeps(before, token, fd);
          k.Close(fd);
          hist := hist + [Left(|before.conns|, Rejected)];
          assert k.open == before.open;
          assert k.conns == before.conns + [NewConn(fd, 1)];
        } else {
          Watch(fd, before);
        }
      }
    }

    /** FD_SET, the new highest descriptor, and the flag of whoever held the number before. */
    method Watch(fd: nat, ghost before: Room)
      requires fd < FD_SETSIZE && fd !in before.open && k.Valid() && listener in k.reserved && fd !in k.reserved
      requires Inv(before, token, {}, {}, []) && before.flags == flags && before.hist == hist
      requires Watching(before.open, listener, list, maxSet) && Mirrors(authed, flags)
      requires k.conns == before.conns + [NewConn(fd, 0)] && k.open == before.open[fd := |before.conns|]
      modifies this`list, this`maxSet, this`flags, authed
      ensures Valid() && old(maxSet) <= maxSet && fd <= maxSet && list == old(list) + {fd}
      ensures flags == old(flags)[fd := false]
    {
      hide Inv, Wired;
      AdmitKeeps(before, token, fd);
      list := list + {fd};
      if fd > maxSet {
        maxSet := fd;
      }
      SetFlag(fd, false);
    }

    /** Hands `buf[..total]` to every other member, dropping those that cannot take all of it. */
    method Broadcast(i: nat, buf: array<byte>, total: nat, ghost debtors: set<nat>) returns (ghost drops: seq<nat>)
      requires i in k.open && 0 < total <= buf.Length
      requires Tracks() && Inv(Now(), token, {}, debtors, buf[..total]) && Owed(Now(), i, 0, debtors)
      modifies this`list, this`readList, this`hist, k`replies, k`conns, k`open, k`faults
      ensures Valid() && |k.replies| <= |old(k.replies)|
      ensures Spares(old(Now()), Now(), i)
      ensures readList == old(readList) - (old(k.open).Keys - k.open.Keys)
      ensures hist == old(hist) + Losses(drops)
      ensures drops == [] <==> k.faults == old(k.faults)
      ensures Lost(old(Now()), Now(), i, drops)
    {
      hide Inv, Wired, Sending, Owed, Spares;
      ghost var start, ready, faults := Now(), readList, k.faults;
      ghost var owing: set<nat> := debtors;
      drops := [];
      SendingStarts(start, token, ready, i, owing, buf[..total]);
      var j := 0;
      while j <= maxSet
        invariant 0 <= j <= maxSet + 1
        invariant Tracks() && Inv(Now(), token, {}, owing, buf[..total])
        invariant |k.replies| <= |old(k.replies)|
        invariant Sending(start, Now(), ready, readList, k.faults - faults, i, j, owing, drops)
      {
        owing, drops := Visit(i, j, buf, total, start, ready, faults, owing, drops);
        j := j + 1;
      }
      SendingEnds(start, Now(), token, ready, readList, k.faults - faults, i, j, owing, drops, buf[..total]);
    }

    /** The body of the broadcast loop. */
    method Visit(i: nat, j: nat, buf: array<byte>, total: nat, ghost start: Room, ghost ready: set<nat>,
                 ghost faults: nat, ghost owing: set<nat>, ghost drops: seq<nat>)
        returns (ghost owing': set<nat>, ghost drops': seq<nat>)
      requires total <= buf.Length && Tracks() && Inv(Now(), token, {}, owing, buf[..total])
      requires Sending(start, Now(), ready, readList, k.faults - faults, i, j, owing, drops)
      modifies this`list, this`readList, this`hist, k`replies, k`conns, k`open, k`faults
      ensures Tracks() && Inv(Now(), token, {}, owing', buf[..total])
      ensures |k.replies| <= |old(k.replies)|
      ensures Sending(start, Now(), ready, readList, k.faults - faults, i, j + 1, owing', drops')
    {
      hide Inv, Wired, Sending, Owed;
      owing', drops' := owing, drops;
      ghost var before, ready', faults' := Now(), readList, k.faults;
      if j in list && j != listener && j != i && authed[j] {
        SendingOwes(start, before, ready, ready', faults' - faults, i, j, owing, drops);
        ghost var dropped := HandTo(j, buf, total, owing);
        owing', drops' := owing - {before.open[j]}, drops + dropped;
        HandedNext(start, before, Now(), ready, ready', readList, faults' - faults, k.faults - faults, i, j,
                   owing, drops, dropped);
      } else {
        SkippedNext(start, before, ready, ready', faults' - faults, i, j, owing, drops);
      }
    }

    /** One recipient: send_all, and on failure close, FD_CLR from both sets. */
    method HandTo(j: nat, buf: array<byte>, total: nat, ghost owing: set<nat>) returns (ghost dropped: seq<nat>)
      requires j in k.open && j < authed.Length && authed[j] && total <= buf.Length
      requires Tracks() && Inv(Now(), token, {}, owing, buf[..total]) && k.open[j] in owing
      modifies this`list, this`readList, this`hist, k`replies, k`conns, k`open, k`faults
      ensures Tracks() && Inv(Now(), token, {}, owing - {old(k.open)[j]}, buf[..total])
      ensures |k.replies| <= |old(k.replies)|
      ensures hist == old(hist) + Losses(dropped)
      ensures k.faults >= old(k.faults) && (dropped == [] <==> k.faults == old(k.faults))
      ensures dropped == [] || dropped == [old(k.open)[j]]
      ensures k.open == if dropped == [] then old(k.open) else old(k.open) - {j}
      ensures readList == if dropped == [] then old(readList) else old(readList) - {j}
      ensures Handed(old(Now()), Now(), j, dropped != [])
    {
      hide Inv, Wired;
      ghost var before, id, text := Now(), k.open[j], buf[..total];
      OpenFacts(before, token, owing, text, j);
      var ok, m := SendAll(k, j, buf, total);
      assert Now() == before.(conns := before.conns[id := before.conns[id].Sends(buf[..m])]);
      if ok {
        PaidKeeps(before, token, id, owing, text);
        dropped := [];
      } else {
        assert buf[..m] < text;
        UnpaidKeeps(before, token, id, owing, text, buf[..m]);
        Drop(j, SendFault, owing, text);
        readList := readList - {j};
        dropped := [id];
        assert Losses(dropped) == [Left(id, SendFault)];
      }
    }

    /** A member's batch goes to all the others. */
    method Relay(i: nat, buf: array<byte>, total: nat, ghost text: seq<byte>) returns (ghost drops: seq<nat>)
      requires i in k.open && 0 < total <= buf.Length && text == buf[..total]
      requires Tracks() && Inv(Now(), token, {k.open[i]}, {}, [])
      requires i < |flags| && Unsettled(Now(), token, i, text) && flags[i]
      modifies this`list, this`readList, this`hist, k`replies, k`conns, k`open, k`faults
      ensures Valid() && |k.replies| <= |old(k.replies)|
      ensures Spares(old(Now()), Now(), i)
      ensures readList == old(readList) - (old(k.open).Keys - k.open.Keys)
      ensures hist == old(hist) + [Said(old(k.open[i]), text)] + Losses(drops)
      ensures drops == [] <==> k.faults == old(k.faults)
      ensures Lost(old(Now()), Now(), i, drops)
    {
      ghost var before, id := Now(), k.open[i];
      hide Inv, Wired, Owed, Spares, Lost, Watching, Mirrors, Losses;
      SaidKeeps(before, token, i, text);
      OthersOwed(before, token, i);
      hist := hist + [Said(id, text)];
      ghost var said := hist;
      drops := Broadcast(i, buf, total, Others(before, id));
      HistoryAside(before, said, Now(), i, drops);
    }

    /** The flag of an authenticated descriptor is raised. */
    method Join(i: nat, ghost line: seq<byte>)
      requires i in k.open && i < |flags| && Tracks() && Inv(Now(), token, {k.open[i]}, {}, [])
      requires ViewOf(hist, k.open[i]) == STRANGER && IsAuthLine(line, token) && k.open[i] < |k.conns|
      requires k.conns[k.open[i]].received == line && k.conns[k.open[i]].sent == []
      modifies this`hist, this`flags, authed
      ensures Valid()
      ensures Now() == old(Now().(flags := flags[i := true], hist := hist + [Joined(k.open[i], line)]))
    {
      hide Inv, Wired, Watching, ViewOf, IsAuthLine;
      JoinKeeps(Now(), token, i, line);
      SetFlag(i, true);
      hist := hist + [Joined(k.open[i], line)];
    }

    /** A stranger's first batch must be the AUTH line. */
    method Authenticate(i: nat, buf: array<byte>, total: nat, ghost text: seq<byte>) returns (ok: bool)
      requires i in k.open && 0 < total <= buf.Length && text == buf[..total]
      requires Tracks() && Inv(Now(), token, {k.open[i]}, {}, [])
      requires i < |flags| && Unsettled(Now(), token, i, text) && !flags[i]
      modifies this`list, this`hist, k`conns, k`open, this`flags, authed
      ensures Valid()
      ensures Reacted(old(Now()), Now(), token, i, text, [], !ok)
    {
      ghost var before := Now();
      hide Inv, Wired, Watching, Mirrors, Reacted, Unsettled, MayPart, ViewOf, IsAuthLine;
      WiredAt(k.conns, k.open, i);
      StrangerFacts(before, token, i, text);
      ok := CheckAuth(buf, total, token);
      if ok {
        ReactedByJoining(before, token, i, text);
        Join(i, text);
      } else {
        ReactedByRefusing(before, token, i, text);
        Drop(i, NotAuthorised, {}, []);
      }
    }

    /** What follows a drained batch: nothing, admission, refusal, or a broadcast. */
    method React(i: nat, buf: array<byte>, total: nat, ghost text: seq<byte>)
        returns (refused: bool, ghost drops: seq<nat>)
      requires i in k.open && total <= buf.Length && text == buf[..total]
      requires Tracks() && Inv(Now(), token, {k.open[i]}, {}, [])
      requires Unsettled(Now(), token, i, text)
      modifies this`list, this`readList, this`hist, k`replies, k`conns, k`open, k`faults, this`flags, authed
      ensures Valid() && |k.replies| <= |old(k.replies)|
      ensures readList == old(readList) - (old(k.open).Keys - k.open.Keys - {i})
      ensures Reacted(old(Now()), Now(), token, i, text, drops, refused)
      ensures k.faults == old(k.faults) <==> drops == []
    {
      hide Inv, Wired, Unsettled, Reacted;
      ghost var before := Now();
      WiredAt(k.conns, k.open, i);
      drops, refused := [], false;
      if total > 0 && !authed[i] {
        var ok := Authenticate(i, buf, total, text);
        refused := !ok;
        ReactedReadList(before, Now(), token, i, text, refused);
      } else if total > 0 {
        drops := Relay(i, buf, total, text);
        ReactedBySaying(before, Now(), token, i, text, drops);
      } else {
        NothingKeeps(before, token, i);
        ReactedToNothing(before, token, i);
      }
    }

    /** One ready client: drain, authenticate or broadcast, and close it if it must go. */
    method Service(i: nat) returns (ghost d: Drained, ghost text: seq<byte>, ghost drops: seq<nat>)
      requires Valid() && i in k.open && i < |flags| && k.open[i] < |k.conns|
      modifies this`list, this`readList, this`hist, k`replies, k`conns, k`open, k`faults, this`flags, authed
      ensures Valid() && |k.replies| <= |old(k.replies)|
      ensures Serviced(old(Now()), Now(), token, i, d, text, drops)
      ensures readList == old(readList) - (old(k.open).Keys - k.open.Keys - {i})
      ensures k.faults == old(k.faults) <==> drops == [] && (d.Batch? || d.TooBig?)
    {
      hide Inv, Wired, Watching, Mirrors, Unsettled, MayPart, Reacted, Serviced;
      ghost var before, id := Now(), k.open[i];
      drops := [];
      var r, buf, total, copied := Drain(k, i, INITIAL_BUF_SIZE, MAX_MSG_SIZE);
      d, text := r, buf[..total];
      ghost var read := Now();
      ReadKeeps(before, token, id, k.conns[id], text);
      ReadFacts(before, token, i, k.conns[id], text);
      if !r.Batch? {
        Drop(i, Cause(r), {}, []);
        ServicedFault(before, read, token, i, d, text);
        return;
      }
      var refused;
      refused, drops := React(i, buf, total, text);
      ghost var after := Now();
      if r.eof && !refused {
        ReactedFacts(read, after, token, i, text, drops, refused);
        SettledFacts(after, token, i);
        Drop(i, HungUp, {}, []);
      }
      ServicedBatch(before, read, after, token, i, d, text, drops, refused);
    }

    /** One descriptor of a pass. */
    method ScanAt(i: nat, ghost start: Room, ghost ready: set<nat>, ghost steps: seq<Step>)
        returns (ghost steps': seq<Step>)
      requires Valid() && i <= maxSet && Wired(start.conns, start.open)
      requires Scanning(start, Now(), listener, ready, readList, i, ServedIn(steps))
      requires Trail(steps, start, Now(), token, listener)
      modifies this`list, this`readList, this`maxSet, this`hist, this`flags, authed
      modifies k`replies, k`conns, k`open, k`faults, k`accepts
      ensures Valid() && |k.replies| <= |old(k.replies)|
      ensures Scanning(start, Now(), listener, ready, readList, i + 1, ServedIn(steps'))
      ensures Trail(steps', start, Now(), token, listener)
      ensures listener in readList <==> listener in old(readList)
      ensures k.accepts == old(k.accepts) + (if i == listener && i in old(readList) then 1 else 0)
    {
      hide Inv, Wired, Watching, Mirrors, Scanning, Serviced, Trail, Admitted, Accepted;
      ghost var before, ready', served := Now(), readList, ServedIn(steps);
      steps' := steps;
      if i !in readList {
        ScanSkips(start, before, listener, ready, readList, i, served);
        return;
      }
      ghost var step;
      if i == listener {
        var client := HandleAccept();
        step := Accepts(before, Now(), client);
        FlagCount();
        AdmittedIsAccepted(before, client);
        ScanAccepts(start, before, Now(), listener, ready, readList, i, served);
      } else {
        ScanVisits(start, before, listener, ready, readList, i, served);
        WiredAt(k.conns, k.open, i);
        FlagAt(i);
        ListenerApart();
        ghost var d, text, drops := Service(i);
        step := Serves(before, Now(), i, d, text, drops);
        ScanServices(start, before, Now(), token, listener, ready, ready', readList, i, served, d, text, drops);
      }
      ServedNow(steps, step);
      TrailNext(steps, start, before, token, listener, step);
      steps' := steps + [step];
    }

    lemma ListenerApart()
      requires Tracks()
      ensures listener !in k.open && listener <= maxSet
    {
      assert listener in list;
    }

    lemma FlagCount()
      requires Tracks()
      ensures |flags| == FD_SETSIZE
    {
    }

    lemma FlagAt(i: nat)
      requires Tracks() && i in k.open
      ensures i < |flags|
    {
      assert i in list;
    }

    /**
     One pass over the descriptors that select reported. A connection is serviced at most once, and
     only if it was open when the pass began: not one closed or accepted during it. Every reported
     one is serviced unless a broadcast of the same pass dropped it first.
     */
    method Scan() returns (ghost steps: seq<Step>)
      requires Valid() && readList <= list
      modifies this`list, this`readList, this`maxSet, this`hist, this`flags, authed
      modifies k`replies, k`conns, k`open, k`faults, k`accepts
      ensures Valid() && |k.replies| <= |old(k.replies)|
      ensures Trail(steps, old(Now()), Now(), token, listener)
      ensures Scanned(old(Now()), Now(), listener, old(readList), ServedIn(steps))
      ensures forall id | id in ServedIn(steps) :: id < |old(k.conns)| && old(k.conns)[id].fd in old(readList)
      ensures forall id: nat | id < |k.conns| && id !in ServedIn(steps) ::
                k.conns[id].recvs == if id < |old(k.conns)| then old(k.conns)[id].recvs else 0
      ensures forall fd | fd in old(readList) && fd != listener ::
                && fd in old(k.open)
                && (old(k.open)[fd] in ServedIn(steps) || Left(old(k.open)[fd], SendFault) in hist)
      ensures k.accepts == old(k.accepts) + (if listener in old(readList) then 1 else 0)
    {
      hide Inv, Wired, Scanning, Scanned, Trail, Mirrors;
      ghost var start, ready := Now(), readList;
      steps := [];
      var i := 0;
      ScanStarts(start, listener, ready);
      TrailStarts(start, token, listener);
      while i <= maxSet
        invariant i <= FD_SETSIZE
        invariant Valid() && |k.replies| <= |old(k.replies)|
        invariant Scanning(start, Now(), listener, ready, readList, i, ServedIn(steps))
        invariant Trail(steps, start, Now(), token, listener)
        invariant listener in readList <==> listener in ready
        invariant k.accepts == old(k.accepts) + (if listener in ready && listener < i then 1 else 0)
        decreases FD_SETSIZE - i
      {
        steps := ScanAt(i, start, ready, steps);
        i := i + 1;
      }
      ListenerApart();
      ScanEnds(start, Now(), listener, ready, readList, i, ServedIn(steps));
      ScannedMeans(start, Now(), listener, ready, ServedIn(steps));
    }

    lemma WatchesAll(poll: Poll)
      requires Tracks() && poll.watched == list && poll.nfds == maxSet + 1
      ensures Complete(poll, Now(), listener)
    {
    }

    /** The select loop. It ends only when select fails. The run is a chain of passes, one for each
        return of select, which is asked about every open descriptor; each pass is over exactly the
        descriptors that were reported. */
    method Serve() returns (status: nat, ghost passes: seq<Pass>)
      requires Valid() && k.polls == []
      modifies this`list, this`readList, this`maxSet, this`hist, this`flags, authed
      modifies k`replies, k`conns, k`open, k`faults, k`accepts, k`polls
      ensures Valid() && status == 4
      ensures Chained(passes, old(Now()), Now(), token, listener, k.polls)
    {
      hide Inv, Wired, Scanned, Chained, Mirrors;
      ChainStarts(Now(), token, listener);
      passes := [];
      while true
        invariant Valid() && Chained(passes, old(Now()), Now(), token, listener, k.polls)
        decreases |k.replies|
      {
        ghost var polls := k.polls;
        readList := list;
        var ready := k.Select(maxSet + 1, readList);
        if ready.None? {
          return 4, passes;
        }
        readList := ready.value;
        ghost var before := Now();
        ghost var poll := Poll(maxSet + 1, list, ready.value);
        assert k.polls == polls + [poll];
        WatchesAll(poll);
        ghost var steps := Scan();
        ghost var pass := Pass(before, Now(), steps);
        assert Passes(pass, token, listener, poll.ready);
        ChainedNext(passes, old(Now()), before, token, listener, polls, pass, poll);
        passes := passes + [pass];
      }
    }
  }

  /** The program from its token check on. Whatever the kernel does, the server's books are in order
      whenever it waits in select: the script of replies may end at any select. */
  method Run(env: Option<seq<byte>>, k: Kernel, listener: nat)
      returns (status: nat, s: Option<Server>, ghost passes: seq<Pass>)
    requires k.Valid() && k.conns == [] && k.polls == [] && listener in k.reserved && listener < FD_SETSIZE
    modifies k
    ensures s.Some? <==> env.Some? && |env.value| >= 16
    ensures status == if s.Some? then 4 else 5
    ensures s.Some? ==> Chained(passes, NewRoom(), s.value.Now(), env.value, listener, k.polls)
    ensures s.Some? ==> s.value.Valid() && s.value.k == k && s.value.token == env.value && s.value.listener == listener
  {
    if env.None? || |env.value| < 16 {
      return 5, None, [];
    }
    var server := new Server(k, env.value, listener);
    status, passes := server.Serve();
    s := Some(server);
  }
}
