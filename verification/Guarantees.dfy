/** What the chat room's invariant means to the people in it. */
module Guarantees {
  import opened Bytes
  import opened Auth
  import opened Kernels
  import opened History
  import opened Rooms

  /** All that was said by others than `id`, in order. */
  function SaidByOthers(h: seq<Event>, id: nat): seq<byte> {
    if h == [] then []
    else SaidByOthers(h[..|h| - 1], id) +
         (if h[|h| - 1].Said? && h[|h| - 1].who != id then h[|h| - 1].text else [])
  }

  predicate JoinsAt(h: seq<Event>, a: nat, id: nat) {
    a < |h| && h[a].Joined? && h[a].who == id
  }

  predicate StaysIn(h: seq<Event>, id: nat) {
    forall e | e in h :: !(e.Left? && e.who == id)
  }

  /** How often `id` leaves in `h`. */
  function Departures(h: seq<Event>, id: nat): nat {
    if h == [] then 0
    else Departures(h[..|h| - 1], id) + (if h[|h| - 1].Left? && h[|h| - 1].who == id then 1 else 0)
  }

  lemma LastStep(h: seq<Event>, token: seq<byte>)
    requires Legal(h, token) && h != []
    ensures Legal(h[..|h| - 1], token) && May(h[..|h| - 1], h[|h| - 1], token)
  {
    LegalPrefix(h, |h| - 1, token);
  }

  /** What a member's stream is made of: everything the others said since it joined, up to when it left. */
  lemma {:induction false} StreamSinceJoining(h: seq<Event>, token: seq<byte>, a: nat, id: nat)
    requires Legal(h, token) && JoinsAt(h, a, id) && StaysIn(h, id)
    ensures ViewOf(h, id).Member() && ViewOf(h, id).stream == SaidByOthers(h[a + 1..], id)
    decreases |h|
  {
    hide Legal, SaidByOthers, IsAuthLine;
    var n := |h| - 1;
    LastStep(h, token);
    assert StaysIn(h[..n], id) by {
      assert forall e | e in h[..n] :: e in h;
    }
    assert h[n] in h;
    if a == n {
      OnlyMembersCount(h[..n], id, token);
      NobodySince(h, id);
    } else {
      StreamSinceJoining(h[..n], token, a, id);
      OthersAfter(h, a, id);
    }
  }

  lemma NobodySince(h: seq<Event>, id: nat)
    ensures SaidByOthers(h[|h|..], id) == []
  {
  }

  lemma OthersAfter(h: seq<Event>, a: nat, id: nat)
    requires a + 1 < |h|
    ensures var n := |h| - 1;
            SaidByOthers(h[a + 1..], id) ==
            SaidByOthers(h[..n][a + 1..], id) + (if h[n].Said? && h[n].who != id then h[n].text else [])
  {
    assert h[a + 1..][..|h[a + 1..]| - 1] == h[..|h| - 1][a + 1..];
  }

  /** ... after which nothing is added. */
  lemma {:induction false} StreamEndsAtLeaving(h: seq<Event>, token: seq<byte>, b: nat, id: nat)
    requires Legal(h, token) && b < |h| && h[b].Left? && h[b].who == id
    ensures ViewOf(h, id).left == Some(h[b].why)
    ensures ViewOf(h, id).stream == ViewOf(h[..b], id).stream
    decreases |h|
  {
    hide Legal;
    var n := |h| - 1;
    LastStep(h, token);
    if b < n {
      StreamEndsAtLeaving(h[..n], token, b, id);
      assert h[..n][..b] == h[..b];
    }
  }

  lemma {:induction false} LeavesOnce(h: seq<Event>, token: seq<byte>, id: nat)
    requires Legal(h, token)
    ensures Departures(h, id) == if ViewOf(h, id).left.Some? then 1 else 0
  {
    if h != [] {
      var n := |h| - 1;
      LegalPrefix(h, n, token);
      assert May(h[..n], h[n], token);
      LeavesOnce(h[..n], token, id);
    }
  }

  /** An open, authenticated connection has been handed exactly what the others said since it joined. */
  lemma LiveMembersGotEverything(r: Room, token: seq<byte>, fd: nat, a: nat)
    requires Inv(r, token, {}, {}, []) && fd in r.open && JoinsAt(r.hist, a, r.open[fd])
    ensures r.open[fd] < |r.conns|
    ensures r.flags[fd] && r.conns[r.open[fd]].sent == SaidByOthers(r.hist[a + 1..], r.open[fd])
  {
    var id := r.open[fd];
    OpenFacts(r, token, {}, [], fd);
    StillIn(r.hist, id, token);
    StreamSinceJoining(r.hist, token, a, id);
  }

  /** In particular, of everything said by another since it joined, each text is in what it was sent, after
      all that was said before. */
  lemma EveryTextArrived(r: Room, token: seq<byte>, fd: nat, a: nat, k: nat) returns (p: nat)
    requires Inv(r, token, {}, {}, []) && fd in r.open && JoinsAt(r.hist, a, r.open[fd])
    requires a < k < |r.hist| && r.hist[k].Said? && r.hist[k].who != r.open[fd]
    ensures r.open[fd] < |r.conns| && p + |r.hist[k].text| <= |r.conns[r.open[fd]].sent|
    ensures r.conns[r.open[fd]].sent[p..p + |r.hist[k].text|] == r.hist[k].text
    ensures r.conns[r.open[fd]].sent[..p] == SaidByOthers(r.hist[a + 1..k], r.open[fd])
  {
    hide Inv;
    var id := r.open[fd];
    LiveMembersGotEverything(r, token, fd, a);
    var h := r.hist[a + 1..];
    assert h[k - a - 1] == r.hist[k] && h[..k - a - 1] == r.hist[a + 1..k];
    TextStays(h, k - a - 1, id);
    p := |SaidByOthers(h[..k - a - 1], id)|;
    var before, text, all := SaidByOthers(h[..k - a - 1], id), r.hist[k].text, r.conns[id].sent;
    assert before + text <= all;
    assert all[..p + |text|] == before + text;
    assert all[..p] == (before + text)[..p] && all[p..p + |text|] == (before + text)[p..];
  }

  lemma {:induction false} TextStays(h: seq<Event>, k: nat, id: nat)
    requires k < |h| && h[k].Said? && h[k].who != id
    ensures SaidByOthers(h[..k], id) + h[k].text <= SaidByOthers(h, id)
    decreases |h|
  {
    var n := |h| - 1;
    if k < n {
      TextStays(h[..n], k, id);
      assert h[..n][..k] == h[..k];
    }
  }

  /** A member dropped for a failed send was handed a strict prefix of what was due to it when it left. */
  lemma DroppedMembersGotStrictPrefix(r: Room, token: seq<byte>, b: nat, id: nat) returns (a: nat)
    requires Inv(r, token, {}, {}, []) && id < |r.conns|
    requires b < |r.hist| && r.hist[b] == Left(id, SendFault)
    ensures a < b && JoinsAt(r.hist, a, id) && r.conns[id].sent < SaidByOthers(r.hist[a + 1..b], id)
  {
    var h := r.hist[..b];
    StreamEndsAtLeaving(r.hist, token, b, id);
    LegalPrefix(r.hist, b, token);
    assert Agrees(r.conns[id], ViewOf(r.hist, id), [], token);
    assert May(h, r.hist[b], token);
    LineBeforeLeaving(r.hist, token, b, id);
    a := JoinedAt(h, id, token);
    StillIn(h, id, token);
    StreamSinceJoining(h, token, a, id);
    assert h[a + 1..] == r.hist[a + 1..b];
  }

  /** What the recorded reason of a departure says. `line` is what the connection joined with, or empty if
      it never did, and `due` is what the others said while it was a member. */
  lemma WhyTheyLeft(r: Room, token: seq<byte>, b: nat, id: nat)
      returns (joined: bool, line: seq<byte>, due: seq<byte>)
    requires Inv(r, token, {}, {}, []) && b < |r.hist| && r.hist[b].Left? && r.hist[b].who == id
    ensures if joined
            then exists a: nat :: a < b && JoinsAt(r.hist, a, id) && line == r.hist[a].line && IsAuthLine(line, token)
                                  && due == SaidByOthers(r.hist[a + 1..b], id)
            else line == due == SaidBy(r.hist, id) == [] && forall a: nat :: !JoinsAt(r.hist, a, id)
    ensures id < |r.conns| && r.conns[id].closes == 1
    ensures var c, heard := r.conns[id], line + SaidBy(r.hist, id);
            match r.hist[b].why
            case Rejected => !joined && c.received == [] && c.fd >= FD_SETSIZE
            case NotAuthorised => !joined && c.received != [] && !IsAuthLine(c.received, token)
            case Overflow => heard <= c.received && |c.received| == |heard| + MAX_MSG_SIZE
            case SendFault => joined && c.received == heard && c.sent < due
            case HungUp => c.ended && heard == c.received == c.arrived
            case _ => heard <= c.received
    ensures r.hist[b].why != SendFault ==> r.conns[id].sent == due
  {
    hide Wired, IsAuthLine;
    var h, v := r.hist[..b], ViewOf(r.hist, id);
    StreamEndsAtLeaving(r.hist, token, b, id);
    LineBeforeLeaving(r.hist, token, b, id);
    LegalPrefix(r.hist, b, token);
    assert May(h, r.hist[b], token);
    OnlyMembersCount(r.hist, id, token);
    SpokenIsSaid(r.hist, id);
    assert Agrees(r.conns[id], v, [], token);
    joined, due := v.line.Some?, v.stream;
    line := if joined then v.line.value else [];
    if joined {
      var a := JoinedAt(h, id, token);
      StillIn(h, id, token);
      StreamSinceJoining(h, token, a, id);
      assert h[a + 1..] == r.hist[a + 1..b];
      assert JoinsAt(r.hist, a, id);
    } else {
      forall a: nat | JoinsAt(r.hist, a, id)
        ensures false
      {
        JoiningShows(r.hist, a, id);
      }
    }
  }

  lemma {:induction false} LineBeforeLeaving(h: seq<Event>, token: seq<byte>, b: nat, id: nat)
    requires Legal(h, token) && b < |h| && h[b].Left? && h[b].who == id
    ensures ViewOf(h, id).line == ViewOf(h[..b], id).line
    decreases |h|
  {
    hide Legal;
    var n := |h| - 1;
    LastStep(h, token);
    if b < n {
      LineBeforeLeaving(h[..n], token, b, id);
      assert h[..n][..b] == h[..b];
      StreamEndsAtLeaving(h[..n], token, b, id);
    }
  }

  /** Somebody with a line did join, at some point. */
  lemma {:induction false} JoinedAt(h: seq<Event>, id: nat, token: seq<byte>) returns (a: nat)
    requires Legal(h, token) && ViewOf(h, id).line.Some?
    ensures JoinsAt(h, a, id) && ViewOf(h, id).line == Some(h[a].line)
  {
    var n := |h| - 1;
    if h[n].Joined? && h[n].who == id {
      a := n;
    } else {
      LegalPrefix(h, n, token);
      a := JoinedAt(h[..n], id, token);
    }
  }

  lemma {:induction false} JoiningShows(h: seq<Event>, a: nat, id: nat)
    requires JoinsAt(h, a, id)
    ensures ViewOf(h, id).line.Some?
    decreases |h|
  {
    if a < |h| - 1 {
      JoiningShows(h[..|h| - 1], a, id);
    }
  }

  lemma {:induction false} StillIn(h: seq<Event>, id: nat, token: seq<byte>)
    requires Legal(h, token) && ViewOf(h, id).left.None?
    ensures StaysIn(h, id)
  {
    forall b: nat | b < |h| && h[b].Left?
      ensures h[b].who != id
    {
      StreamEndsAtLeaving(h, token, b, h[b].who);
    }
  }

  /** Whoever never authenticated was sent nothing. */
  lemma StrangersGotNothing(r: Room, token: seq<byte>, id: nat)
    requires Inv(r, token, {}, {}, []) && id < |r.conns|
    requires forall a: nat :: !JoinsAt(r.hist, a, id)
    ensures r.conns[id].sent == []
  {
    if ViewOf(r.hist, id).line.Some? {
      var a := JoinedAt(r.hist, id, token);
    }
    OnlyMembersCount(r.hist, id, token);
    assert Agrees(r.conns[id], ViewOf(r.hist, id), [], token);
    assert r.conns[id].sent + [] == r.conns[id].sent;
  }

  /** The flag of an open descriptor is up exactly when the connection that holds it now, and not a
      former holder, began with an AUTH line; all it sent after that line has been broadcast. */
  lemma FlagMeansAuthenticated(r: Room, token: seq<byte>, fd: nat)
    requires Inv(r, token, {}, {}, []) && fd in r.open
    ensures r.open[fd] < |r.conns|
    ensures var id := r.open[fd]; var c := r.conns[id];
            && (r.flags[fd] <==> exists a: nat :: JoinsAt(r.hist, a, id))
            && (r.flags[fd] ==> exists a: nat :: JoinsAt(r.hist, a, id) && IsAuthLine(r.hist[a].line, token)
                                          && c.received == r.hist[a].line + SaidBy(r.hist, id))
            && (!r.flags[fd] ==> c.received == [])
  {
    var id := r.open[fd];
    OpenFacts(r, token, {}, [], fd);
    OnlyMembersCount(r.hist, id, token);
    SpokenIsSaid(r.hist, id);
    if r.flags[fd] {
      var a := JoinedAt(r.hist, id, token);
    } else {
      forall a: nat | a < |r.hist| && r.hist[a].Joined?
        ensures r.hist[a].who != id
      {
        StillIn(r.hist, id, token);
        JoiningShows(r.hist, a, r.hist[a].who);
      }
    }
  }

  function SaidBy(h: seq<Event>, id: nat): seq<byte> {
    if h == [] then []
    else SaidBy(h[..|h| - 1], id) + (if h[|h| - 1].Said? && h[|h| - 1].who == id then h[|h| - 1].text else [])
  }

  lemma {:induction false} SpokenIsSaid(h: seq<Event>, id: nat)
    ensures ViewOf(h, id).spoken == SaidBy(h, id)
  {
    if h != [] {
      SpokenIsSaid(h[..|h| - 1], id);
    }
  }

  /** Every connection there ever was is open, or was closed exactly once and for one recorded reason. */
  lemma ClosedExactlyOnce(r: Room, token: seq<byte>, id: nat)
    requires Inv(r, token, {}, {}, []) && id < |r.conns|
    ensures r.conns[id].closes == Departures(r.hist, id) <= 1
    ensures r.conns[id].closes == 0 <==> r.conns[id].fd in r.open && r.open[r.conns[id].fd] == id
  {
    LeavesOnce(r.hist, token, id);
    assert Agrees(r.conns[id], ViewOf(r.hist, id), [], token);
  }

  /** Nothing is broadcast but what a member says while it is one. */
  lemma SpeakersAreMembers(r: Room, token: seq<byte>, k: nat)
    requires Inv(r, token, {}, {}, []) && k < |r.hist| && r.hist[k].Said?
    ensures exists a: nat :: a < k && JoinsAt(r.hist, a, r.hist[k].who) && IsAuthLine(r.hist[a].line, token)
                        && StaysIn(r.hist[a..k], r.hist[k].who)
  {
    var id, h := r.hist[k].who, r.hist[..k];
    assert May(h, r.hist[k], token);
    LegalPrefix(r.hist, k, token);
    OnlyMembersCount(h, id, token);
    var a := JoinedAt(h, id, token);
    StillIn(h, id, token);
    assert forall e | e in r.hist[a..k] :: e in h;
  }
}
