/**
 AUTH lines that are broadcast. The batch that authenticates is not, but nothing keeps a member from
 sending the line again: exactly when that happens, a run in which it does, and which tokens let
 anybody in at all.
 */
module AuthLines {
  import opened Bytes
  import opened Auth
  import opened Kernels
  import opened SocketLoops
  import opened History
  import opened Rooms
  import opened Reactions
  import opened Trails
  import opened Scans
  import opened Guarantees

  /** An AUTH line fixes its sender's line for good. */
  lemma {:induction false} LineStays(h: seq<Event>, k: nat, id: nat, token: seq<byte>)
    requires Legal(h, token) && k <= |h| && ViewOf(h[..k], id).line.Some?
    ensures ViewOf(h, id).line == ViewOf(h[..k], id).line
    decreases |h|
  {
    hide Legal, IsAuthLine;
    if k < |h| {
      var n := |h| - 1;
      LastStep(h, token);
      assert h[..n][..k] == h[..k];
      LineStays(h[..n], k, id, token);
    } else {
      assert h[..k] == h;
    }
  }

  /** What is said stays where it is in the sender's words. */
  lemma {:induction false} WordsStay(h: seq<Event>, k: nat, id: nat)
    requires k < |h| && h[k].Said? && h[k].who == id
    ensures SaidBy(h[..k], id) + h[k].text <= SaidBy(h, id)
    decreases |h|
  {
    var n := |h| - 1;
    if k < n {
      WordsStay(h[..n], k, id);
      assert h[..n][..k] == h[..k];
    }
  }

  /** However a connection ended, its line and its words were received from it first. */
  lemma HeardWasReceived(c: Conn, v: View, token: seq<byte>)
    requires Agrees(c, v, [], token) && v.line.Some?
    ensures v.Heard() <= c.received
  {
  }

  /** Every broadcast was received from its sender, after the AUTH line and after all it had said before. */
  lemma BroadcastWasReceived(r: Room, token: seq<byte>, k: nat) returns (a: nat)
    requires Inv(r, token, {}, {}, []) && k < |r.hist| && r.hist[k].Said?
    ensures var id := r.hist[k].who;
            && a < k && JoinsAt(r.hist, a, id) && IsAuthLine(r.hist[a].line, token) && id < |r.conns|
            && r.hist[a].line + SaidBy(r.hist[..k], id) + r.hist[k].text <= r.conns[id].received
  {
    hide Wired, IsAuthLine;
    var id, h := r.hist[k].who, r.hist[..k];
    assert May(h, r.hist[k], token);
    LegalPrefix(r.hist, k, token);
    a := JoinedAt(h, id, token);
    OnlyMembersCount(h, id, token);
    LineStays(r.hist, k, id, token);
    assert ViewOf(r.hist, id) != STRANGER;
    SpokenIsSaid(r.hist, id);
    WordsStay(r.hist, k, id);
    assert Agrees(r.conns[id], ViewOf(r.hist, id), [], token);
    HeardWasReceived(r.conns[id], ViewOf(r.hist, id), token);
    var line, words, text := r.hist[a].line, SaidBy(h, id), r.hist[k].text;
    assert line + words + text == line + (words + text);
  }

  /** In any run: if an AUTH line was broadcast, its sender sent "AUTH " and the token once more after
      the line it joined with, at an offset that the history gives. */
  lemma AuthLineBroadcast(r: Room, token: seq<byte>, k: nat) returns (a: nat, p: nat)
    requires Inv(r, token, {}, {}, []) && k < |r.hist| && r.hist[k].Said? && IsAuthLine(r.hist[k].text, token)
    ensures var id := r.hist[k].who;
            && a < k && JoinsAt(r.hist, a, id) && id < |r.conns| && r.hist[a].line <= r.conns[id].received
            && p == |r.hist[a].line| + |SaidBy(r.hist[..k], id)|
            && p + 5 + |token| <= |r.conns[id].received|
            && r.conns[id].received[p..p + 5 + |token|] == PREFIX + token
  {
    hide Inv, SaidBy;
    a := BroadcastWasReceived(r, token, k);
    var id := r.hist[k].who;
    var line, words, text := r.hist[a].line, SaidBy(r.hist[..k], id), r.hist[k].text;
    p := |line| + |words|;
    Within(line, words, text, PREFIX + token, r.conns[id].received);
  }

  lemma Within(a: seq<byte>, b: seq<byte>, c: seq<byte>, d: seq<byte>, all: seq<byte>)
    requires a + b + c <= all && d <= c
    ensures a <= all && |a| + |b| + |d| <= |all| && all[|a| + |b|..|a| + |b| + |d|] == d
  {
    assert all[..|a| + |b| + |c|] == a + b + c;
  }

  /** In one service: an AUTH line is broadcast exactly when the flag was up and the batch is one. */
  lemma ServiceBroadcasts(before: Room, after: Room, token: seq<byte>, i: nat, d: Drained, text: seq<byte>,
                          drops: seq<nat>)
    requires i in before.open && before.open[i] < |before.conns| && i < |before.flags|
    requires Serviced(before, after, token, i, d, text, drops)
    ensures (exists k :: |before.hist| <= k < |after.hist| &&
                         after.hist[k].Said? && IsAuthLine(after.hist[k].text, token))
            <==> before.flags[i] && d.Batch? && IsAuthLine(text, token)
  {
    hide IsAuthLine, Narrows, Unread, Lost;
    var id, n := before.open[i], |before.hist|;
    var verdict := Verdict(id, before.flags[i], d, text, token);
    assert after.hist == before.hist + (verdict + Losses(drops) + Farewell(id, d, verdict));
    if before.flags[i] && d.Batch? && IsAuthLine(text, token) {
      NotEmpty(text, token);
      assert verdict == [Said(id, text)] && after.hist[n] == verdict[0];
    }
  }

  lemma NotEmpty(text: seq<byte>, token: seq<byte>)
    requires IsAuthLine(text, token)
    ensures text != []
  {
  }

  /** Is an AUTH line broadcast in this step? */
  ghost predicate RelaysLine(step: Step, token: seq<byte>) {
    && step.Serves? && step.i in step.before.open && step.i < |step.before.flags| && step.before.flags[step.i]
    && step.d.Batch? && IsAuthLine(step.text, token)
  }

  lemma RelaysIffSpoken(step: Step, token: seq<byte>)
    ensures RelaysLine(step, token) <==> exists e :: e in Spoken(step) && e.Said? && IsAuthLine(e.text, token)
  {
    hide IsAuthLine;
    if RelaysLine(step, token) {
      NotEmpty(step.text, token);
      assert Said(step.before.open[step.i], step.text) in Spoken(step);
    }
  }

  /** In a whole run: an AUTH line is broadcast exactly when some step of it drains one from a descriptor
      whose flag is up. */
  lemma AuthLinesOfRun(passes: seq<Pass>, last: Room, token: seq<byte>, listener: nat, polls: seq<Poll>)
    requires Chained(passes, NewRoom(), last, token, listener, polls)
    ensures (exists e :: e in last.hist && e.Said? && IsAuthLine(e.text, token))
            <==> exists step :: step in StepsOf(passes) && RelaysLine(step, token)
  {
    hide IsAuthLine, Chained, StepsOf, RelaysLine, Spoken, Broadcasts, AllSpoken;
    BroadcastsOfRun(passes, last, token, listener, polls);
    forall e: Event
      ensures e in last.hist && e.Said? <==> exists step :: step in StepsOf(passes) && e in Spoken(step)
    {
      SaidIsBroadcast(last.hist, e);
      SpokenSomewhere(StepsOf(passes), e);
    }
    forall step: Step
      ensures RelaysLine(step, token) <==> exists e :: e in Spoken(step) && e.Said? && IsAuthLine(e.text, token)
    {
      RelaysIffSpoken(step, token);
    }
  }

  // ----- which tokens let anybody in -----

  /** The token does not end in a line ending, and its AUTH line fits in a batch. */
  predicate CanOpen(token: seq<byte>)
    requires token != []
  {
    !IsEol(token[|token| - 1]) && |PREFIX + token| < MAX_MSG_SIZE
  }

  lemma LineFits(text: seq<byte>, token: seq<byte>)
    requires token != [] && IsAuthLine(text, token) && |text| < MAX_MSG_SIZE
    ensures CanOpen(token)
  {
    assert StripEol(text) == PREFIX + token;
    assert (PREFIX + token)[|PREFIX + token| - 1] == token[|token| - 1];
  }

  lemma {:induction false} NobodyJoins(steps: seq<Step>, last: Room, token: seq<byte>, listener: nat)
    requires token != [] && !CanOpen(token) && Trail(steps, NewRoom(), last, token, listener)
    ensures forall e | e in last.hist :: !e.Joined?
  {
    hide CanOpen, Takes;
    if steps != [] {
      var n := |steps| - 1;
      NobodyJoins(steps[..n], steps[n].before, token, listener);
      StepWithoutJoining(steps[n], token, listener);
    }
  }

  lemma StepWithoutJoining(step: Step, token: seq<byte>, listener: nat)
    requires token != [] && !CanOpen(token) && Takes(step, token, listener)
    requires forall e | e in step.before.hist :: !e.Joined?
    ensures forall e | e in step.after.hist :: !e.Joined?
  {
    hide CanOpen, IsAuthLine, Narrows, Unread, Lost;
    if step.Serves? && step.d.Batch? && IsAuthLine(step.text, token) {
      LineFits(step.text, token);
    }
  }

  /** With any other token nobody ever joins, speaks, or is sent anything, in any run. */
  lemma NobodyGetsIn(passes: seq<Pass>, last: Room, token: seq<byte>, listener: nat, polls: seq<Poll>)
    requires token != [] && !CanOpen(token) && Chained(passes, NewRoom(), last, token, listener, polls)
    ensures forall e | e in last.hist :: e.Left?
    ensures forall id: nat | id < |last.conns| :: last.conns[id].sent == []
    ensures forall fd | fd in last.open :: fd < |last.flags| && !last.flags[fd]
  {
    hide CanOpen, Inv, Trail, StepsOf;
    RunIsTrail(passes, NewRoom(), last, token, listener, polls);
    NobodyJoins(StepsOf(passes), last, token, listener);
    NewRoomKeeps(token);
    assert Inv(last, token, {}, {}, []);
    forall k: nat | k < |last.hist|
      ensures last.hist[k].Left?
    {
      assert last.hist[k] in last.hist;
      if last.hist[k].Said? {
        SpeakersAreMembers(last, token, k);
      }
    }
    forall id: nat | id < |last.conns|
      ensures last.conns[id].sent == []
    {
      StrangersGotNothing(last, token, id);
    }
    forall fd | fd in last.open
      ensures fd < |last.flags| && !last.flags[fd]
    {
      FlagInRange(last, token, fd);
      FlagMeansAuthenticated(last, token, fd);
    }
  }

  lemma NewRoomKeeps(token: seq<byte>)
    ensures Inv(NewRoom(), token, {}, {}, [])
  {
  }

  lemma FlagInRange(r: Room, token: seq<byte>, fd: nat)
    requires Inv(r, token, {}, {}, []) && fd in r.open
    ensures fd < |r.flags|
  {
  }

  // ----- a run that broadcasts an AUTH line -----

  const LISTENER := 3

  /** Two connections, on descriptors 4 and 5: what was read from and sent to each, and who has joined. */
  function Two(heard: seq<byte>, heard': seq<byte>, sent': seq<byte>, hist: seq<Event>): Room {
    Room([Conn(4, heard, heard, false, |heard|, [], 0), Conn(5, heard', heard', false, |heard'|, sent', 0)],
         map[4 := 0, 5 := 1], NewRoom().flags[4 := heard != []][5 := heard' != []], hist)
  }

  lemma TwoKeeps(heard: seq<byte>, heard': seq<byte>, sent': seq<byte>, hist: seq<Event>, token: seq<byte>)
    requires Legal(hist, token) && forall id: nat | 2 <= id :: ViewOf(hist, id) == STRANGER
    requires var v := ViewOf(hist, 0);
             v.left.None? && v.Heard() == heard && v.stream == [] && (v.line.Some? <==> heard != [])
    requires var v := ViewOf(hist, 1);
             v.left.None? && v.Heard() == heard' && v.stream == sent' && (v.line.Some? <==> heard' != [])
    ensures Inv(Two(heard, heard', sent', hist), token, {}, {}, [])
  {
    hide Legal, ViewOf;
    assert sent' + [] == sent';
  }

  /** Nobody; the first is admitted; the second is; the first joins; the second joins; the first sends
      its line again. */
  function Stage(n: nat, line: seq<byte>): Room
    requires n <= 5
  {
    match n
    case 0 => NewRoom()
    case 1 => Admitted(NewRoom(), Some(4))
    case 2 => Two([], [], [], [])
    case 3 => Two(line, [], [], [Joined(0, line)])
    case 4 => Two(line, line, [], [Joined(0, line), Joined(1, line)])
    case 5 => Two(line + line, line, line, [Joined(0, line), Joined(1, line), Said(0, line)])
  }

  lemma StagesKeep(line: seq<byte>, token: seq<byte>)
    requires IsAuthLine(line, token)
    ensures forall n: nat | n <= 5 :: Inv(Stage(n, line), token, {}, {}, [])
  {
    hide IsAuthLine, Inv;
    NotEmpty(line, token);
    NewRoomKeeps(token);
    AdmitKeeps(NewRoom(), token, 4);
    var a, b, c := Joined(0, line), Joined(1, line), Said(0, line);
    assert [a] == [] + [a] && [a, b] == [a] + [b] && [a, b, c] == [a, b] + [c];
    ViewAfter([], a);
    ViewAfter([a], b);
    ViewAfter([a, b], c);
    LegalAfter([], a, token);
    LegalAfter([a], b, token);
    LegalAfter([a, b], c, token);
    TwoKeeps([], [], [], [], token);
    TwoKeeps(line, [], [], [a], token);
    TwoKeeps(line, line, [], [a, b], token);
    TwoKeeps(line + line, line, line, [a, b, c], token);
  }

  /** The step from one stage to the next, and the only descriptor that select reports for it. */
  function Move(n: nat, line: seq<byte>): (Step, nat)
    requires n < 5
  {
    if n < 2 then (Accepts(Stage(n, line), Stage(n + 1, line), Some(4 + n)), LISTENER)
    else
      var i := if n == 3 then 5 else 4;
      (Serves(Stage(n, line), Stage(n + 1, line), i, Batch(false), line, []), i)
  }

  lemma MovesTaken(n: nat, line: seq<byte>, token: seq<byte>)
    requires IsAuthLine(line, token) && |line| < MAX_MSG_SIZE && n < 5
    ensures Takes(Move(n, line).0, token, LISTENER)
  {
    hide IsAuthLine;
    NotEmpty(line, token);
  }

  /** The pass from one stage to the next, and what select said before it. */
  function PassAt(n: nat, line: seq<byte>): Pass
    requires n < 5
  {
    Pass(Stage(n, line), Stage(n + 1, line), [Move(n, line).0])
  }

  function PollAt(n: nat, line: seq<byte>): Poll
    requires n < 5
  {
    Poll(6, Stage(n, line).open.Keys + {LISTENER}, {Move(n, line).1})
  }

  lemma MovePasses(n: nat, line: seq<byte>, token: seq<byte>)
    requires IsAuthLine(line, token) && |line| < MAX_MSG_SIZE && n < 5
    ensures Passes(PassAt(n, line), token, LISTENER, {Move(n, line).1})
  {
    hide IsAuthLine, Inv, Takes, Scanned, Stage;
    StagesKeep(line, token);
    MovesTaken(n, line, token);
    var step := Move(n, line).0;
    OneStep(step, token, LISTENER);
    StageWired(n, line, token);
    if n < 2 {
      AcceptAlone(step, token, LISTENER);
    } else {
      ServiceAlone(step, token, LISTENER);
    }
  }

  lemma StageWired(n: nat, line: seq<byte>, token: seq<byte>)
    requires n <= 5 && Inv(Stage(n, line), token, {}, {}, [])
    ensures Wired(Stage(n, line).conns, Stage(n, line).open) && |Stage(n, line).flags| == FD_SETSIZE
  {
    hide Wired;
  }

  /**
   A run that broadcasts an AUTH line, for every token that lets anybody in: from the empty room two
   connections are admitted and join, each by a first batch that is the line; the first sends the
   line again, and the second is sent it.
   */
  lemma AuthLineIsBroadcast(token: seq<byte>) returns (line: seq<byte>, passes: seq<Pass>, polls: seq<Poll>, last: Room)
    requires token != [] && CanOpen(token)
    ensures Chained(passes, NewRoom(), last, token, LISTENER, polls)
    ensures line == PREFIX + token && IsAuthLine(line, token)
    ensures last.hist == [Joined(0, line), Joined(1, line), Said(0, line)]
    ensures |last.conns| == 2 && last.conns[1].sent == line
  {
    hide IsAuthLine, Inv, Passes, Chained, Stage;
    line := PREFIX + token;
    PaddedLineAccepted(token, []);
    assert line + [] == line;
    passes, polls := [], [];
    var n := 0;
    FirstStage(line);
    ChainStarts(NewRoom(), token, LISTENER);
    while n < 5
      invariant n <= 5 && Chained(passes, NewRoom(), Stage(n, line), token, LISTENER, polls)
    {
      MovePasses(n, line, token);
      AllWatched(n, line);
      ChainedNext(passes, NewRoom(), Stage(n, line), token, LISTENER, polls, PassAt(n, line), PollAt(n, line));
      passes, polls, n := passes + [PassAt(n, line)], polls + [PollAt(n, line)], n + 1;
    }
    last := Stage(5, line);
    LastStage(line);
  }

  lemma FirstStage(line: seq<byte>)
    ensures Stage(0, line) == NewRoom()
  {
  }

  lemma LastStage(line: seq<byte>)
    ensures Stage(5, line).hist == [Joined(0, line), Joined(1, line), Said(0, line)]
    ensures |Stage(5, line).conns| == 2 && Stage(5, line).conns[1].sent == line
  {
  }

  lemma AllWatched(n: nat, line: seq<byte>)
    requires n < 5
    ensures Complete(PollAt(n, line), Stage(n, line), LISTENER)
  {
  }
}
