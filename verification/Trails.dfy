/** What the server does, step by step: accepting and servicing, in the order in which they happen. */
module Trails {
  import opened Bytes
  import opened Auth
  import opened Kernels
  import opened SocketLoops
  import opened History
  import opened Rooms
  import opened Reactions

  datatype Step =
    | Accepts(before: Room, after: Room, client: Option<nat>)
    | Serves(before: Room, after: Room, i: nat, d: Drained, text: seq<byte>, drops: seq<nat>)

  /** Is this a step that the server may take? */
  ghost predicate Takes(step: Step, token: seq<byte>, listener: nat) {
    match step
    case Accepts(before, after, client) =>
      && |before.flags| == FD_SETSIZE && after == Admitted(before, client)
      && (client.Some? ==> client.value !in before.open && client.value != listener)
    case Serves(before, after, i, d, text, drops) =>
      && i in before.open && before.open[i] < |before.conns| && i < |before.flags| && i != listener
      && Serviced(before, after, token, i, d, text, drops)
  }

  /** The steps lead from `first` to `last`. */
  ghost predicate Trail(steps: seq<Step>, first: Room, last: Room, token: seq<byte>, listener: nat) {
    if steps == [] then first == last
    else
      var n := |steps| - 1;
      && Takes(steps[n], token, listener) && steps[n].after == last
      && Trail(steps[..n], first, steps[n].before, token, listener)
  }

  lemma TrailStarts(r: Room, token: seq<byte>, listener: nat)
    ensures Trail([], r, r, token, listener)
  {
  }

  lemma TrailNext(steps: seq<Step>, first: Room, last: Room, token: seq<byte>, listener: nat, step: Step)
    requires Trail(steps, first, last, token, listener)
    requires Takes(step, token, listener) && step.before == last
    ensures Trail(steps + [step], first, step.after, token, listener)
  {
    assert (steps + [step])[..|steps|] == steps;
  }

  lemma {:induction false} TrailConcat(a: seq<Step>, b: seq<Step>, first: Room, middle: Room, last: Room,
                                       token: seq<byte>, listener: nat)
    requires Trail(a, first, middle, token, listener) && Trail(b, middle, last, token, listener)
    ensures Trail(a + b, first, last, token, listener)
    decreases |b|
  {
    hide Takes;
    if b == [] {
      assert a + b == a;
    } else {
      var n := |b| - 1;
      TrailConcat(a, b[..n], first, middle, b[n].before, token, listener);
      assert a + b == (a + b[..n]) + [b[n]];
      TrailNext(a + b[..n], first, b[n].before, token, listener, b[n]);
    }
  }

  /** Who was serviced, in order. */
  function ServedIn(steps: seq<Step>): seq<nat> {
    if steps == [] then []
    else
      var step := steps[|steps| - 1];
      ServedIn(steps[..|steps| - 1]) +
        (if step.Serves? && step.i in step.before.open then [step.before.open[step.i]] else [])
  }

  lemma ServedNow(steps: seq<Step>, step: Step)
    ensures ServedIn(steps + [step]) ==
            if step.Serves? && step.i in step.before.open then ServedIn(steps) + [step.before.open[step.i]]
            else ServedIn(steps)
  {
    assert (steps + [step])[..|steps|] == steps;
  }

  lemma OneStep(step: Step, token: seq<byte>, listener: nat)
    requires Takes(step, token, listener)
    ensures Trail([step], step.before, step.after, token, listener)
    ensures ServedIn([step]) == if step.Serves? then [step.before.open[step.i]] else []
  {
    assert [step][..0] == [] && ServedIn([]) == [];
    TrailStarts(step.before, token, listener);
  }

  /** What one accept comes to. */
  lemma AcceptMeans(step: Step, token: seq<byte>, listener: nat)
    requires step.Accepts? && Takes(step, token, listener)
    ensures var r, r', client := step.before, step.after, step.client;
            && (client.None? ==> r' == r)
            && (client.Some? ==>
                  var fd, id := client.value, |r.conns|;
                  && |r'.conns| == id + 1 && r'.conns[..id] == r.conns && r'.conns[id].fd == fd
                  && r'.conns[id].received == r'.conns[id].sent == []
                  && if fd < 1024
                     then && r'.open == r.open[fd := id] && r'.conns[id].closes == 0 && r'.hist == r.hist
                          && r'.flags == r.flags[fd := false]
                     else && r'.open == r.open && r'.conns[id].closes == 1 && r'.flags == r.flags
                          && r'.hist == r.hist + [Left(id, Rejected)])
  {
  }

  // ----- who joins and leaves -----

  /** The step adds `e` to the history. */
  predicate Adds(step: Step, e: Event) {
    step.before.hist <= step.after.hist && e in step.after.hist[|step.before.hist|..]
  }

  /** A service of an open descriptor. */
  predicate Proper(step: Step) {
    step.Serves? && step.i in step.before.open && step.i < |step.before.flags|
  }

  /** What must have happened in a step for `e` to be added by it. */
  predicate Causes(step: Step, e: Event, token: seq<byte>) {
    match e
    case Left(who, why) =>
      if why == Rejected
      then step.Accepts? && step.client.Some? && step.client.value >= 1024 && who == |step.before.conns|
      else
        && Proper(step)
        && (if why == SendFault
            then who in step.drops && step.d.Batch? && step.text != [] && step.before.flags[step.i]
            else who == step.before.open[step.i])
        && (why == Overflow ==> step.d.TooBig?)
        && (why == AllocFault ==> step.d.NoMemory? || step.d.NoRoom?)
        && (why == RecvFault ==> step.d.RecvFailed?)
        && (why == HungUp ==> step.d == Batch(true))
        && (why == NotAuthorised ==>
              step.d.Batch? && step.text != [] && !step.before.flags[step.i] && !IsAuthLine(step.text, token))
    case Joined(who, line) =>
      && Proper(step)
      && who == step.before.open[step.i] && step.d.Batch? && line == step.text
      && !step.before.flags[step.i] && IsAuthLine(line, token)
    case Said(who, text) =>
      && Proper(step)
      && who == step.before.open[step.i] && step.d.Batch? && text == step.text != [] && step.before.flags[step.i]
  }

  lemma StepCauses(step: Step, e: Event, token: seq<byte>, listener: nat)
    requires Takes(step, token, listener)
    ensures step.before.hist <= step.after.hist
    ensures Adds(step, e) ==> Causes(step, e, token)
  {
    hide Causes, IsAuthLine, Narrows, Unread, Lost, Losses, Drains, Verdict, Farewell;
    if step.Serves? {
      var h, id := step.before.hist, step.before.open[step.i];
      var verdict := Verdict(id, step.before.flags[step.i], step.d, step.text, token);
      var rest := verdict + Losses(step.drops) + Farewell(id, step.d, verdict);
      assert step.after.hist == h + rest;
      if e in verdict {
        VerdictCauses(step, e, token);
      } else if e in Losses(step.drops) {
        LossCauses(step, e, token, listener);
      } else if e in Farewell(id, step.d, verdict) {
        FarewellCauses(step, e, token);
      }
    } else {
      AcceptCauses(step, e, token, listener);
    }
  }

  lemma AcceptCauses(step: Step, e: Event, token: seq<byte>, listener: nat)
    requires step.Accepts? && Takes(step, token, listener)
    ensures step.before.hist <= step.after.hist
    ensures Adds(step, e) ==> Causes(step, e, token)
  {
  }

  lemma VerdictCauses(step: Step, e: Event, token: seq<byte>)
    requires Proper(step)
    requires e in Verdict(step.before.open[step.i], step.before.flags[step.i], step.d, step.text, token)
    ensures Causes(step, e, token)
  {
    hide IsAuthLine;
  }

  lemma LossCauses(step: Step, e: Event, token: seq<byte>, listener: nat)
    requires step.Serves? && Takes(step, token, listener) && e in Losses(step.drops)
    ensures Causes(step, e, token)
  {
    hide IsAuthLine, Narrows, Unread, Lost, Drains;
    assert e.Left? && e.why == SendFault && e.who in step.drops;
  }

  lemma FarewellCauses(step: Step, e: Event, token: seq<byte>)
    requires Proper(step)
    requires var id := step.before.open[step.i];
             e in Farewell(id, step.d, Verdict(id, step.before.flags[step.i], step.d, step.text, token))
    ensures Causes(step, e, token)
  {
    hide Verdict;
  }

  /** Every event of a trail was added by one of its steps, with a cause. */
  lemma {:induction false} TrailCauses(steps: seq<Step>, first: Room, last: Room, token: seq<byte>, listener: nat,
                                       e: Event)
      returns (step: Step)
    requires Trail(steps, first, last, token, listener) && e in last.hist && e !in first.hist
    ensures step in steps && Adds(step, e) && Causes(step, e, token)
  {
    hide Takes, Causes;
    var n := |steps| - 1;
    StepCauses(steps[n], e, token, listener);
    if e in steps[n].before.hist {
      step := TrailCauses(steps[..n], first, steps[n].before, token, listener, e);
    } else {
      step := steps[n];
      assert last.hist == step.before.hist + last.hist[|step.before.hist|..];
    }
  }

  // ----- what is broadcast -----

  /** The broadcasts of a history, in order. */
  function Broadcasts(h: seq<Event>): seq<Event> {
    if h == [] then [] else Broadcasts(h[..|h| - 1]) + OnlySaid(h[|h| - 1])
  }

  function OnlySaid(e: Event): seq<Event> {
    if e.Said? then [e] else []
  }

  lemma {:induction false} BroadcastsConcat(a: seq<Event>, b: seq<Event>)
    ensures Broadcasts(a + b) == Broadcasts(a) + Broadcasts(b)
    decreases |b|
  {
    if b == [] {
      assert a + b == a;
    } else {
      var n := |b| - 1;
      assert (a + b)[..|a + b| - 1] == a + b[..n];
      BroadcastsConcat(a, b[..n]);
    }
  }

  lemma {:induction false} SaidIsBroadcast(h: seq<Event>, e: Event)
    ensures e in Broadcasts(h) <==> e in h && e.Said?
  {
    if h != [] {
      var n := |h| - 1;
      SaidIsBroadcast(h[..n], e);
      assert h == h[..n] + [h[n]];
    }
  }

  lemma {:induction false} NobodySpoke(h: seq<Event>)
    requires forall e | e in h :: !e.Said?
    ensures Broadcasts(h) == []
  {
    if h != [] {
      var n := |h| - 1;
      assert h[n] in h && forall e | e in h[..n] :: e in h;
      NobodySpoke(h[..n]);
    }
  }

  /** What a step broadcasts: the batch, if it is not empty and the flag of its descriptor is up. */
  function Spoken(step: Step): seq<Event> {
    match step
    case Accepts(_, _, _) => []
    case Serves(before, _, i, d, text, _) =>
      if i in before.open && i < |before.flags| && before.flags[i] && d.Batch? && text != []
      then [Said(before.open[i], text)] else []
  }

  function AllSpoken(steps: seq<Step>): seq<Event> {
    if steps == [] then [] else AllSpoken(steps[..|steps| - 1]) + Spoken(steps[|steps| - 1])
  }

  lemma {:induction false} SpokenSomewhere(steps: seq<Step>, e: Event)
    ensures e in AllSpoken(steps) <==> exists step :: step in steps && e in Spoken(step)
  {
    if steps != [] {
      var n := |steps| - 1;
      SpokenSomewhere(steps[..n], e);
      assert steps == steps[..n] + [steps[n]];
      assert forall step :: step in steps <==> step in steps[..n] || step == steps[n];
    }
  }

  lemma StepSpeaks(step: Step, token: seq<byte>, listener: nat)
    requires Takes(step, token, listener)
    ensures Broadcasts(step.after.hist) == Broadcasts(step.before.hist) + Spoken(step)
  {
    hide Broadcasts, Narrows, Unread, Lost;
    match step
    case Accepts(before, after, client) =>
      if client.Some? && client.value >= FD_SETSIZE {
        var e := Left(|before.conns|, Rejected);
        BroadcastsConcat(before.hist, [e]);
        NobodySpoke([e]);
      }
    case Serves(before, after, i, d, text, drops) =>
      var id := before.open[i];
      var verdict := Verdict(id, before.flags[i], d, text, token);
      var rest := Losses(drops) + Farewell(id, d, verdict);
      assert after.hist == before.hist + (verdict + rest);
      BroadcastsConcat(before.hist, verdict + rest);
      BroadcastsConcat(verdict, rest);
      NobodySpoke(rest);
      VerdictSpeaks(id, before.flags[i], d, text, token);
  }

  lemma VerdictSpeaks(id: nat, member: bool, d: Drained, text: seq<byte>, token: seq<byte>)
    ensures Broadcasts(Verdict(id, member, d, text, token)) ==
            if member && d.Batch? && text != [] then [Said(id, text)] else []
  {
    var verdict := Verdict(id, member, d, text, token);
    if verdict != [] {
      assert verdict[..0] == [] && Broadcasts([]) == [];
    }
  }

  /** The broadcasts of a trail are, in order, its non-empty batches from flagged descriptors. */
  lemma {:induction false} TrailSpeaks(steps: seq<Step>, first: Room, last: Room, token: seq<byte>, listener: nat)
    requires Trail(steps, first, last, token, listener)
    ensures Broadcasts(last.hist) == Broadcasts(first.hist) + AllSpoken(steps)
  {
    hide Takes, Broadcasts, Spoken;
    if steps != [] {
      var n := |steps| - 1;
      TrailSpeaks(steps[..n], first, steps[n].before, token, listener);
      StepSpeaks(steps[n], token, listener);
    }
  }
}
