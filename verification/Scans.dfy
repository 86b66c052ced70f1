/** One pass of the server over the ready descriptors, on values. */
module Scans {
  import opened Bytes
  import opened Kernels
  import opened SocketLoops
  import opened History
  import opened Rooms
  import opened Reactions
  import opened Trails

  /** What a pass over the descriptors `ready0` did to whom. */
  ghost predicate Scanned(start: Room, r: Room, listener: nat, ready0: set<nat>, served: seq<nat>) {
    && Grows(start, r)
    && Served(start, r, ready0, FD_SETSIZE, served)
    && (forall fd | fd in ready0 && fd != listener ::
          fd in start.open && (start.open[fd] in served || Left(start.open[fd], SendFault) in r.hist))
  }

  /** One pass: the state before and after it, and its steps. */
  datatype Pass = Pass(before: Room, after: Room, steps: seq<Step>)

  /** The steps of the pass lead from its first state to its last, and it is over exactly `ready`. */
  ghost predicate Passes(pass: Pass, token: seq<byte>, listener: nat, ready: set<nat>) {
    && Trail(pass.steps, pass.before, pass.after, token, listener)
    && Scanned(pass.before, pass.after, listener, ready, ServedIn(pass.steps))
    && Inv(pass.after, token, {}, {}, [])
  }

  /** select was asked about the listener and every open connection. */
  ghost predicate Complete(poll: Poll, r: Room, listener: nat) {
    poll.watched == r.open.Keys + {listener} && forall fd | fd in poll.watched :: fd < poll.nfds
  }

  /** The passes lead from `first` to `last`, one for each return of select, and the global
      invariant holds after each of them. */
  ghost predicate Chained(passes: seq<Pass>, first: Room, last: Room, token: seq<byte>, listener: nat,
                          polls: seq<Poll>)
  {
    && |passes| == |polls|
    && (passes != [] ==> passes[0].before == first)
    && (forall n | 0 < n < |passes| :: passes[n].before == passes[n - 1].after)
    && (forall n | 0 <= n < |passes| ::
          && Complete(polls[n], passes[n].before, listener)
          && Passes(passes[n], token, listener, polls[n].ready))
    && last == if passes == [] then first else passes[|passes| - 1].after
  }

  lemma ChainStarts(first: Room, token: seq<byte>, listener: nat)
    ensures Chained([], first, first, token, listener, [])
  {
  }

  lemma ChainedNext(passes: seq<Pass>, first: Room, last: Room, token: seq<byte>, listener: nat,
                    polls: seq<Poll>, pass: Pass, poll: Poll)
    requires Chained(passes, first, last, token, listener, polls)
    requires pass.before == last && Complete(poll, last, listener) && Passes(pass, token, listener, poll.ready)
    ensures Chained(passes + [pass], first, pass.after, token, listener, polls + [poll])
  {
    hide Passes, Complete;
    var more, shown := passes + [pass], polls + [poll];
    forall n | 0 < n < |more|
      ensures more[n].before == more[n - 1].after
    {
      assert more[n - 1] == passes[n - 1];
      assert n < |passes| ==> more[n] == passes[n];
    }
    forall n | 0 <= n < |more|
      ensures Complete(shown[n], more[n].before, listener)
      ensures Passes(more[n], token, listener, shown[n].ready)
    {
      if n < |passes| {
        assert more[n] == passes[n] && shown[n] == polls[n];
      }
    }
  }

  lemma ChainedPrefix(passes: seq<Pass>, first: Room, last: Room, token: seq<byte>, listener: nat, polls: seq<Poll>)
    requires Chained(passes, first, last, token, listener, polls) && passes != []
    ensures |polls| == |passes|
    ensures var n := |passes| - 1;
            && Chained(passes[..n], first, passes[n].before, token, listener, polls[..n])
            && Passes(passes[n], token, listener, polls[n].ready) && passes[n].after == last
  {
    hide Passes, Complete;
  }

  /** All steps of a run, pass after pass. */
  function StepsOf(passes: seq<Pass>): seq<Step> {
    if passes == [] then [] else StepsOf(passes[..|passes| - 1]) + passes[|passes| - 1].steps
  }

  /** A run is one trail. */
  lemma {:induction false} RunIsTrail(passes: seq<Pass>, first: Room, last: Room, token: seq<byte>, listener: nat,
                                      polls: seq<Poll>)
    requires Chained(passes, first, last, token, listener, polls)
    ensures Trail(StepsOf(passes), first, last, token, listener)
  {
    hide Chained, Trail, Scanned, Inv;
    if passes == [] {
      EmptyRun(first, last, token, listener, polls);
      TrailStarts(first, token, listener);
    } else {
      var n := |passes| - 1;
      ChainedPrefix(passes, first, last, token, listener, polls);
      RunIsTrail(passes[..n], first, passes[n].before, token, listener, polls[..n]);
      TrailConcat(StepsOf(passes[..n]), passes[n].steps, first, passes[n].before, last, token, listener);
    }
  }

  /** Everything in the history of a whole run has its cause in a step of the run: nobody joins but by an AUTH
      line, and nobody is closed but for the reason recorded. */
  lemma EventsOfRun(passes: seq<Pass>, last: Room, token: seq<byte>, listener: nat, polls: seq<Poll>, e: Event)
      returns (step: Step)
    requires Chained(passes, NewRoom(), last, token, listener, polls) && e in last.hist
    ensures step in StepsOf(passes) && Adds(step, e) && Causes(step, e, token)
    ensures if e.Left? && e.why == Rejected
            then step.Accepts? && step.client.Some? && step.client.value >= 1024
            else step.Serves?
  {
    hide Chained, Trail;
    RunIsTrail(passes, NewRoom(), last, token, listener, polls);
    step := TrailCauses(StepsOf(passes), NewRoom(), last, token, listener, e);
  }

  /** Of a whole run from the empty room: its broadcasts are, in order, exactly the non-empty batches
      drained from descriptors whose flag was up. */
  lemma BroadcastsOfRun(passes: seq<Pass>, last: Room, token: seq<byte>, listener: nat, polls: seq<Poll>)
    requires Chained(passes, NewRoom(), last, token, listener, polls)
    ensures Broadcasts(last.hist) == AllSpoken(StepsOf(passes))
  {
    hide Chained, Trail;
    RunIsTrail(passes, NewRoom(), last, token, listener, polls);
    TrailSpeaks(StepsOf(passes), NewRoom(), last, token, listener);
    NobodySpoke([]);
  }

  lemma EmptyRun(first: Room, last: Room, token: seq<byte>, listener: nat, polls: seq<Poll>)
    requires Chained([], first, last, token, listener, polls)
    ensures first == last
  {
  }

  /** Those served are distinct, were open on a reported descriptor below `i` when the pass began, and
      have been read; nobody else has, newcomers included. */
  ghost predicate Served(start: Room, r: Room, ready0: set<nat>, i: nat, served: seq<nat>) {
    && (forall a, b | 0 <= a < b < |served| :: served[a] != served[b])
    && (forall id | id in served :: WasReady(start, ready0, i, id))
    && (forall id | id in served :: WasRead(start, r, id))
    && Unread(start.conns, r.conns, set id | id in served)
    && (forall id: nat | |start.conns| <= id < |r.conns| :: r.conns[id].recvs == 0)
  }

  ghost predicate WasReady(start: Room, ready0: set<nat>, i: nat, id: nat) {
    && id < |start.conns| && start.conns[id].fd in ready0 && start.conns[id].fd < i
    && start.conns[id].fd in start.open && start.open[start.conns[id].fd] == id
  }

  ghost predicate WasRead(start: Room, r: Room, id: nat) {
    && id < |start.conns| <= |r.conns|
    && (r.conns[id].recvs > start.conns[id].recvs || Left(id, AllocFault) in r.hist)
  }

  /** Connections are only added and keep their descriptor, the history only grows. */
  ghost predicate Grows(start: Room, r: Room) {
    && |start.conns| <= |r.conns| && start.hist <= r.hist
    && forall id: nat | id < |start.conns| ::
         r.conns[id].fd == start.conns[id].fd && r.conns[id].recvs >= start.conns[id].recvs
  }

  /** The same when the pass is at descriptor `i`, with `ready` still reported. */
  ghost predicate Scanning(start: Room, r: Room, listener: nat, ready0: set<nat>, ready: set<nat>, i: nat,
                           served: seq<nat>)
  {
    && Grows(start, r)
    && Served(start, r, ready0, i, served)
    && Fresh(start, r, listener, ready0, ready, i)
    && Accounted(start, r, listener, ready0, ready, i, served)
  }

  /** Every reported client below `i` was served, every other is still reported, but for those dropped. */
  ghost predicate Accounted(start: Room, r: Room, listener: nat, ready0: set<nat>, ready: set<nat>, i: nat,
                            served: seq<nat>)
  {
    forall fd | fd in ready0 && fd != listener ::
      && fd in start.open
      && (Left(start.open[fd], SendFault) in r.hist || if fd < i then start.open[fd] in served else fd in ready)
  }

  /** Every client descriptor still to be visited is open, and held by whom it was held at the start. */
  ghost predicate Fresh(start: Room, r: Room, listener: nat, ready0: set<nat>, ready: set<nat>, i: nat) {
    forall fd | fd in ready && fd >= i && fd != listener ::
      fd in ready0 && fd in start.open && fd in r.open && r.open[fd] == start.open[fd]
  }

  lemma ScanStarts(start: Room, listener: nat, ready: set<nat>)
    requires forall fd | fd in ready && fd != listener :: fd in start.open
    ensures Scanning(start, start, listener, ready, ready, 0, [])
  {
  }

  lemma ScanEnds(start: Room, r: Room, listener: nat, ready0: set<nat>, ready: set<nat>, i: nat, served: seq<nat>)
    requires Scanning(start, r, listener, ready0, ready, i, served) && i <= FD_SETSIZE
    requires forall fd | fd in r.open :: fd < i
    ensures Scanned(start, r, listener, ready0, served)
  {
  }

  /** What a pass comes to: who is read, and who is not. */
  lemma ScannedMeans(start: Room, r: Room, listener: nat, ready0: set<nat>, served: seq<nat>)
    requires Scanned(start, r, listener, ready0, served)
    ensures |start.conns| <= |r.conns|
    ensures forall a, b | 0 <= a < b < |served| :: served[a] != served[b]
    ensures forall id | id in served :: id < |start.conns| && start.conns[id].fd in ready0
    ensures forall id: nat | id < |r.conns| && id !in served ::
              r.conns[id].recvs == if id < |start.conns| then start.conns[id].recvs else 0
    ensures forall fd | fd in ready0 && fd != listener ::
              fd in start.open && (start.open[fd] in served || Left(start.open[fd], SendFault) in r.hist)
  {
    assert forall id | id in served :: WasReady(start, ready0, FD_SETSIZE, id);
  }

  lemma ScanSkips(start: Room, r: Room, listener: nat, ready0: set<nat>, ready: set<nat>, i: nat, served: seq<nat>)
    requires Scanning(start, r, listener, ready0, ready, i, served) && i !in ready
    ensures Scanning(start, r, listener, ready0, ready, i + 1, served)
  {
  }

  lemma ScanVisits(start: Room, r: Room, listener: nat, ready0: set<nat>, ready: set<nat>, i: nat, served: seq<nat>)
    requires Scanning(start, r, listener, ready0, ready, i, served) && i in ready && i != listener
    ensures i in r.open && i in start.open && r.open[i] == start.open[i]
  {
  }

  /** `r'` is `r` with at most one connection more, on a descriptor that was not open. */
  ghost predicate Accepted(r: Room, r': Room) {
    && |r.conns| <= |r'.conns| && r.conns == r'.conns[..|r.conns|] && r.hist <= r'.hist
    && (forall id: nat | |r.conns| <= id < |r'.conns| :: r'.conns[id].recvs == 0)
    && forall fd | fd in r.open :: fd in r'.open && r'.open[fd] == r.open[fd]
  }

  lemma AdmittedIsAccepted(r: Room, client: Option<nat>)
    requires |r.flags| == FD_SETSIZE && (client.Some? ==> client.value !in r.open)
    ensures Accepted(r, Admitted(r, client))
  {
  }

  lemma ScanAccepts(start: Room, r: Room, r': Room, listener: nat, ready0: set<nat>, ready: set<nat>, i: nat,
                    served: seq<nat>)
    requires Scanning(start, r, listener, ready0, ready, i, served)
    requires i == listener && Accepted(r, r')
    ensures Scanning(start, r', listener, ready0, ready, i + 1, served)
  {
    forall id: nat | id < |r.conns|
      ensures r'.conns[id] == r.conns[id]
    {
      assert r'.conns[..|r.conns|][id] == r'.conns[id];
    }
  }

  /** A pass in which only the listener was reported. */
  lemma AcceptAlone(step: Step, token: seq<byte>, listener: nat)
    requires step.Accepts? && Takes(step, token, listener)
    ensures Scanned(step.before, step.after, listener, {listener}, [])
  {
    hide Admitted;
    AdmittedIsAccepted(step.before, step.client);
    assert Scanning(step.before, step.before, listener, {listener}, {listener}, listener, []);
    ScanAccepts(step.before, step.before, step.after, listener, {listener}, {listener}, listener, []);
  }

  /** A pass in which only one client was reported. */
  lemma ServiceAlone(step: Step, token: seq<byte>, listener: nat)
    requires step.Serves? && Takes(step, token, listener) && Wired(step.before.conns, step.before.open)
    requires |step.before.flags| == FD_SETSIZE
    ensures Scanned(step.before, step.after, listener, {step.i}, [step.before.open[step.i]])
  {
    hide Serviced, Wired;
    var r, r', i := step.before, step.after, step.i;
    var ready: set<nat> := {i} - (r.open.Keys - r'.open.Keys - {i});
    WiredAt(r.conns, r.open, i);
    assert Scanning(r, r, listener, {i}, {i}, i, []);
    ScanServices(r, r, r', token, listener, {i}, {i}, ready, i, [], step.d, step.text, step.drops);
    assert [] + [r.open[i]] == [r.open[i]];
  }

  lemma ScanServices(start: Room, r: Room, r': Room, token: seq<byte>, listener: nat, ready0: set<nat>,
                     ready: set<nat>, ready': set<nat>, i: nat, served: seq<nat>,
                     d: Drained, text: seq<byte>, drops: seq<nat>)
    requires Scanning(start, r, listener, ready0, ready, i, served) && Wired(r.conns, r.open)
    requires i in ready && i != listener && i in r.open && i < |r.flags| && Wired(start.conns, start.open)
    requires Serviced(r, r', token, i, d, text, drops)
    requires ready' == ready - (r.open.Keys - r'.open.Keys - {i})
    ensures Scanning(start, r', listener, ready0, ready', i + 1, served + [r.open[i]])
  {
    ServicedGrows(start, r, r', token, i, d, text, drops);
    ServedNext(start, r, r', token, ready0, i, served, d, text, drops);
    AccountedNext(start, r, r', token, listener, ready0, ready, ready', i, served, d, text, drops);
  }

  lemma ServicedGrows(start: Room, r: Room, r': Room, token: seq<byte>, i: nat, d: Drained, text: seq<byte>,
                      drops: seq<nat>)
    requires Grows(start, r) && Wired(r.conns, r.open) && i in r.open && i < |r.flags|
    requires Serviced(r, r', token, i, d, text, drops)
    ensures Grows(start, r') && Grows(r, r')
  {
    assert r'.hist[..|r.hist|] == r.hist;
    assert r'.hist[..|start.hist|] == r.hist[..|start.hist|];
  }

  lemma ServedNext(start: Room, r: Room, r': Room, token: seq<byte>, ready0: set<nat>, i: nat, served: seq<nat>,
                   d: Drained, text: seq<byte>, drops: seq<nat>)
    requires Grows(start, r) && Served(start, r, ready0, i, served) && Wired(r.conns, r.open) && i < |r.flags|
    requires i in r.open && i in start.open && r.open[i] == start.open[i] && i in ready0 && r.open[i] < |start.conns|
    requires Grows(r, r') && Serviced(r, r', token, i, d, text, drops)
    ensures Served(start, r', ready0, i + 1, served + [r.open[i]])
  {
    var me := r.open[i];
    var served' := served + [me];
    assert r.conns[me].fd == i;
    assert me !in served;
    forall id | id in served'
      ensures WasReady(start, ready0, i + 1, id) && WasRead(start, r', id)
    {
      if id == me {
        assert d.NoMemory? ==> r'.hist[|r.hist|] == Left(me, AllocFault);
      } else {
        assert id in served;
        assert WasReady(start, ready0, i, id) && WasRead(start, r, id);
      }
    }
    forall id: nat | id < |start.conns| && id !in served'
      ensures r'.conns[id].recvs == start.conns[id].recvs
    {
      assert id !in served && id != me;
    }
  }

  lemma AccountedNext(start: Room, r: Room, r': Room, token: seq<byte>, listener: nat, ready0: set<nat>,
                      ready: set<nat>, ready': set<nat>, i: nat, served: seq<nat>,
                      d: Drained, text: seq<byte>, drops: seq<nat>)
    requires Fresh(start, r, listener, ready0, ready, i) && Accounted(start, r, listener, ready0, ready, i, served)
    requires Wired(r.conns, r.open) && i in r.open && i < |r.flags| && i in ready && i != listener
    requires Grows(r, r') && Serviced(r, r', token, i, d, text, drops)
    requires ready' == ready - (r.open.Keys - r'.open.Keys - {i})
    ensures Fresh(start, r', listener, ready0, ready', i + 1)
    ensures Accounted(start, r', listener, ready0, ready', i + 1, served + [r.open[i]])
  {
    forall fd | fd in r.open && fd !in r'.open && fd != i
      ensures Left(r.open[fd], SendFault) in r'.hist
    {
      LossesContain(drops, r.open[fd]);
    }
    assert forall e | e in r.hist :: e in r'.hist;
  }
}
