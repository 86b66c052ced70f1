/**
 Whole runs of the UDP file servers, from their start and over every sequence of arrivals: who is
 served, when the transfer completes, and what the file is.
 */
module UdpRuns {
  import opened Bytes
  import opened Clock
  import opened UdpToken
  import opened UdpServer
  import opened UdpClient
  import opened UdpTheorems

  /** The first arrival that ends the token loop. */
  function Opening(xs: seq<Arrival>, token: seq<byte>): (n: nat)
    ensures n <= |xs| && forall k | 0 <= k < n :: Ignored(xs[k], token)
    ensures n < |xs| ==> !Ignored(xs[n], token)
  {
    if xs == [] || !Ignored(xs[0], token) then 0 else 1 + Opening(xs[1..], token)
  }

  /** It is an accepted token, and the output file can be created. */
  predicate Opens(xs: seq<Arrival>, token: seq<byte>) {
    var n := Opening(xs, token);
    n < |xs| && xs[n].Datagram? && xs[n].fileOk
  }

  function Peer(xs: seq<Arrival>, token: seq<byte>): Addr
    requires Opens(xs, token)
  {
    xs[Opening(xs, token)].from
  }

  function Began(xs: seq<Arrival>, token: seq<byte>): TimeVal
    requires Opens(xs, token)
  {
    xs[Opening(xs, token)].at
  }

  /** What arrives after it. */
  function After(xs: seq<Arrival>, token: seq<byte>): seq<Arrival>
    requires Opens(xs, token)
  {
    xs[Opening(xs, token) + 1..]
  }

  /** The sender of the first accepted datagram becomes the peer; without one, nothing is received. */
  lemma Opened(v: Version, xs: seq<Arrival>, token: seq<byte>)
    ensures var n, s := Opening(xs, token), Run(v, START, xs, token);
            s == if Opens(xs, token) then Run(v, Begin(Peer(xs, token), Began(xs, token)), After(xs, token), token)
                 else if n == |xs| then START
                 else State(Failed(if xs[n].RecvFault? then ReceiveError else OpenError), [], 0)
  {
    hide Run, TokenAccepted;
    var n := Opening(xs, token);
    WaitingForToken(v, xs[..n], token);
    if n == |xs| {
      assert xs[..n] == xs;
    } else {
      RunNext(v, START, xs[..n], xs[n], token);
      assert xs == (xs[..n] + [xs[n]]) + xs[n + 1..];
      RunConcat(v, START, xs[..n] + [xs[n]], xs[n + 1..], token);
      if !Opens(xs, token) {
        NotReceivingStays(v, Run(v, START, xs[..n] + [xs[n]], token), xs[n + 1..], token);
      }
    }
  }

  /** Arrival `m` is the peer's end of file, everything up to it is punctual, and the file is within the limit. */
  predicate InFull(peer: Addr, start: TimeVal, xs: seq<Arrival>, m: nat) {
    && ClosesAt(peer, xs, m)
    && (forall k: nat | k <= m :: Punctual(peer, start, xs, k))
    && |Content(Payloads(peer, xs[..m]))| <= MAX_FILE_BYTES
  }

  lemma CompletesIffInFull(peer: Addr, start: TimeVal, xs: seq<Arrival>, token: seq<byte>)
    ensures var s := Run(V2, Begin(peer, start), xs, token);
            && (s.phase.Done? <==> exists m: nat :: InFull(peer, start, xs, m))
            && forall m: nat | InFull(peer, start, xs, m) ::
                 s.file == Content(Payloads(peer, xs[..m])) && s.count == |s.file|
  {
    hide Run, Content, Payloads, Punctual, Smooth;
    var s := Run(V2, Begin(peer, start), xs, token);
    FileIsWhatWasSent(peer, start, xs, token);
    forall m: nat | ClosesAt(peer, xs, m)
      ensures s.phase.Done? <==> InFull(peer, start, xs, m)
      ensures s.phase.Done? ==> s.file == Content(Payloads(peer, xs[..m]))
    {
      CompletesIffSmooth(peer, start, xs, m, token);
      SmoothIffPunctual(peer, start, xs, m, token);
    }
    if s.phase.Done? {
      var m := FirstOwnEmpty(peer, xs);
    }
  }

  // ----- V1 on its own -----

  /** Arrival `k` keeps V1 going: no fault but EINTR, no empty datagram, and in time. */
  predicate Goes1(peer: Addr, start: TimeVal, xs: seq<Arrival>, k: nat)
    requires k < |xs|
  {
    match xs[k]
    case RecvFault(e, _) => e == EINTR
    case Datagram(_, payload, at, _) => payload != [] && Recent(LastHeard(peer, start, xs[..k]), at)
  }

  /** The peer's data, without what could not be written. */
  function Written(peer: Addr, xs: seq<Arrival>): seq<byte> {
    if xs == [] then []
    else
      var a := xs[|xs| - 1];
      Written(peer, xs[..|xs| - 1]) + (if IsOwn(peer, a) && a.fileOk then Cut(a.payload, BUFFERT) else [])
  }

  /** V1 takes the first empty datagram, whoever sent it, as the end of the file. */
  predicate Ends1(peer: Addr, start: TimeVal, xs: seq<Arrival>, e: nat) {
    e < |xs| && IsEmpty(xs[e]) && forall k: nat | k < e :: Goes1(peer, start, xs, k)
  }

  lemma {:induction false} GoingV1(peer: Addr, start: TimeVal, xs: seq<Arrival>, token: seq<byte>)
    ensures var s := Run(V1, Begin(peer, start), xs, token);
            && !s.phase.Waiting? && (s.phase.Receiving? <==> forall k: nat | k < |xs| :: Goes1(peer, start, xs, k))
            && (s.phase.Receiving? ==> s.phase == Receiving(peer, LastHeard(peer, start, xs)))
            && (s.phase.Receiving? ==>
                  s.file == Written(peer, xs) && s.count == |Content(Payloads(peer, xs))| && [] !in Payloads(peer, xs))
  {
    hide Recent, Content, Payloads;
    if xs != [] {
      var n := |xs| - 1;
      GoingV1(peer, start, xs[..n], token);
      LastArrival(peer, xs);
      GoesPrefix(peer, start, xs, n);
      assert Run(V1, Begin(peer, start), xs[..n], token).phase.Receiving? ==>
               (Run(V1, Begin(peer, start), xs, token).phase.Receiving? <==> Goes1(peer, start, xs, n));
    } else {
      NothingSent(peer);
    }
  }

  lemma NothingSent(peer: Addr)
    ensures Payloads(peer, []) == [] && Content([]) == []
  {
  }

  /** V1 completes exactly when the datagrams before the first empty one, anybody's, are in time; its
      file is then what the peer sent before that, less what could not be written. */
  lemma CompletesV1(peer: Addr, start: TimeVal, xs: seq<Arrival>, token: seq<byte>)
    ensures var s := Run(V1, Begin(peer, start), xs, token);
            && (s.phase.Done? <==> exists e: nat :: Ends1(peer, start, xs, e))
            && forall e: nat | Ends1(peer, start, xs, e) ::
                 s.file == Written(peer, xs[..e]) && s.count == |Content(Payloads(peer, xs[..e]))|
  {
    hide Run, Written, Goes1, Content, Payloads;
    var s := Run(V1, Begin(peer, start), xs, token);
    forall e: nat | Ends1(peer, start, xs, e)
      ensures s.phase.Done? && s.file == Written(peer, xs[..e]) && s.count == |Content(Payloads(peer, xs[..e]))|
    {
      EndsV1(peer, start, xs, e, token);
    }
    if s.phase.Done? {
      var e := EndOfV1(peer, start, xs, token);
    }
  }

  lemma GoesPrefix(peer: Addr, start: TimeVal, xs: seq<Arrival>, n: nat)
    requires n <= |xs|
    ensures forall k: nat | k < n :: Goes1(peer, start, xs[..n], k) == Goes1(peer, start, xs, k)
  {
    assert forall k: nat | k < n :: xs[..n][..k] == xs[..k];
  }

  lemma EndsV1(peer: Addr, start: TimeVal, xs: seq<Arrival>, e: nat, token: seq<byte>)
    requires Ends1(peer, start, xs, e)
    ensures var s := Run(V1, Begin(peer, start), xs, token);
            s.phase.Done? && s.file == Written(peer, xs[..e]) && s.count == |Content(Payloads(peer, xs[..e]))|
  {
    hide Run, Written, Goes1, Content, Payloads, LastHeard;
    GoesPrefix(peer, start, xs, e);
    GoingV1(peer, start, xs[..e], token);
    StopsAt(V1, Begin(peer, start), xs, e, token);
  }

  lemma {:induction false} EndOfV1(peer: Addr, start: TimeVal, xs: seq<Arrival>, token: seq<byte>) returns (e: nat)
    requires Run(V1, Begin(peer, start), xs, token).phase.Done?
    ensures Ends1(peer, start, xs, e)
  {
    hide Written, Goes1, Recent;
    var n := |xs| - 1;
    var s := Run(V1, Begin(peer, start), xs[..n], token);
    GoesPrefix(peer, start, xs, n);
    if s.phase.Done? {
      e := EndOfV1(peer, start, xs[..n], token);
    } else {
      GoingV1(peer, start, xs[..n], token);
      e := n;
    }
  }

  /** Arrival `k` is the first that V1 does not go on after, and not an empty datagram. */
  predicate Breaks1(peer: Addr, start: TimeVal, xs: seq<Arrival>, k: nat) {
    && k < |xs| && !IsEmpty(xs[k])
    && !Goes1(peer, start, xs, k) && forall j: nat | j < k :: Goes1(peer, start, xs, j)
  }

  function Reason1(a: Arrival): Why {
    if a.RecvFault? then ReceiveError else Idle
  }

  /** V1 fails exactly there, by a receive error or by silence. */
  lemma FailsV1(peer: Addr, start: TimeVal, xs: seq<Arrival>, token: seq<byte>)
    ensures var s := Run(V1, Begin(peer, start), xs, token);
            && (s.phase.Failed? <==> exists k: nat :: Breaks1(peer, start, xs, k))
            && forall k: nat | Breaks1(peer, start, xs, k) ::
                 && s.phase == Failed(Reason1(xs[k])) && s.file == Written(peer, xs[..k])
                 && s.count == |Content(Payloads(peer, xs[..k]))|
  {
    hide Run, Written, Goes1, Content, Payloads;
    var s := Run(V1, Begin(peer, start), xs, token);
    forall k: nat | Breaks1(peer, start, xs, k)
      ensures s.phase == Failed(Reason1(xs[k])) && s.file == Written(peer, xs[..k])
      ensures s.count == |Content(Payloads(peer, xs[..k]))|
    {
      BreaksV1(peer, start, xs, k, token);
    }
    if s.phase.Failed? {
      var k := BreakOfV1(peer, start, xs, token);
    }
  }

  lemma BreaksV1(peer: Addr, start: TimeVal, xs: seq<Arrival>, k: nat, token: seq<byte>)
    requires Breaks1(peer, start, xs, k)
    ensures var s := Run(V1, Begin(peer, start), xs, token);
            && s.phase == Failed(Reason1(xs[k])) && s.file == Written(peer, xs[..k])
            && s.count == |Content(Payloads(peer, xs[..k]))|
  {
    hide Run, Written, Recent, LastHeard, Content, Payloads;
    GoesPrefix(peer, start, xs, k);
    GoingV1(peer, start, xs[..k], token);
    StopsAt(V1, Begin(peer, start), xs, k, token);
  }

  lemma {:induction false} BreakOfV1(peer: Addr, start: TimeVal, xs: seq<Arrival>, token: seq<byte>) returns (k: nat)
    requires Run(V1, Begin(peer, start), xs, token).phase.Failed?
    ensures Breaks1(peer, start, xs, k)
  {
    hide Written, Recent, LastHeard;
    var n := |xs| - 1;
    var s := Run(V1, Begin(peer, start), xs[..n], token);
    GoesPrefix(peer, start, xs, n);
    if s.phase.Failed? {
      k := BreakOfV1(peer, start, xs[..n], token);
    } else {
      GoingV1(peer, start, xs[..n], token);
      k := n;
    }
  }

  // ----- whole runs -----

  /** How a run that was not opened ends. */
  predicate Unopened(s: State, xs: seq<Arrival>, token: seq<byte>) {
    var n := Opening(xs, token);
    s == if n == |xs| then START else State(Failed(if xs[n].RecvFault? then ReceiveError else OpenError), [], 0)
  }

  /** What V2 makes of `xs`: the file is what the peer sent after its token, and the transfer completes
      exactly when some end of file is reached in full. */
  ghost predicate Outcome2(s: State, xs: seq<Arrival>, token: seq<byte>) {
    if !Opens(xs, token) then Unopened(s, xs, token)
    else
      var peer, start, rest := Peer(xs, token), Began(xs, token), After(xs, token);
      && FileSoFar(s, peer, start, rest)
      && (s.phase.Done? <==> exists m: nat :: InFull(peer, start, rest, m))
      && (forall m: nat | InFull(peer, start, rest, m) ::
            s.file == Content(Payloads(peer, rest[..m])) && s.count == |s.file|)
      && (s.phase.Failed? <==> exists k: nat :: BreaksAt(peer, start, rest, k))
      && forall k: nat | BreaksAt(peer, start, rest, k) :: FailedAt(s, peer, start, rest, k)
  }

  lemma RunOfV2(xs: seq<Arrival>, token: seq<byte>)
    ensures Outcome2(Run(V2, START, xs, token), xs, token)
  {
    hide Run, FileSoFar, InFull, Content, Payloads, BreaksAt, FailedAt;
    Opened(V2, xs, token);
    if Opens(xs, token) {
      FailsIffBreaks(Peer(xs, token), Began(xs, token), After(xs, token), token);
      FileIsWhatWasSent(Peer(xs, token), Began(xs, token), After(xs, token), token);
      CompletesIffInFull(Peer(xs, token), Began(xs, token), After(xs, token), token);
    }
  }

  /** What V1 makes of `xs`. */
  ghost predicate Outcome1(s: State, xs: seq<Arrival>, token: seq<byte>) {
    if !Opens(xs, token) then Unopened(s, xs, token)
    else
      var peer, start, rest := Peer(xs, token), Began(xs, token), After(xs, token);
      && (s.phase.Receiving? <==> forall k: nat | k < |rest| :: Goes1(peer, start, rest, k))
      && (s.phase.Receiving? ==>
            && s.phase == Receiving(peer, LastHeard(peer, start, rest))
            && s.file == Written(peer, rest) && s.count == |Content(Payloads(peer, rest))|)
      && (s.phase.Done? <==> exists e: nat :: Ends1(peer, start, rest, e))
      && (forall e: nat | Ends1(peer, start, rest, e) ::
            s.file == Written(peer, rest[..e]) && s.count == |Content(Payloads(peer, rest[..e]))|)
      && (s.phase.Failed? <==> exists k: nat :: Breaks1(peer, start, rest, k))
      && forall k: nat | Breaks1(peer, start, rest, k) ::
           && s.phase == Failed(Reason1(rest[k])) && s.file == Written(peer, rest[..k])
           && s.count == |Content(Payloads(peer, rest[..k]))|
  }

  lemma RunOfV1(xs: seq<Arrival>, token: seq<byte>)
    ensures Outcome1(Run(V1, START, xs, token), xs, token)
  {
    hide Run, Written, Goes1, Content, Payloads, LastHeard;
    Opened(V1, xs, token);
    if Opens(xs, token) {
      GoingV1(Peer(xs, token), Began(xs, token), After(xs, token), token);
      FailsV1(Peer(xs, token), Began(xs, token), After(xs, token), token);
      CompletesV1(Peer(xs, token), Began(xs, token), After(xs, token), token);
    }
  }

  /** What comes after the end changes nothing. */
  lemma RunOfAll(v: Version, past: seq<Arrival>, future: seq<Arrival>, token: seq<byte>)
    requires var s := Run(v, START, past, token); s.phase.Waiting? || s.phase.Receiving? ==> future == []
    ensures Run(v, START, past + future, token) == Run(v, START, past, token)
  {
    hide Run;
    var s := Run(v, START, past, token);
    if future == [] {
      assert past + future == past;
    } else {
      RunConcat(v, START, past, future, token);
      NotReceivingStays(v, s, future, token);
    }
  }

  /** A whole run of V2, on everything that ever arrives. */
  method Serve2(h: UdpServer.Host, token: seq<byte>) returns (phase: Phase, count: nat)
    requires ValidToken(token) && h.past == [] && h.file == []
    modifies h
    ensures old(h.future) == h.past + h.future
    ensures Run(V2, START, old(h.future), token) == State(phase, h.file, count)
    ensures Outcome2(State(phase, h.file, count), old(h.future), token)
  {
    hide Run, Outcome2;
    ghost var xs := h.future;
    phase := AwaitToken(h, token);
    count := 0;
    if phase.Receiving? {
      phase, count := Transfer2(h, phase.peer, phase.last, token);
    }
    RunOfAll(V2, h.past, h.future, token);
    RunOfV2(xs, token);
  }

  /** A whole run of V1. */
  method Serve1(h: UdpServer.Host, token: seq<byte>) returns (phase: Phase, count: nat)
    requires ValidToken(token) && h.past == [] && h.file == []
    modifies h
    ensures old(h.future) == h.past + h.future
    ensures Run(V1, START, old(h.future), token) == State(phase, h.file, count)
    ensures Outcome1(State(phase, h.file, count), old(h.future), token)
  {
    hide Run, Outcome1;
    ghost var xs := h.future;
    phase := AwaitToken(h, token);
    count := 0;
    if phase.Receiving? {
      phase, count := Transfer1(h, phase.peer, phase.last, token);
    }
    RunOfAll(V1, h.past, h.future, token);
    RunOfV1(xs, token);
  }

  /** The two servers on the same arrivals: whenever V2 completes so does V1, at the first empty
      datagram `e`, whoever sent it; the files are equal exactly when the peer sent nothing between
      that and its own end of file `m`. */
  lemma SameRunOnBoth(xs: seq<Arrival>, token: seq<byte>) returns (e: nat, m: nat)
    requires Run(V2, START, xs, token).phase.Done?
    ensures Opens(xs, token)
    ensures var peer, rest := Peer(xs, token), After(xs, token);
            ClosesAt(peer, rest, m) && e <= m && IsEmpty(rest[e]) && forall k | 0 <= k < e :: !IsEmpty(rest[k])
    ensures var peer, rest := Peer(xs, token), After(xs, token);
            var s1, s2 := Run(V1, START, xs, token), Run(V2, START, xs, token);
            && s1.phase.Done? && s1.file <= s2.file
            && s1.file == Content(Payloads(peer, rest[..e])) && s2.file == Content(Payloads(peer, rest[..m]))
            && (s1.file == s2.file <==> forall k | e < k < m :: !IsOwn(peer, rest[k]))
  {
    hide Run, Content, Payloads;
    Opened(V1, xs, token);
    Opened(V2, xs, token);
    e, m := V1VersusV2(Peer(xs, token), Began(xs, token), After(xs, token), token);
  }

  /** A run of V2 that is being served, or has been, took nothing late: neither data nor the end of
      the file, ten seconds or more after the peer's last datagram. */
  lemma TimelyRun(xs: seq<Arrival>, a: Arrival, token: seq<byte>)
    requires Run(V2, START, xs, token).phase.Receiving?
    requires !Run(V2, START, xs + [a], token).phase.Failed?
    ensures Opens(xs, token)
    ensures a.RecvFault? ==> a.errno == EINTR
    ensures a.Datagram? ==> Recent(LastHeard(Peer(xs, token), Began(xs, token), After(xs, token)), a.at)
  {
    hide Run, LastHeard;
    Opened(V2, xs, token);
    RunNext(V2, START, xs, a, token);
    RunNext(V2, Begin(Peer(xs, token), Began(xs, token)), After(xs, token), a, token);
    TimelyWhileAlive(Peer(xs, token), Began(xs, token), After(xs, token), a, token);
  }

  // ----- one datagram more -----

  /** The sender of `a` has another address family, IP address or port than `peer`. */
  predicate IsStranger(peer: Addr, a: Arrival) {
    && a.Datagram?
    && match (a.from, peer)
       case (V4(port, ip), V4(port', ip')) => port != port' || ip != ip'
       case (V6(port, ip, _, _), V6(port', ip', _, _)) => port != port' || ip != ip'
       case _ => true
  }

  /** A stranger is whoever does not send the peer's datagrams; of an IPv4 peer, anybody else. */
  lemma StrangersAre(peer: Addr, a: Arrival)
    ensures IsStranger(peer, a) <==> a.Datagram? && !IsOwn(peer, a)
    ensures peer.V4? && a.Datagram? ==> (IsOwn(peer, a) <==> a.from == peer)
  {
    if a.Datagram? {
      SameSender(a.from, peer);
    }
  }

  /** A datagram from any other address or port changes nothing, unless it is late: then, or if it is
      empty on V1, it ends the run, and still changes neither file nor counter. */
  lemma StrangerChangesNothing(v: Version, xs: seq<Arrival>, a: Arrival, token: seq<byte>)
    requires Run(v, START, xs, token).phase.Receiving?
    ensures Opens(xs, token) && Run(v, START, xs, token).phase.peer == Peer(xs, token)
    ensures IsStranger(Peer(xs, token), a) ==>
              var s, s' := Run(v, START, xs, token), Run(v, START, xs + [a], token);
              var late := !(0 <= MicrosBetween(s.phase.last, a.at) < 10_000_000);
              && s'.file == s.file && s'.count == s.count
              && s'.phase == if v == V1 && a.payload == [] then Done else if late then Failed(Idle) else s.phase
  {
    hide Run, LastHeard, TokenAccepted;
    PeerStays(v, xs, token);
    RunNext(v, START, xs, a, token);
    StrangersAre(Peer(xs, token), a);
  }

  function MicrosBetween(a: TimeVal, b: TimeVal): int {
    1_000_000 * (b.sec - a.sec) + (b.usec - a.usec)
  }

  /** A datagram of the peer in time: an empty one completes the run; of any other the first 512 bytes are
      written if that keeps V2's file within 100 MiB and the write succeeds. */
  lemma PeerIsTaken(v: Version, xs: seq<Arrival>, a: Arrival, token: seq<byte>)
    requires Run(v, START, xs, token).phase.Receiving?
    ensures Opens(xs, token) && Run(v, START, xs, token).phase.peer == Peer(xs, token)
    ensures var s, s' := Run(v, START, xs, token), Run(v, START, xs + [a], token);
            a.Datagram? && !IsStranger(Peer(xs, token), a) && 0 <= MicrosBetween(s.phase.last, a.at) < 10_000_000 ==>
              var data := if |a.payload| > 512 then a.payload[..512] else a.payload;
              if a.payload == [] then s' == State(Done, s.file, s.count)
              else if v == V2 && s.count + |data| > 104_857_600 then s' == State(Failed(TooLarge), s.file, s.count)
              else if v == V2 && !a.fileOk then s' == State(Failed(WriteError), s.file, s.count + |data|)
              else s' == State(Receiving(Peer(xs, token), a.at), s.file + (if a.fileOk then data else []),
                               s.count + |data|)
  {
    hide Run, LastHeard, TokenAccepted;
    PeerStays(v, xs, token);
    RunNext(v, START, xs, a, token);
    StrangersAre(Peer(xs, token), a);
  }

  lemma PeerStays(v: Version, xs: seq<Arrival>, token: seq<byte>)
    requires Run(v, START, xs, token).phase.Receiving?
    ensures Opens(xs, token) && Run(v, START, xs, token).phase.peer == Peer(xs, token)
  {
    hide Run, LastHeard, Content, Payloads, Written;
    Opened(v, xs, token);
    match v
    case V1 => GoingV1(Peer(xs, token), Began(xs, token), After(xs, token), token);
    case V2 => FileIsWhatWasSent(Peer(xs, token), Began(xs, token), After(xs, token), token);
  }

  /** EINTR changes nothing, in either loop; any other error ends the run. */
  lemma FaultEnds(v: Version, xs: seq<Arrival>, a: Arrival, token: seq<byte>)
    requires a.RecvFault? && (Run(v, START, xs, token).phase.Waiting? || Run(v, START, xs, token).phase.Receiving?)
    ensures Run(v, START, xs + [a], token) ==
            if a.errno == EINTR then Run(v, START, xs, token)
            else Run(v, START, xs, token).(phase := Failed(ReceiveError))
  {
    hide Run;
    RunNext(v, START, xs, a, token);
  }

  /** A datagram in the token loop: it opens the transfer exactly if it is the token and then, up to the cut,
      only line endings, from a known family, and the file can be created; anything else is passed over. */
  lemma TokenIsTaken(v: Version, xs: seq<Arrival>, a: Arrival, token: seq<byte>)
    requires ValidToken(token) && a.Datagram? && Run(v, START, xs, token).phase.Waiting?
    ensures Run(v, START, xs, token) == START
    ensures Run(v, START, xs + [a], token) ==
            if !(!a.from.Unknown? && token <= a.payload &&
                 forall k | |token| <= k < |a.payload| && k < 511 :: a.payload[k] == 10 || a.payload[k] == 13)
            then START
            else if !a.fileOk then State(Failed(OpenError), [], 0)
            else State(Receiving(a.from, a.at), [], 0)
  {
    hide Run, ValidToken, TokenAccepted;
    Opened(v, xs, token);
    if Opens(xs, token) {
      NotWaiting(v, xs, token);
    }
    RunNext(v, START, xs, a, token);
    AcceptedExactly(a.from, a.payload, token);
  }

  lemma NotWaiting(v: Version, xs: seq<Arrival>, token: seq<byte>)
    requires Opens(xs, token)
    ensures !Run(v, START, xs, token).phase.Waiting?
  {
    hide Run, LastHeard, Content, Payloads, Written, TokenAccepted;
    Opened(v, xs, token);
    match v
    case V1 => GoingV1(Peer(xs, token), Began(xs, token), After(xs, token), token);
    case V2 => FileIsWhatWasSent(Peer(xs, token), Began(xs, token), After(xs, token), token);
  }

  // ----- client and server -----

  lemma {:induction false} ClosedFrom(peer: Addr, xs: seq<Arrival>, m: nat, n: nat)
    requires ClosesAt(peer, xs, m) && m < n <= |xs|
    ensures [] in Payloads(peer, xs[..n])
    decreases n
  {
    hide Content, Payloads, Cut;
    LastArrival(peer, xs[..n]);
    assert xs[..n][..n - 1] == xs[..n - 1] && xs[..n][n - 1] == xs[n - 1];
    if m + 1 < n {
      ClosedFrom(peer, xs, m, n - 1);
    }
  }

  lemma ClosesOnce(peer: Addr, xs: seq<Arrival>, m: nat, n: nat)
    requires ClosesAt(peer, xs, m) && ClosesAt(peer, xs, n)
    ensures m == n
  {
    if m < n {
      ClosedFrom(peer, xs, m, n);
    } else if n < m {
      ClosedFrom(peer, xs, n, m);
    }
  }

  /** With a clock that does not run back, what the client controls is enough: if no call fails, its own
      datagrams come in time and can be written, and the file is within the limit, then the transfer
      completes with the client's file, whatever strangers send and whenever. */
  lemma OwnPunctualitySuffices(token: seq<byte>, me: Addr, file: seq<byte>, chunks: seq<seq<byte>>,
                               pre: seq<Arrival>, tok: Arrival, rest: seq<Arrival>, m: nat)
    requires ValidToken(token) && !me.Unknown? && ChunksOf(chunks, file) && |file| <= MAX_FILE_BYTES
    requires forall a | a in pre :: Ignored(a, token)
    requires tok.Datagram? && tok.from == me && tok.payload == token && tok.fileOk
    requires chunks + [[]] <= Payloads(me, rest) && Monotone(tok.at, rest) && ClosesAt(me, rest, m)
    requires forall k: nat | k <= m && rest[k].RecvFault? :: rest[k].errno == EINTR
    requires forall k: nat | k <= m && IsOwn(me, rest[k]) ::
               Recent(LastHeard(me, tok.at, rest[..k]), rest[k].at) && (rest[k].payload != [] ==> rest[k].fileOk)
    ensures Run(V2, START, pre + [tok] + rest, token) == State(Done, file, |file|)
  {
    hide Run, Ignored, ValidToken, LastHeard, Recent, ChunksOf, Payloads, Monotone;
    var n := EndToEnd(token, me, file, chunks, pre, tok, rest);
    ClosesOnce(me, rest, m, n);
    forall k: nat | k <= m
      ensures Punctual(me, tok.at, rest, k)
    {
      StrangersCannotDelay(me, tok.at, rest, m, k);
    }
  }

  lemma {:induction false} SamePeer(a: Addr, b: Addr, xs: seq<Arrival>)
    requires SameClient(a, b)
    ensures Payloads(a, xs) == Payloads(b, xs)
  {
    if xs != [] {
      SamePeer(a, b, xs[..|xs| - 1]);
    }
  }

  lemma Remaining(token: seq<byte>, chunks: seq<seq<byte>>, eofs: nat, ps: seq<seq<byte>>, wire: seq<seq<byte>>)
    requires wire == [token] + chunks + Eofs(eofs) && [token] + ps <= wire && |ps| >= |chunks| + 1
    ensures chunks + [[]] <= ps
  {
    assert ps == ([token] + ps)[1..] == wire[1..|ps| + 1];
    assert wire[1..] == chunks + Eofs(eofs);
    assert wire[1..|ps| + 1] == (chunks + Eofs(eofs))[..|ps|];
    assert (chunks + Eofs(eofs))[|chunks|] == [];
    assert ps[..|chunks| + 1] == chunks + [[]];
  }

  lemma {:induction false} PayloadsConcat(peer: Addr, a: seq<Arrival>, b: seq<Arrival>)
    ensures Payloads(peer, a + b) == Payloads(peer, a) + Payloads(peer, b)
    decreases |b|
  {
    if b == [] {
      assert a + b == a;
    } else {
      var n := |b| - 1;
      assert a + b == (a + b[..n]) + [b[n]] && b == b[..n] + [b[n]];
      PayloadsConcat(peer, a, b[..n]);
      PayloadsNext(peer, a + b[..n], b[n]);
      PayloadsNext(peer, b[..n], b[n]);
    }
  }

  lemma {:induction false} NotToken(peer: Addr, pre: seq<Arrival>, token: seq<byte>)
    requires ValidToken(token) && forall k | 0 <= k < |pre| :: Ignored(pre[k], token)
    ensures var ps := Payloads(peer, pre); ps != [] ==> ps[0] != token
  {
    hide ValidToken, TokenAccepted;
    if pre != [] {
      var n := |pre| - 1;
      NotToken(peer, pre[..n], token);
      if IsOwn(peer, pre[n]) {
        TokenOpens(token, pre[n].from);
      }
    }
  }

  lemma NothingFirst(ps: seq<seq<byte>>, qs: seq<seq<byte>>, wire: seq<seq<byte>>)
    requires ps + qs <= wire && wire != [] && (ps != [] ==> ps[0] != wire[0])
    ensures ps == []
  {
    assert forall k | 0 <= k < |ps| :: (ps + qs)[k] == ps[k];
  }

  /** The client's first datagram is the token, so it is the one that opens the transfer. */
  lemma FirstIsToken(token: seq<byte>, me: Addr, wire: seq<seq<byte>>, xs: seq<Arrival>)
    requires ValidToken(token) && wire != [] && wire[0] == token && Payloads(me, xs) <= wire
    requires Opens(xs, token) && IsOwn(me, xs[Opening(xs, token)])
    ensures xs[Opening(xs, token)].payload == token
    ensures Payloads(me, xs) == [token] + Payloads(me, After(xs, token))
  {
    hide Payloads, ValidToken, TokenAccepted;
    var n := Opening(xs, token);
    var pre, tok, rest := xs[..n], xs[n], After(xs, token);
    assert xs == (pre + [tok]) + rest;
    PayloadsConcat(me, pre + [tok], rest);
    PayloadsNext(me, pre, tok);
    NotToken(me, pre, token);
    NothingFirst(Payloads(me, pre), [tok.payload] + Payloads(me, rest), wire);
    assert Payloads(me, xs)[0] == tok.payload;
  }

  /**
   The client program against the V2 server. The client put `wire` on the network, as `SendFile` with
   status 0 does when at least one end of file could be sent; of it a part arrives in order, at least
   up to an end of file, among whatever others send, and nobody else opens the transfer. Then it
   completes exactly when the file is within the limit and everything up to the first end of file is
   punctual, and the server has the client's file.
   */
  lemma ClientToServer(token: seq<byte>, me: Addr, file: seq<byte>, wire: seq<seq<byte>>, chunks: seq<seq<byte>>,
                       eofs: nat, xs: seq<Arrival>) returns (m: nat)
    requires ValidToken(token) && ChunksOf(chunks, file)
    requires wire == [token] + chunks + Eofs(eofs)
    requires Payloads(me, xs) <= wire && |Payloads(me, xs)| >= |chunks| + 2
    requires Opens(xs, token) && IsOwn(me, xs[Opening(xs, token)])
    ensures var peer, rest := Peer(xs, token), After(xs, token);
            && ClosesAt(peer, rest, m)
            && var s := Run(V2, START, xs, token);
               && (s.phase.Done? <==>
                     && |file| <= MAX_FILE_BYTES
                     && forall k: nat | k <= m :: Punctual(peer, Began(xs, token), rest, k))
               && (s.phase.Done? ==> s.file == file && s.count == |file|)
  {
    hide Run, TokenAccepted, ValidToken, ChunksOf, Content, Payloads, Punctual, Eofs;
    var n, peer, rest := Opening(xs, token), Peer(xs, token), After(xs, token);
    FirstIsToken(token, me, wire, xs);
    assert xs == xs[..n] + [xs[n]] + rest;
    SamePeer(peer, me, rest);
    Remaining(token, chunks, eofs, Payloads(me, rest), wire);
    m := EndToEnd(token, peer, file, chunks, xs[..n], xs[n], rest);
    assert Began(xs, token) == xs[n].at;
    assert (forall k: nat | k <= m :: Punctual(peer, Began(xs, token), rest, k))
           <==> (forall k: nat | k <= m :: Punctual(peer, xs[n].at, rest, k));
  }

  /** If no end of file was sent, or none arrives, the transfer never completes: the client's exit status 0
      does not say that it does. */
  lemma NoEndNoCompletion(token: seq<byte>, me: Addr, file: seq<byte>, wire: seq<seq<byte>>, chunks: seq<seq<byte>>,
                          xs: seq<Arrival>)
    requires ValidToken(token) && ChunksOf(chunks, file) && wire == [token] + chunks
    requires Payloads(me, xs) <= wire
    requires Opens(xs, token) && IsOwn(me, xs[Opening(xs, token)])
    ensures !Run(V2, START, xs, token).phase.Done?
  {
    hide Run, TokenAccepted, ValidToken, Content, Payloads;
    var peer, rest := Peer(xs, token), After(xs, token);
    FirstIsToken(token, me, wire, xs);
    SamePeer(peer, me, rest);
    ContentOfChunks(chunks);
    assert forall p | p in Payloads(me, rest) :: p in chunks by {
      assert forall k | 0 <= k < |Payloads(me, rest)| ::
          Payloads(me, rest)[k] == Payloads(me, xs)[k + 1] == wire[k + 1] == chunks[k];
    }
    Opened(V2, xs, token);
    FileIsWhatWasSent(peer, Began(xs, token), rest, token);
  }
}
