/** What the UDP file transfer promises, over every sequence of arrivals. */
module UdpTheorems {
  import opened Bytes
  import opened Clock
  import opened UdpToken
  import opened UdpServer
  import opened UdpClient

  /** Is this a datagram from `peer`? */
  predicate IsOwn(peer: Addr, a: Arrival) {
    a.Datagram? && SameClient(a.from, peer)
  }

  /** The payloads of the peer's datagrams, in order. */
  function Payloads(peer: Addr, xs: seq<Arrival>): seq<seq<byte>> {
    if xs == [] then []
    else
      var a := xs[|xs| - 1];
      Payloads(peer, xs[..|xs| - 1]) + (if IsOwn(peer, a) then [a.payload] else [])
  }

  /** The file that a sequence of payloads spells: each cut to the buffer, none after the first empty one. */
  function Content(ps: seq<seq<byte>>): seq<byte> {
    if ps == [] then []
    else if [] in ps[..|ps| - 1] then Content(ps[..|ps| - 1])
    else Content(ps[..|ps| - 1]) + Cut(ps[|ps| - 1], BUFFERT)
  }

  /** When the peer was last heard of, foreign traffic aside. */
  function LastHeard(peer: Addr, start: TimeVal, xs: seq<Arrival>): TimeVal {
    if xs == [] then start
    else if IsOwn(peer, xs[|xs| - 1]) then xs[|xs| - 1].at
    else LastHeard(peer, start, xs[..|xs| - 1])
  }

  function Begin(peer: Addr, start: TimeVal): State {
    State(Receiving(peer, start), [], 0)
  }

  lemma PayloadsNext(peer: Addr, xs: seq<Arrival>, a: Arrival)
    ensures Payloads(peer, xs + [a]) == Payloads(peer, xs) + (if IsOwn(peer, a) then [a.payload] else [])
  {
    assert (xs + [a])[..|xs|] == xs;
  }

  lemma ContentNext(ps: seq<seq<byte>>, p: seq<byte>)
    ensures Content(ps + [p]) == if [] in ps then Content(ps) else Content(ps) + Cut(p, BUFFERT)
    ensures [] in ps + [p] <==> [] in ps || p == []
  {
    assert (ps + [p])[..|ps|] == ps;
  }

  /** What the last arrival adds to the peer's part of the story. */
  lemma LastArrival(peer: Addr, xs: seq<Arrival>)
    requires xs != []
    ensures var n := |xs| - 1; var ps, qs := Payloads(peer, xs[..n]), Payloads(peer, xs);
            && qs == ps + (if IsOwn(peer, xs[n]) then [xs[n].payload] else [])
            && ([] in qs <==> [] in ps || (IsOwn(peer, xs[n]) && xs[n].payload == []))
            && Content(qs) == if [] !in ps && IsOwn(peer, xs[n]) then Content(ps) + Cut(xs[n].payload, BUFFERT)
                              else Content(ps)
  {
    var n := |xs| - 1;
    assert xs == xs[..n] + [xs[n]];
    PayloadsNext(peer, xs[..n], xs[n]);
    if IsOwn(peer, xs[n]) {
      ContentNext(Payloads(peer, xs[..n]), xs[n].payload);
    } else {
      assert Payloads(peer, xs) == Payloads(peer, xs[..n]);
    }
  }

  predicate FileSoFar(s: State, peer: Addr, start: TimeVal, xs: seq<Arrival>) {
    var ps := Payloads(peer, xs);
    && (s.phase.Receiving? ==>
          s.phase == Receiving(peer, LastHeard(peer, start, xs)) && s.file == Content(ps) && [] !in ps)
    && (s.phase.Done? ==> s.file == Content(ps) && [] in ps)
    && s.file <= Content(ps) && |s.file| <= MAX_FILE_BYTES
    && (s.phase != Failed(WriteError) ==> s.count == |s.file|)
    && !s.phase.Waiting?
  }

  /** At every moment of every run the file is what the peer has sent so far; a failed run keeps a
      prefix of it. The counter is the length of the file, and neither exceeds the limit. */
  lemma {:induction false} FileIsWhatWasSent(peer: Addr, start: TimeVal, xs: seq<Arrival>, token: seq<byte>)
    ensures FileSoFar(Run(V2, Begin(peer, start), xs, token), peer, start, xs)
  {
    if xs != [] {
      FileIsWhatWasSent(peer, start, xs[..|xs| - 1], token);
      FileStep(peer, start, xs, token);
    }
  }

  /** One arrival more. */
  lemma FileStep(peer: Addr, start: TimeVal, xs: seq<Arrival>, token: seq<byte>)
    requires xs != []
    requires FileSoFar(Run(V2, Begin(peer, start), xs[..|xs| - 1], token), peer, start, xs[..|xs| - 1])
    ensures FileSoFar(Run(V2, Begin(peer, start), xs, token), peer, start, xs)
  {
    hide Content, Payloads, Recent;
    LastArrival(peer, xs);
  }

  /** Nothing is taken from anybody, nor the end of the file, ten seconds or more after the last
      datagram of the peer: foreign traffic does not extend the time. */
  lemma TimelyWhileAlive(peer: Addr, start: TimeVal, xs: seq<Arrival>, a: Arrival, token: seq<byte>)
    requires Run(V2, Begin(peer, start), xs, token).phase.Receiving?
    requires !Run(V2, Begin(peer, start), xs + [a], token).phase.Failed?
    ensures a.RecvFault? ==> a.errno == EINTR
    ensures a.Datagram? ==> Recent(LastHeard(peer, start, xs), a.at)
  {
    FileIsWhatWasSent(peer, start, xs, token);
    RunNext(V2, Begin(peer, start), xs, a, token);
  }

  /** The k-th arrival is no fault but EINTR, comes in time after the peer's last datagram, and if it is
      data it can be written. */
  predicate Punctual(peer: Addr, start: TimeVal, xs: seq<Arrival>, k: nat)
    requires k < |xs|
  {
    match xs[k]
    case RecvFault(e, _) => e == EINTR
    case Datagram(from, payload, at, fileOk) =>
      Recent(LastHeard(peer, start, xs[..k]), at) && (SameClient(from, peer) && payload != [] ==> fileOk)
  }

  /** ... and the file stays within the limit. */
  predicate Smooth(peer: Addr, start: TimeVal, xs: seq<Arrival>, k: nat)
    requires k < |xs|
  {
    && Punctual(peer, start, xs, k)
    && (IsOwn(peer, xs[k]) && xs[k].payload != [] ==> Fits(peer, xs, k))
  }

  predicate Fits(peer: Addr, xs: seq<Arrival>, k: nat)
    requires k < |xs|
  {
    |Content(Payloads(peer, xs[..k + 1]))| <= MAX_FILE_BYTES
  }

  /** Before the end of the file, the server is alive exactly when every arrival was smooth. */
  lemma {:induction false} AliveIffSmooth(peer: Addr, start: TimeVal, xs: seq<Arrival>, token: seq<byte>)
    requires [] !in Payloads(peer, xs)
    ensures Run(V2, Begin(peer, start), xs, token).phase.Receiving?
            <==> forall k: nat | k < |xs| :: Smooth(peer, start, xs, k)
    decreases |xs|
  {
    if xs != [] {
      var n := |xs| - 1;
      LastArrival(peer, xs);
      AliveIffSmooth(peer, start, xs[..n], token);
      FileIsWhatWasSent(peer, start, xs[..n], token);
      SmoothPrefix(peer, start, xs, n);
      assert xs[..n + 1] == xs;
      AliveStep(peer, start, xs, token);
    }
  }

  lemma AliveStep(peer: Addr, start: TimeVal, xs: seq<Arrival>, token: seq<byte>)
    requires xs != [] && [] !in Payloads(peer, xs)
    ensures var n := |xs| - 1; var s := Run(V2, Begin(peer, start), xs[..n], token);
            s.phase.Receiving? ==>
              (Run(V2, Begin(peer, start), xs, token).phase.Receiving? <==> Smooth(peer, start, xs, n))
  {
    hide Run, Content, Payloads, LastHeard, Recent;
    var n := |xs| - 1;
    assert xs == xs[..n] + [xs[n]];
    RunNext(V2, Begin(peer, start), xs[..n], xs[n], token);
    LastArrival(peer, xs);
    FileIsWhatWasSent(peer, start, xs[..n], token);
    assert xs[..n + 1] == xs;
  }

  /** The peer's first empty datagram is arrival `m`. */
  predicate ClosesAt(peer: Addr, xs: seq<Arrival>, m: nat) {
    m < |xs| && IsOwn(peer, xs[m]) && xs[m].payload == [] && [] !in Payloads(peer, xs[..m])
  }

  /** A transfer completes exactly when the peer's end of file arrives and every arrival up to it,
      foreign ones included, is smooth; the file is then what the peer sent before it. */
  lemma CompletesIffSmooth(peer: Addr, start: TimeVal, xs: seq<Arrival>, m: nat, token: seq<byte>)
    requires ClosesAt(peer, xs, m)
    ensures Run(V2, Begin(peer, start), xs, token).phase.Done? <==> forall k: nat | k <= m :: Smooth(peer, start, xs, k)
    ensures Run(V2, Begin(peer, start), xs, token).phase.Done? ==>
              Run(V2, Begin(peer, start), xs, token).file == Content(Payloads(peer, xs[..m]))
  {
    hide Run, Smooth, Content, Payloads, LastHeard, Step;
    var s0 := Begin(peer, start);
    var pre := xs[..m];
    AliveIffSmooth(peer, start, pre, token);
    SmoothPrefix(peer, start, xs, m);
    CloseStep(peer, start, xs, m, token);
    StopsAt(V2, s0, xs, m, token);
  }

  lemma SmoothPrefix(peer: Addr, start: TimeVal, xs: seq<Arrival>, m: nat)
    requires m <= |xs|
    ensures forall k: nat | k < m :: Smooth(peer, start, xs[..m], k) == Smooth(peer, start, xs, k)
  {
    forall k: nat | k < m
      ensures Smooth(peer, start, xs[..m], k) == Smooth(peer, start, xs, k)
    {
      assert xs[..m][..k] == xs[..k] && xs[..m][..k + 1] == xs[..k + 1];
    }
  }

  /** The end of the file is taken exactly when it is in time. */
  lemma CloseStep(peer: Addr, start: TimeVal, xs: seq<Arrival>, m: nat, token: seq<byte>)
    requires ClosesAt(peer, xs, m)
    ensures var s, s' := Run(V2, Begin(peer, start), xs[..m], token), Run(V2, Begin(peer, start), xs[..m + 1], token);
            && (s'.phase.Done? || s'.phase.Failed?)
            && (s'.phase.Done? <==> s.phase.Receiving? && Smooth(peer, start, xs, m))
            && (s'.phase.Done? ==> s'.file == Content(Payloads(peer, xs[..m])))
  {
    hide Run, Content, Payloads, Recent, LastHeard;
    FileIsWhatWasSent(peer, start, xs[..m], token);
    RunNext(V2, Begin(peer, start), xs[..m], xs[m], token);
    assert xs[..m + 1] == xs[..m] + [xs[m]];
  }

  /** Arrival `k` is the first that is not smooth, and the peer's end of file was not before it. */
  predicate BreaksAt(peer: Addr, start: TimeVal, xs: seq<Arrival>, k: nat) {
    && k < |xs| && [] !in Payloads(peer, xs[..k])
    && !Smooth(peer, start, xs, k) && forall j: nat | j < k :: Smooth(peer, start, xs, j)
  }

  /** Why it ends the transfer: a receive error, silence, the size of the file, or the write, whichever
      of these comes first. */
  function Reason(peer: Addr, start: TimeVal, xs: seq<Arrival>, k: nat): Why
    requires k < |xs|
  {
    match xs[k]
    case RecvFault(_, _) => ReceiveError
    case Datagram(_, _, at, _) =>
      if !Recent(LastHeard(peer, start, xs[..k]), at) then Idle
      else if !Fits(peer, xs, k) then TooLarge
      else WriteError
  }

  /** How a transfer is left by arrival `k`: the file is what was sent before it, and the counter is its
      length, but after a failed write it includes what could not be written. */
  predicate FailedAt(s: State, peer: Addr, start: TimeVal, xs: seq<Arrival>, k: nat) {
    && k < |xs| && s.phase == Failed(Reason(peer, start, xs, k))
    && s.file == Content(Payloads(peer, xs[..k]))
    && s.count == if s.phase.why == WriteError then |Content(Payloads(peer, xs[..k + 1]))| else |s.file|
  }

  /** A transfer fails exactly when some arrival before the end of the file is not smooth; the first one
      is the reason. */
  lemma FailsIffBreaks(peer: Addr, start: TimeVal, xs: seq<Arrival>, token: seq<byte>)
    ensures var s := Run(V2, Begin(peer, start), xs, token);
            && (s.phase.Failed? <==> exists k: nat :: BreaksAt(peer, start, xs, k))
            && forall k: nat | BreaksAt(peer, start, xs, k) :: FailedAt(s, peer, start, xs, k)
  {
    hide Run, BreaksAt, FailedAt;
    var s := Run(V2, Begin(peer, start), xs, token);
    forall k: nat | BreaksAt(peer, start, xs, k)
      ensures s.phase.Failed? && FailedAt(s, peer, start, xs, k)
    {
      BreakEnds(peer, start, xs, k, token);
    }
    if s.phase.Failed? {
      var k := BreakOf(peer, start, xs, token);
    }
  }

  lemma BreakEnds(peer: Addr, start: TimeVal, xs: seq<Arrival>, k: nat, token: seq<byte>)
    requires BreaksAt(peer, start, xs, k)
    ensures Run(V2, Begin(peer, start), xs, token).phase.Failed?
    ensures FailedAt(Run(V2, Begin(peer, start), xs, token), peer, start, xs, k)
  {
    hide Run, Smooth, Content, Payloads, Step, Reason;
    var s0 := Begin(peer, start);
    SmoothPrefix(peer, start, xs, k);
    AliveIffSmooth(peer, start, xs[..k], token);
    BreakStep(peer, start, xs, k, token);
    StopsAt(V2, s0, xs, k, token);
  }

  lemma BreakStep(peer: Addr, start: TimeVal, xs: seq<Arrival>, k: nat, token: seq<byte>)
    requires BreaksAt(peer, start, xs, k) && Run(V2, Begin(peer, start), xs[..k], token).phase.Receiving?
    ensures FailedAt(Run(V2, Begin(peer, start), xs[..k + 1], token), peer, start, xs, k)
  {
    hide Run, Content, Payloads, Recent, LastHeard;
    FileIsWhatWasSent(peer, start, xs[..k], token);
    assert xs[..k + 1] == xs[..k] + [xs[k]] && xs[..k + 1][..k] == xs[..k];
    RunNext(V2, Begin(peer, start), xs[..k], xs[k], token);
    LastArrival(peer, xs[..k + 1]);
  }

  lemma {:induction false} BreakOf(peer: Addr, start: TimeVal, xs: seq<Arrival>, token: seq<byte>) returns (k: nat)
    requires Run(V2, Begin(peer, start), xs, token).phase.Failed?
    ensures BreaksAt(peer, start, xs, k)
  {
    hide Smooth, Content, Payloads, Step;
    var n := |xs| - 1;
    var s := Run(V2, Begin(peer, start), xs[..n], token);
    SmoothPrefix(peer, start, xs, n);
    FileIsWhatWasSent(peer, start, xs[..n], token);
    assert xs[..n + 1] == xs;
    if s.phase.Failed? {
      k := BreakOf(peer, start, xs[..n], token);
      assert xs[..n][..k] == xs[..k];
    } else {
      k := n;
      if s.phase.Done? {
        DoneStays(s, xs[n], token);
      }
      AliveIffSmooth(peer, start, xs[..n], token);
      if ClosesAt(peer, xs, n) {
        CloseStep(peer, start, xs, n, token);
      } else {
        LastArrival(peer, xs);
        AliveStep(peer, start, xs, token);
      }
    }
  }

  lemma DoneStays(s: State, a: Arrival, token: seq<byte>)
    requires s.phase.Done?
    ensures Step(V2, s, a, token) == s
  {
  }

  lemma {:induction false} NotReceivingStays(v: Version, s: State, xs: seq<Arrival>, token: seq<byte>)
    requires s.phase.Done? || s.phase.Failed?
    ensures Run(v, s, xs, token) == s
  {
    if xs != [] {
      NotReceivingStays(v, s, xs[..|xs| - 1], token);
    }
  }

  /** Once a server has stopped, what follows changes nothing. */
  lemma StopsAt(v: Version, s: State, xs: seq<Arrival>, k: nat, token: seq<byte>)
    requires k < |xs|
    ensures var s1 := Run(v, s, xs[..k + 1], token);
            && s1 == Step(v, Run(v, s, xs[..k], token), xs[k], token)
            && (s1.phase.Done? || s1.phase.Failed? ==> Run(v, s, xs, token) == s1)
  {
    hide Run, Step;
    var s1 := Run(v, s, xs[..k + 1], token);
    assert xs[..k + 1] == xs[..k] + [xs[k]] && xs == xs[..k + 1] + xs[k + 1..];
    RunNext(v, s, xs[..k], xs[k], token);
    RunConcat(v, s, xs[..k + 1], xs[k + 1..], token);
    if s1.phase.Done? || s1.phase.Failed? {
      NotReceivingStays(v, s1, xs[k + 1..], token);
    }
  }

  /** The peer's content only grows, and grows with every datagram of the peer. */
  lemma {:induction false} ContentGrows(peer: Addr, xs: seq<Arrival>, a: nat, b: nat)
    requires a <= b <= |xs| && [] !in Payloads(peer, xs[..b])
    ensures [] !in Payloads(peer, xs[..a])
    ensures Content(Payloads(peer, xs[..a])) <= Content(Payloads(peer, xs[..b]))
    ensures Content(Payloads(peer, xs[..a])) == Content(Payloads(peer, xs[..b]))
            <==> forall k | a <= k < b :: !IsOwn(peer, xs[k])
    decreases b
  {
    hide Content, Payloads, Cut;
    if a < b {
      LastArrival(peer, xs[..b]);
      assert xs[..b][..b - 1] == xs[..b - 1] && xs[..b][b - 1] == xs[b - 1];
      ContentGrows(peer, xs, a, b - 1);
      CutIsEmpty(xs[b - 1]);
    }
  }

  lemma CutIsEmpty(a: Arrival)
    ensures a.Datagram? ==> (Cut(a.payload, BUFFERT) == [] <==> a.payload == [])
  {
  }

  /** Smoothness of a whole transfer: punctual arrivals and a file within the limit. */
  lemma SmoothIffPunctual(peer: Addr, start: TimeVal, xs: seq<Arrival>, m: nat, token: seq<byte>)
    requires ClosesAt(peer, xs, m)
    ensures (forall k: nat | k <= m :: Smooth(peer, start, xs, k))
            <==> && (forall k: nat | k <= m :: Punctual(peer, start, xs, k))
                 && |Content(Payloads(peer, xs[..m]))| <= MAX_FILE_BYTES
  {
    hide Content, Payloads, Fits, Punctual, Run;
    if forall k: nat | k <= m :: Smooth(peer, start, xs, k) {
      SmoothFits(peer, start, xs, m, token);
    }
    if |Content(Payloads(peer, xs[..m]))| <= MAX_FILE_BYTES {
      forall k: nat | k <= m
        ensures Smooth(peer, start, xs, k) == Punctual(peer, start, xs, k)
      {
        if k < m {
          ContentGrows(peer, xs, k + 1, m);
          FitsMeans(peer, xs, k);
        }
      }
    }
  }

  lemma FitsMeans(peer: Addr, xs: seq<Arrival>, k: nat)
    requires k < |xs|
    ensures Fits(peer, xs, k) <==> |Content(Payloads(peer, xs[..k + 1]))| <= MAX_FILE_BYTES
  {
  }

  lemma SmoothFits(peer: Addr, start: TimeVal, xs: seq<Arrival>, m: nat, token: seq<byte>)
    requires m <= |xs| && [] !in Payloads(peer, xs[..m])
    requires forall k: nat | k < m :: Smooth(peer, start, xs, k)
    ensures |Content(Payloads(peer, xs[..m]))| <= MAX_FILE_BYTES
  {
    hide Content, Payloads, Smooth, Run;
    SmoothPrefix(peer, start, xs, m);
    AliveIffSmooth(peer, start, xs[..m], token);
    FileIsWhatWasSent(peer, start, xs[..m], token);
  }

  /** An arrival that the token loop passes over. */
  predicate Ignored(a: Arrival, token: seq<byte>) {
    if a.RecvFault? then a.errno == EINTR else !TokenAccepted(a.from, a.payload, token)
  }

  /** Until an accepted token arrives both servers wait. */
  lemma {:induction false} WaitingForToken(v: Version, pre: seq<Arrival>, token: seq<byte>)
    requires forall a | a in pre :: Ignored(a, token)
    ensures Run(v, START, pre, token) == START
  {
    hide TokenAccepted;
    if pre != [] {
      var n := |pre| - 1;
      assert pre[n] in pre && forall a | a in pre[..n] :: a in pre;
      WaitingForToken(v, pre[..n], token);
    }
  }

  lemma TokenOpens(token: seq<byte>, from: Addr)
    requires ValidToken(token) && !from.Unknown?
    ensures TokenAccepted(from, token, token)
  {
    AcceptedExactly(from, token, token);
  }

  lemma {:induction false} FindPayload(peer: Addr, xs: seq<Arrival>, j: nat) returns (m: nat)
    requires j < |Payloads(peer, xs)|
    ensures m < |xs| && IsOwn(peer, xs[m]) && xs[m].payload == Payloads(peer, xs)[j]
    ensures Payloads(peer, xs[..m]) == Payloads(peer, xs)[..j]
  {
    var n := |xs| - 1;
    LastArrival(peer, xs);
    if j < |Payloads(peer, xs[..n])| {
      m := FindPayload(peer, xs[..n], j);
      assert xs[..n][..m] == xs[..m];
    } else {
      m := n;
    }
  }

  lemma {:induction false} ContentOfChunks(chunks: seq<seq<byte>>)
    requires forall c | c in chunks :: 1 <= |c| <= BUFFERT
    ensures Content(chunks) == Flatten(chunks) && [] !in chunks
  {
    hide Content, Flatten;
    NothingSpelt();
    if chunks != [] {
      var n := |chunks| - 1;
      assert chunks[n] in chunks && forall c | c in chunks[..n] :: c in chunks;
      ContentOfChunks(chunks[..n]);
      ContentNext(chunks[..n], chunks[n]);
      assert chunks == chunks[..n] + [chunks[n]];
      FlattenConcat(chunks[..n], [chunks[n]]);
      FlattenOne(chunks[n]);
    }
  }

  lemma NothingSpelt()
    ensures Content([]) == [] && Flatten([]) == []
  {
  }

  /**
   End to end. A client sends its token, its file in chunks however its reads cut it, and the end of
   the file; these arrive in order and unduplicated, among whatever others send and with whatever
   follows. No earlier datagram opens the transfer. Then the transfer completes exactly when the file
   is within the limit and every arrival up to the first end of file is punctual, and the server's
   file is then the client's.
   */
  lemma EndToEnd(token: seq<byte>, me: Addr, file: seq<byte>, chunks: seq<seq<byte>>,
                 pre: seq<Arrival>, tok: Arrival, rest: seq<Arrival>) returns (m: nat)
    requires ValidToken(token) && !me.Unknown? && ChunksOf(chunks, file)
    requires forall a | a in pre :: Ignored(a, token)
    requires tok.Datagram? && tok.from == me && tok.payload == token && tok.fileOk
    requires chunks + [[]] <= Payloads(me, rest)
    ensures ClosesAt(me, rest, m)
    ensures var s := Run(V2, START, pre + [tok] + rest, token);
            && (s.phase.Done? <==> |file| <= MAX_FILE_BYTES && forall k: nat | k <= m :: Punctual(me, tok.at, rest, k))
            && (s.phase.Done? ==> s.file == file && s.count == |file|)
  {
    hide Run, Content, Punctual, Smooth, TokenAccepted, ValidToken, Step;
    ContentOfChunks(chunks);
    m := FindPayload(me, rest, |chunks|);
    assert Payloads(me, rest)[|chunks|] == (chunks + [[]])[|chunks|];
    assert Payloads(me, rest[..m]) == (chunks + [[]])[..|chunks|] == chunks;
    RunFromToken(token, me, pre, tok, rest);
    CompletesIffSmooth(me, tok.at, rest, m, token);
    SmoothIffPunctual(me, tok.at, rest, m, token);
    FileIsWhatWasSent(me, tok.at, rest, token);
  }

  lemma RunFromToken(token: seq<byte>, me: Addr, pre: seq<Arrival>, tok: Arrival, rest: seq<Arrival>)
    requires ValidToken(token) && !me.Unknown?
    requires forall a | a in pre :: Ignored(a, token)
    requires tok.Datagram? && tok.from == me && tok.payload == token && tok.fileOk
    ensures Run(V2, START, pre + [tok] + rest, token) == Run(V2, Begin(me, tok.at), rest, token)
  {
    WaitingForToken(V2, pre, token);
    TokenOpens(token, me);
    RunNext(V2, START, pre, tok, token);
    RunConcat(V2, START, pre + [tok], rest, token);
  }

  /** The clock does not run backwards. */
  predicate Monotone(start: TimeVal, xs: seq<Arrival>) {
    && (forall k | 0 <= k < |xs| :: Micros(start) <= Micros(xs[k].at))
    && (forall j, k | 0 <= j < k < |xs| :: Micros(xs[j].at) <= Micros(xs[k].at))
  }

  /** With a clock that does not run backwards, strangers cannot make a transfer late: if the peer's own
      datagrams up to the end of the file are in time, so is everything in between. */
  lemma {:induction false} StrangersCannotDelay(peer: Addr, start: TimeVal, xs: seq<Arrival>, m: nat, k: nat)
    requires ClosesAt(peer, xs, m) && Monotone(start, xs) && k <= m
    requires forall j: nat | j <= m && IsOwn(peer, xs[j]) :: Recent(LastHeard(peer, start, xs[..j]), xs[j].at)
    ensures Recent(LastHeard(peer, start, xs[..k]), xs[k].at)
    decreases m - k
  {
    if !IsOwn(peer, xs[k]) {
      StrangersCannotDelay(peer, start, xs, m, k + 1);
      assert xs[..k + 1][..k] == xs[..k];
      HeardBefore(peer, start, xs, k);
    }
  }

  lemma {:induction false} HeardBefore(peer: Addr, start: TimeVal, xs: seq<Arrival>, k: nat)
    requires Monotone(start, xs) && k < |xs|
    ensures forall j | k <= j < |xs| :: Micros(LastHeard(peer, start, xs[..k])) <= Micros(xs[j].at)
    decreases k
  {
    if k > 0 {
      assert xs[..k][..k - 1] == xs[..k - 1];
      HeardBefore(peer, start, xs, k - 1);
    }
  }

  predicate IsEmpty(a: Arrival) {
    a.Datagram? && a.payload == []
  }

  /** While nobody has sent an empty datagram, V1 does what a live V2 does. */
  lemma {:induction false} SameUntilEmpty(peer: Addr, start: TimeVal, xs: seq<Arrival>, token: seq<byte>)
    requires forall a | a in xs :: !IsEmpty(a)
    requires Run(V2, Begin(peer, start), xs, token).phase.Receiving?
    ensures Run(V1, Begin(peer, start), xs, token) == Run(V2, Begin(peer, start), xs, token)
  {
    if xs != [] {
      var n := |xs| - 1;
      assert xs[n] in xs && forall a | a in xs[..n] :: a in xs;
      FileIsWhatWasSent(peer, start, xs[..n], token);
      SameUntilEmpty(peer, start, xs[..n], token);
    }
  }

  /**
   Whenever V2 completes, so does V1, at the first empty datagram `e`, whoever sent it. Its file is
   a prefix of V2's, and the same exactly when the client sent nothing more between `e` and its own
   end of file `m`; so in particular when `e` is that end of file.
   */
  lemma V1VersusV2(peer: Addr, start: TimeVal, xs: seq<Arrival>, token: seq<byte>) returns (e: nat, m: nat)
    requires Run(V2, Begin(peer, start), xs, token).phase.Done?
    ensures ClosesAt(peer, xs, m) && e <= m && IsEmpty(xs[e]) && forall k | 0 <= k < e :: !IsEmpty(xs[k])
    ensures var s1, s2 := Run(V1, Begin(peer, start), xs, token), Run(V2, Begin(peer, start), xs, token);
            && s1.phase.Done? && s1.file <= s2.file
            && s1.file == Content(Payloads(peer, xs[..e])) && s2.file == Content(Payloads(peer, xs[..m]))
            && (s1.file == s2.file <==> forall k | e < k < m :: !IsOwn(peer, xs[k]))
  {
    hide Run, Step, Content, Smooth;
    FileIsWhatWasSent(peer, start, xs, token);
    m := FirstOwnEmpty(peer, xs);
    CompletesIffSmooth(peer, start, xs, m, token);
    e := 0;
    while !IsEmpty(xs[e])
      invariant e <= m && forall k | 0 <= k < e :: !IsEmpty(xs[k])
      decreases m - e
    {
      e := e + 1;
    }
    StopsAtFirstEmpty(peer, start, xs, e, m, token);
    ContentGrows(peer, xs, e, m);
    if e < m {
      NotOwnAt(peer, xs, e, m);
    }
  }

  lemma NotOwnAt(peer: Addr, xs: seq<Arrival>, e: nat, m: nat)
    requires e < m < |xs| && IsEmpty(xs[e]) && [] !in Payloads(peer, xs[..m])
    ensures !IsOwn(peer, xs[e])
  {
    hide Content, Payloads, Cut;
    ContentGrows(peer, xs, e + 1, m);
    LastArrival(peer, xs[..e + 1]);
    assert xs[..e + 1][..e] == xs[..e];
  }

  lemma FirstOwnEmpty(peer: Addr, xs: seq<Arrival>) returns (m: nat)
    requires [] in Payloads(peer, xs)
    ensures ClosesAt(peer, xs, m)
  {
    var ps := Payloads(peer, xs);
    var j := 0;
    while ps[j] != []
      invariant j < |ps| && [] !in ps[..j]
      invariant [] in ps[j..]
      decreases |ps| - j
    {
      assert ps[j..] == [ps[j]] + ps[j + 1..];
      assert ps[..j + 1] == ps[..j] + [ps[j]];
      j := j + 1;
    }
    m := FindPayload(peer, xs, j);
  }

  lemma StopsAtFirstEmpty(peer: Addr, start: TimeVal, xs: seq<Arrival>, e: nat, m: nat, token: seq<byte>)
    requires ClosesAt(peer, xs, m) && e <= m && IsEmpty(xs[e]) && forall k | 0 <= k < e :: !IsEmpty(xs[k])
    requires forall k: nat | k <= m :: Smooth(peer, start, xs, k)
    ensures var s1 := Run(V1, Begin(peer, start), xs, token);
            s1.phase.Done? && s1.file == Content(Payloads(peer, xs[..e]))
  {
    hide Smooth, Content, Run;
    var s0 := Begin(peer, start);
    SmoothPrefix(peer, start, xs, e);
    ContentGrows(peer, xs, e, m);
    AliveIffSmooth(peer, start, xs[..e], token);
    SameUntilEmpty(peer, start, xs[..e], token);
    FileIsWhatWasSent(peer, start, xs[..e], token);
    StopsAt(V1, s0, xs, e, token);
  }

  /** The prefix can be strict: a stranger's empty datagram makes V1 lose the whole file. */
  lemma V1LosesFile(token: seq<byte>)
    ensures var me, other, t := V4(1, 1), V4(2, 2), TimeVal(0, 0);
            var xs := [Datagram(other, [], t, true), Datagram(me, [65], t, true), Datagram(me, [], t, true)];
            && Run(V2, Begin(me, t), xs, token) == State(Done, [65], 1)
            && Run(V1, Begin(me, t), xs, token) == State(Done, [], 0)
  {
    var me, other, t := V4(1, 1), V4(2, 2), TimeVal(0, 0);
    var a, b, c := Datagram(other, [], t, true), Datagram(me, [65], t, true), Datagram(me, [], t, true);
    assert [a, b, c] == [] + [a] + [b] + [c];
    forall v: Version
      ensures Run(v, Begin(me, t), [a, b, c], token) ==
              Step(v, Step(v, Step(v, Begin(me, t), a, token), b, token), c, token)
    {
      RunNext(v, Begin(me, t), [], a, token);
      RunNext(v, Begin(me, t), [] + [a], b, token);
      RunNext(v, Begin(me, t), [] + [a] + [b], c, token);
    }
  }

  /** recvfrom with its ten-second timeout, and no EINTR: each return comes at most ten seconds after the
      one before. */
  predicate Paced(from: TimeVal, xs: seq<Arrival>) {
    forall k | 0 <= k < |xs| ::
      && !(xs[k].RecvFault? && xs[k].errno == EINTR)
      && 0 <= Micros(xs[k].at) - Micros(if k == 0 then from else xs[k - 1].at) <= IDLE_LIMIT * MILLION
  }

  lemma RunNothing(s: State, token: seq<byte>)
    ensures Run(V2, s, [], token) == s
  {
  }

  /** A peer that falls silent ends the run within twenty seconds, whatever strangers send. */
  lemma SilenceEndsRun(s: State, xs: seq<Arrival>, token: seq<byte>) returns (k: nat)
    requires s.phase.Receiving? && Paced(s.phase.last, xs) && xs != []
    requires forall a | a in xs :: !IsOwn(s.phase.peer, a)
    requires Micros(xs[|xs| - 1].at) - Micros(s.phase.last) >= IDLE_LIMIT * MILLION
    ensures k < |xs| && Micros(xs[k].at) - Micros(s.phase.last) < 2 * IDLE_LIMIT * MILLION
    ensures Run(V2, s, xs[..k], token) == s && Run(V2, s, xs[..k + 1], token).phase.Failed?
  {
    hide Run;
    RunNothing(s, token);
    assert xs[..0] == [];
    k := 0;
    while true
      invariant k < |xs| && Run(V2, s, xs[..k], token) == s
      invariant k > 0 ==> 0 <= Micros(xs[k - 1].at) - Micros(s.phase.last) < IDLE_LIMIT * MILLION
      decreases |xs| - k
    {
      assert xs[..k + 1] == xs[..k] + [xs[k]];
      RunNext(V2, s, xs[..k], xs[k], token);
      assert xs[k] in xs;
      if Run(V2, s, xs[..k + 1], token).phase.Failed? {
        return;
      }
      k := k + 1;
    }
  }
}
