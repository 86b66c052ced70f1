/**
 The UDP file servers, V1 and V2, as state machines over what recvfrom returns, and the loops of the
 programs that implement them.
 */
module UdpServer {
  import opened Bytes
  import opened Clock
  import opened UdpToken

  const MAX_FILE_BYTES: nat := 100 * 1024 * 1024

  datatype Errno = EINTR | EAGAIN | OtherErrno

  /** One return of recvfrom, with what gettimeofday says when it is processed and whether the open or
      the write that it may lead to succeeds. A successful write writes everything. */
  datatype Arrival =
    | Datagram(from: Addr, payload: seq<byte>, at: TimeVal, fileOk: bool)
    | RecvFault(errno: Errno, at: TimeVal)

  datatype Why = ReceiveError | OpenError | Idle | TooLarge | WriteError

  datatype Phase =
    | Waiting
    | Receiving(peer: Addr, last: TimeVal)
    | Done
    | Failed(why: Why)

  datatype State = State(phase: Phase, file: seq<byte>, count: nat)

  datatype Version = V1 | V2

  const START := State(Waiting, [], 0)

  function TokenStep(s: State, a: Arrival, token: seq<byte>): State {
    match a
    case RecvFault(e, _) => if e == EINTR then s else s.(phase := Failed(ReceiveError))
    case Datagram(from, payload, at, fileOk) =>
      if !TokenAccepted(from, payload, token) then s
      else if !fileOk then s.(phase := Failed(OpenError))
      else State(Receiving(from, at), [], 0)
  }

  function Step2(s: State, a: Arrival): State
    requires s.phase.Receiving?
  {
    match a
    case RecvFault(e, _) => if e == EINTR then s else s.(phase := Failed(ReceiveError))
    case Datagram(from, payload, at, fileOk) =>
      var data := Cut(payload, BUFFERT);
      if !Recent(s.phase.last, at) then s.(phase := Failed(Idle))
      else if !SameClient(from, s.phase.peer) then s
      else if data == [] then s.(phase := Done)
      else if s.count + |data| > MAX_FILE_BYTES then s.(phase := Failed(TooLarge))
      else if !fileOk then State(Failed(WriteError), s.file, s.count + |data|)
      else State(Receiving(s.phase.peer, at), s.file + data, s.count + |data|)
  }

  /** V1 tests for the empty datagram before anything else, has no size limit and ignores write errors. */
  function Step1(s: State, a: Arrival): State
    requires s.phase.Receiving?
  {
    match a
    case RecvFault(e, _) => if e == EINTR then s else s.(phase := Failed(ReceiveError))
    case Datagram(from, payload, at, fileOk) =>
      var data := Cut(payload, BUFFERT);
      if data == [] then s.(phase := Done)
      else if !Recent(s.phase.last, at) then s.(phase := Failed(Idle))
      else if !SameClient(from, s.phase.peer) then s
      else State(Receiving(s.phase.peer, at), s.file + (if fileOk then data else []), s.count + |data|)
  }

  function Step(v: Version, s: State, a: Arrival, token: seq<byte>): State {
    match s.phase
    case Waiting => TokenStep(s, a, token)
    case Receiving(_, _) => if v == V1 then Step1(s, a) else Step2(s, a)
    case Done => s
    case Failed(_) => s
  }

  /** The state after all of `xs`, whatever they are. */
  function Run(v: Version, s: State, xs: seq<Arrival>, token: seq<byte>): State {
    if xs == [] then s else Step(v, Run(v, s, xs[..|xs| - 1], token), xs[|xs| - 1], token)
  }

  lemma RunNext(v: Version, s: State, xs: seq<Arrival>, a: Arrival, token: seq<byte>)
    ensures Run(v, s, xs + [a], token) == Step(v, Run(v, s, xs, token), a, token)
  {
    assert (xs + [a])[..|xs|] == xs;
  }

  lemma NothingRun(token: seq<byte>)
    ensures Run(V1, START, [], token) == Run(V2, START, [], token) == START
  {
  }

  lemma {:induction false} RunConcat(v: Version, s: State, a: seq<Arrival>, b: seq<Arrival>, token: seq<byte>)
    ensures Run(v, s, a + b, token) == Run(v, Run(v, s, a, token), b, token)
    decreases |b|
  {
    if b == [] {
      assert a + b == a;
    } else {
      var n := |b| - 1;
      assert (a + b)[..|a + b| - 1] == a + b[..n];
      RunConcat(v, s, a, b[..n], token);
    }
  }

  datatype Reply = Blocked | Error(errno: Errno) | Got(n: nat, clt: Addr)

  /** The host of a server: the socket's future, the clock, and the output file. */
  class Host {
    var future: seq<Arrival>
    var current: Arrival
    var file: seq<byte>
    ghost var past: seq<Arrival>

    constructor (future: seq<Arrival>)
      ensures this.future == future && file == [] && past == []
    {
      this.future, file, past := future, [], [];
      current := RecvFault(EINTR, TimeVal(0, 0));
    }

    /** At most `want` bytes of the next datagram; the rest of it is lost. Blocked: nothing ever comes. */
    method RecvFrom(buf: array<byte>, want: nat) returns (r: Reply)
      requires want <= buf.Length
      modifies this`future, this`current, this`past, buf
      ensures r.Blocked? <==> old(future) == []
      ensures r.Blocked? ==> past == old(past) && future == old(future)
      ensures !r.Blocked? ==> old(future) == [current] + future && past == old(past) + [current]
      ensures r.Error? <==> !r.Blocked? && current.RecvFault?
      ensures r.Error? ==> r.errno == current.errno
      ensures r.Got? ==> r.n <= want && buf[..r.n] == Cut(current.payload, want) && r.clt == current.from
      ensures r.Got? ==> forall k | r.n <= k < buf.Length :: buf[k] == old(buf[k])
    {
      if future == [] {
        return Blocked;
      }
      current := future[0];
      future := future[1..];
      past := past + [current];
      if current.RecvFault? {
        return Error(current.errno);
      }
      var data := Cut(current.payload, want);
      forall k | 0 <= k < |data| {
        buf[k] := data[k];
      }
      assert buf[..|data|] == data;
      r := Got(|data|, current.from);
    }

    method GetTimeOfDay() returns (now: TimeVal)
      ensures now == current.at
    {
      now := current.at;
    }

    method Open() returns (ok: bool)
      modifies this`file
      ensures ok == (current.Datagram? && current.fileOk)
      ensures file == if ok then [] else old(file)
    {
      ok := current.Datagram? && current.fileOk;
      if ok {
        file := [];
      }
    }

    method Write(buf: array<byte>, n: nat) returns (ok: bool)
      requires n <= buf.Length
      modifies this`file
      ensures ok == (current.Datagram? && current.fileOk)
      ensures file == if ok then old(file) + buf[..n] else old(file)
    {
      ok := current.Datagram? && current.fileOk;
      if ok {
        file := file + buf[..n];
      }
    }
  }

  /** The authentication loop of both servers, up to the creation of the output file. */
  method AwaitToken(h: Host, token: seq<byte>) returns (phase: Phase)
    requires ValidToken(token) && h.past == [] && h.file == []
    modifies h
    ensures old(h.future) == h.past + h.future
    ensures Run(V1, START, h.past, token) == Run(V2, START, h.past, token) == State(phase, [], 0)
    ensures h.file == [] && !phase.Done?
    ensures phase.Waiting? ==> h.future == []
  {
    hide Run, TokenAccepted;
    NothingRun(token);
    var buf := new byte[BUFFERT];
    while true
      invariant h.file == [] && old(h.future) == h.past + h.future
      invariant Run(V1, START, h.past, token) == Run(V2, START, h.past, token) == START
      decreases |h.future|
    {
      ghost var before := h.past;
      forall k | 0 <= k < BUFFERT {
        buf[k] := 0;
      }
      var r := h.RecvFrom(buf, BUFFERT - 1);
      match r
      case Blocked =>
        return Waiting;
      case Error(e) =>
        RunNext(V1, START, before, h.current, token);
        RunNext(V2, START, before, h.current, token);
        if e != EINTR {
          return Failed(ReceiveError);
        }
      case Got(n, clt) =>
        RunNext(V1, START, before, h.current, token);
        RunNext(V2, START, before, h.current, token);
        var accepted := CheckDatagram(clt, buf, n, h.current.payload, token);
        if accepted {
          var created := h.Open();
          if !created {
            return Failed(OpenError);
          }
          var start := h.GetTimeOfDay();
          return Receiving(clt, start);
        }
    }
  }

  /** V2's transfer loop: error, clock, sender, end of file, size, write, in that order. */
  method Transfer2(h: Host, peer: Addr, start: TimeVal, ghost token: seq<byte>) returns (phase: Phase, count: nat)
    requires Run(V2, START, h.past, token) == State(Receiving(peer, start), [], 0) && h.file == []
    modifies h
    ensures old(h.past + h.future) == h.past + h.future
    ensures Run(V2, START, h.past, token) == State(phase, h.file, count)
    ensures !phase.Waiting? && (phase.Receiving? ==> h.future == [])
  {
    hide Run, Recent;
    var buf := new byte[BUFFERT];
    var last := start;
    count := 0;
    while true
      invariant old(h.past + h.future) == h.past + h.future
      invariant Run(V2, START, h.past, token) == State(Receiving(peer, last), h.file, count)
      decreases |h.future|
    {
      ghost var before := h.past;
      var r := h.RecvFrom(buf, BUFFERT);
      if r.Blocked? {
        return Receiving(peer, last), count;
      }
      RunNext(V2, START, before, h.current, token);
      var now := h.GetTimeOfDay();
      if r.Error? {
        if r.errno == EINTR {
          continue;
        }
        return Failed(ReceiveError), count;
      }
      var rc, delta := Duration(last, now);
      if rc == -1 || delta.sec >= IDLE_LIMIT {
        return Failed(Idle), count;
      }
      if !SameClient(r.clt, peer) {
        continue;
      }
      if r.n == 0 {
        return Done, count;
      }
      last := now;
      if count + r.n > MAX_FILE_BYTES {
        return Failed(TooLarge), count;
      }
      count := count + r.n;
      var ok := h.Write(buf, r.n);
      if !ok {
        return Failed(WriteError), count;
      }
    }
  }

  /** V1's transfer loop. */
  method Transfer1(h: Host, peer: Addr, start: TimeVal, ghost token: seq<byte>) returns (phase: Phase, count: nat)
    requires Run(V1, START, h.past, token) == State(Receiving(peer, start), [], 0) && h.file == []
    modifies h
    ensures old(h.past + h.future) == h.past + h.future
    ensures Run(V1, START, h.past, token) == State(phase, h.file, count)
    ensures !phase.Waiting? && (phase.Receiving? ==> h.future == [])
  {
    hide Run, Recent;
    var buf := new byte[BUFFERT];
    var last := start;
    count := 0;
    while true
      invariant old(h.past + h.future) == h.past + h.future
      invariant Run(V1, START, h.past, token) == State(Receiving(peer, last), h.file, count)
      decreases |h.future|
    {
      ghost var before := h.past;
      var r := h.RecvFrom(buf, BUFFERT);
      if r.Blocked? {
        return Receiving(peer, last), count;
      }
      RunNext(V1, START, before, h.current, token);
      if r.Got? && r.n == 0 {
        return Done, count;
      }
      var now := h.GetTimeOfDay();
      if r.Error? {
        if r.errno == EINTR {
          continue;
        }
        return Failed(ReceiveError), count;
      }
      var rc, delta := Duration(last, now);
      if rc == -1 || delta.sec >= IDLE_LIMIT {
        return Failed(Idle), count;
      }
      if !SameClient(r.clt, peer) {
        continue;
      }
      last := now;
      count := count + r.n;
      var ok := h.Write(buf, r.n);
      assert !ok ==> h.file == h.file + [];
    }
  }
}
