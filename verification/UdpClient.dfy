/** The UDP client: token, file in chunks, repeated end of file. */
module UdpClient {
  import opened Bytes
  import opened UdpToken

  const EOF_REPEAT := 3

  datatype OsReply = Count(n: nat) | Interrupted | Failure

  datatype ReadResult = ReadBytes(n: nat) | ReadInterrupted | ReadError

  /** The reply that decides a call which is retried while it is interrupted, and what is left after it. */
  function Decider(rs: seq<OsReply>): OsReply {
    if rs == [] then Failure else if rs[0].Interrupted? then Decider(rs[1..]) else rs[0]
  }

  function AfterCall(rs: seq<OsReply>): (left: seq<OsReply>)
    ensures |left| <= |rs|
  {
    if rs == [] then [] else if rs[0].Interrupted? then AfterCall(rs[1..]) else rs[1..]
  }

  /** How much of `room` bytes a read that may be short hands over. */
  function Portion(want: nat, room: nat): (n: nat)
    ensures n <= room && (n == 0 <==> room == 0)
  {
    if want > room then room else if want == 0 && room > 0 then 1 else want
  }

  /** What the replies make of reading and sending `rest`: is everything sent, the datagrams that are, and
      the replies left. The reads stop at the end of the file, the first failure of either call ends it. */
  function Chunking(rs: seq<OsReply>, rest: seq<byte>): (bool, seq<seq<byte>>, seq<OsReply>)
    decreases |rs|
  {
    if rs == [] then (false, [], [])
    else
      match rs[0]
      case Interrupted => Chunking(rs[1..], rest)
      case Failure => (false, [], rs[1..])
      case Count(want) =>
        var n := Portion(want, Smaller(|rest|, BUFFERT));
        if n == 0 then (true, [], rs[1..])
        else if !Decider(rs[1..]).Count? then (false, [], AfterCall(rs[1..]))
        else
          var (ok, chunks, left) := Chunking(AfterCall(rs[1..]), rest[n..]);
          (ok, [rest[..n]] + chunks, left)
  }

  /** The same after `chunks` have been sent already. */
  function Onto(chunks: seq<seq<byte>>, r: (bool, seq<seq<byte>>, seq<OsReply>)): (bool, seq<seq<byte>>, seq<OsReply>) {
    (r.0, chunks + r.1, r.2)
  }

  lemma OntoFacts(chunks: seq<seq<byte>>, c: seq<byte>, r: (bool, seq<seq<byte>>, seq<OsReply>))
    ensures Onto([], r) == r
    ensures Onto(chunks, (r.0, [c] + r.1, r.2)) == Onto(chunks + [c], r)
    ensures r.1 == [] ==> Onto(chunks, r) == (r.0, chunks, r.2)
  {
    assert [] + r.1 == r.1 && chunks + [] == chunks;
    assert chunks + ([c] + r.1) == (chunks + [c]) + r.1;
  }

  /** The next reply decides how it goes on. */
  lemma ChunkingNow(chunks: seq<seq<byte>>, rs: seq<OsReply>, rest: seq<byte>)
    ensures var now := Onto(chunks, Chunking(rs, rest));
            if rs == [] then now == (false, chunks, [])
            else
              match rs[0]
              case Interrupted => now == Onto(chunks, Chunking(rs[1..], rest))
              case Failure => now == (false, chunks, rs[1..])
              case Count(want) =>
                var n, more := Portion(want, Smaller(|rest|, BUFFERT)), rs[1..];
                if n == 0 then now == (true, chunks, more)
                else if !Decider(more).Count? then now == (false, chunks, AfterCall(more))
                else now == Onto(chunks + [rest[..n]], Chunking(AfterCall(more), rest[n..]))
  {
    hide Decider, AfterCall;
    OntoFacts(chunks, [], Chunking(rs, rest));
    if rs != [] && rs[0].Count? {
      var n := Portion(rs[0].n, Smaller(|rest|, BUFFERT));
      OntoFacts(chunks, rest[..n], Chunking(AfterCall(rs[1..]), rest[n..]));
    }
  }

  /** Without failures a call fails only when the replies run out. */
  lemma {:induction false} CallFails(rs: seq<OsReply>)
    requires Failure !in rs
    ensures Failure !in AfterCall(rs) && (Decider(rs).Count? || AfterCall(rs) == [])
  {
    if rs != [] && rs[0].Interrupted? {
      CallFails(rs[1..]);
    }
  }

  lemma {:induction false} ChunkingFails(rs: seq<OsReply>, rest: seq<byte>)
    requires Failure !in rs
    ensures var (ok, chunks, left) := Chunking(rs, rest); Failure !in left && (ok || left == [])
    decreases |rs|
  {
    hide Decider, AfterCall;
    if rs != [] {
      var more := rs[1..];
      if rs[0].Interrupted? {
        ChunkingFails(more, rest);
      } else {
        CallFails(more);
        ChunkingFails(AfterCall(more), rest[Portion(rs[0].n, Smaller(|rest|, BUFFERT))..]);
      }
    }
  }

  function Smaller(a: nat, b: nat): nat {
    if a < b then a else b
  }

  /** How many of `n` datagrams in a row are sent. */
  function Repeats(rs: seq<OsReply>, n: nat): nat
    decreases n
  {
    if n == 0 || !Decider(rs).Count? then 0 else 1 + Repeats(AfterCall(rs), n - 1)
  }

  /** What the client does from its token check on: its exit status, and what it puts on the wire. */
  function Outcome(env: Option<seq<byte>>, file: seq<byte>, rs: seq<OsReply>): (nat, seq<seq<byte>>) {
    if env.None? || !ValidToken(env.value) || !Decider(rs).Count? then (1, [])
    else
      var (ok, chunks, left) := Chunking(AfterCall(rs), file);
      if !ok then (1, [env.value] + chunks)
      else (0, [env.value] + chunks + Eofs(Repeats(left, EOF_REPEAT)))
  }

  function Eofs(n: nat): seq<seq<byte>> {
    seq(n, _ => [])
  }

  // ----- interruptions -----

  /** The replies but for the interruptions. */
  function Quiet(rs: seq<OsReply>): seq<OsReply> {
    if rs == [] then [] else (if rs[0].Interrupted? then [] else [rs[0]]) + Quiet(rs[1..])
  }

  lemma {:induction false} QuietConcat(a: seq<OsReply>, b: seq<OsReply>)
    ensures Quiet(a + b) == Quiet(a) + Quiet(b)
  {
    if a == [] {
      assert a + b == b;
    } else {
      assert (a + b)[1..] == a[1..] + b;
      QuietConcat(a[1..], b);
    }
  }

  lemma {:induction false} CallQuietly(rs: seq<OsReply>)
    ensures Decider(Quiet(rs)) == Decider(rs)
    ensures AfterCall(Quiet(rs)) == Quiet(AfterCall(rs))
  {
    if rs != [] {
      if rs[0].Interrupted? {
        CallQuietly(rs[1..]);
        assert [] + Quiet(rs[1..]) == Quiet(rs[1..]);
      } else {
        assert Quiet(rs)[1..] == Quiet(rs[1..]);
      }
    }
  }

  lemma {:induction false} ChunkQuietly(rs: seq<OsReply>, rest: seq<byte>)
    ensures var (ok, chunks, left) := Chunking(rs, rest); Chunking(Quiet(rs), rest) == (ok, chunks, Quiet(left))
    decreases |rs|
  {
    hide Decider, AfterCall;
    if rs != [] {
      var more := rs[1..];
      if rs[0].Interrupted? {
        ChunkQuietly(more, rest);
        assert [] + Quiet(more) == Quiet(more);
      } else {
        assert Quiet(rs) == [rs[0]] + Quiet(more) && Quiet(rs)[1..] == Quiet(more);
        if rs[0].Count? {
          var n := Portion(rs[0].n, Smaller(|rest|, BUFFERT));
          CallQuietly(more);
          ChunkQuietly(AfterCall(more), rest[n..]);
        }
      }
    }
  }

  lemma {:induction false} RepeatQuietly(rs: seq<OsReply>, n: nat)
    ensures Repeats(Quiet(rs), n) == Repeats(rs, n)
    decreases n
  {
    CallQuietly(rs);
    if n > 0 {
      RepeatQuietly(AfterCall(rs), n - 1);
    }
  }

  lemma OutcomeQuietly(env: Option<seq<byte>>, file: seq<byte>, rs: seq<OsReply>)
    ensures Outcome(env, file, Quiet(rs)) == Outcome(env, file, rs)
  {
    hide Quiet, Decider, AfterCall, Chunking, Repeats, ValidToken;
    CallQuietly(rs);
    ChunkQuietly(AfterCall(rs), file);
    RepeatQuietly(Chunking(AfterCall(rs), file).2, EOF_REPEAT);
  }

  /** An interruption anywhere, of a read or of a sendto, changes neither the status nor the wire. */
  lemma InterruptionIgnored(env: Option<seq<byte>>, file: seq<byte>, a: seq<OsReply>, b: seq<OsReply>)
    ensures Outcome(env, file, a + [Interrupted] + b) == Outcome(env, file, a + b)
  {
    hide Outcome;
    QuietConcat(a, b);
    QuietConcat(a + [Interrupted], b);
    QuietConcat(a, [Interrupted]);
    assert Quiet([Interrupted]) == [];
    assert Quiet(a) + [] == Quiet(a);
    OutcomeQuietly(env, file, a + [Interrupted] + b);
    OutcomeQuietly(env, file, a + b);
  }

  /** The client's host: the file it reads, and the datagrams it has sent. Replies decide on short
      reads, EINTR and failures; when they have run out, every call fails. */
  class Host {
    var replies: seq<OsReply>
    const file: seq<byte>
    var pos: nat
    var wire: seq<seq<byte>>
    var faults: nat  // failed calls

    constructor (file: seq<byte>, replies: seq<OsReply>)
      ensures this.file == file && pos == 0 && wire == [] && faults == 0 && this.replies == replies
    {
      this.file, this.replies, pos, wire, faults := file, replies, 0, [], 0;
    }

    method Next() returns (r: OsReply)
      modifies this`replies
      ensures if old(replies) == [] then r == Failure && replies == [] else [r] + replies == old(replies)
    {
      if replies == [] {
        return Failure;
      }
      r := replies[0];
      replies := replies[1..];
    }

    /** read: zero bytes exactly at the end of the file, else between one and as many as fit. */
    method Read(buf: array<byte>) returns (r: ReadResult)
      requires pos <= |file| && buf.Length > 0
      modifies this`replies, this`pos, this`faults, buf
      ensures pos <= |file|
      ensures r.ReadError? <==> old(replies) == [] || old(replies)[0].Failure?
      ensures r.ReadInterrupted? <==> old(replies) != [] && old(replies)[0].Interrupted?
      ensures r.ReadBytes? ==> r.n == old(Portion(replies[0].n, Smaller(|file| - pos, buf.Length)))
      ensures replies == if old(replies) == [] then [] else old(replies)[1..]
      ensures r.ReadBytes? ==> r.n <= buf.Length && pos == old(pos) + r.n && buf[..r.n] == file[old(pos)..pos]
      ensures r.ReadBytes? ==> (r.n == 0 <==> old(pos) == |file|)
      ensures !r.ReadBytes? ==> pos == old(pos)
      ensures faults == old(faults) + (if r.ReadError? then 1 else 0)
    {
      var reply := Next();
      match reply
      case Interrupted => r := ReadInterrupted;
      case Failure =>
        faults := faults + 1;
        r := ReadError;
      case Count(want) =>
        var n := Portion(want, Smaller(|file| - pos, buf.Length));
        forall k | 0 <= k < n {
          buf[k] := file[pos + k];
        }
        assert forall k | 0 <= k < n :: buf[..n][k] == buf[k] == file[pos..pos + n][k];
        assert buf[..n] == file[pos..pos + n];
        pos := pos + n;
        r := ReadBytes(n);
    }

    /** sendto, retried while it is interrupted, `retries` times: the first other reply decides. */
    method SendDatagram(data: array<byte>, len: nat) returns (ok: bool, ghost retries: nat)
      requires len <= data.Length
      modifies this`replies, this`wire, this`faults
      ensures ok <==> Decider(old(replies)).Count?
      ensures replies == AfterCall(old(replies))
      ensures wire == if ok then old(wire) + [data[..len]] else old(wire)
      ensures faults == old(faults) + (if ok then 0 else 1)
      ensures retries <= |old(replies)| && forall k | 0 <= k < retries :: old(replies)[k].Interrupted?
      ensures if retries == |old(replies)| then !ok && replies == []
              else !old(replies)[retries].Interrupted? && ok == old(replies)[retries].Count? &&
                   replies == old(replies)[retries + 1..]
    {
      var reply := Next();
      retries := 0;
      while reply.Interrupted?
        invariant retries <= |old(replies)| && forall k | 0 <= k < retries :: old(replies)[k].Interrupted?
        invariant if retries == |old(replies)| then reply == Failure && replies == []
                  else reply == old(replies)[retries] && replies == old(replies)[retries + 1..]
        invariant wire == old(wire) && faults == old(faults)
        invariant if reply.Interrupted?
                  then Decider(replies) == Decider(old(replies)) && AfterCall(replies) == AfterCall(old(replies))
                  else reply == Decider(old(replies)) && replies == AfterCall(old(replies))
        decreases |replies|, reply.Interrupted?
      {
        reply := Next();
        retries := retries + 1;
      }
      ok := reply.Count?;
      if ok {
        wire := wire + [data[..len]];
      } else {
        faults := faults + 1;
      }
    }
  }

  /** The file in datagrams: none empty, none too long for the server. */
  predicate ChunksOf(chunks: seq<seq<byte>>, file: seq<byte>) {
    Flatten(chunks) == file && forall c | c in chunks :: 1 <= |c| <= BUFFERT
  }

  lemma NoChunks(file: seq<byte>)
    ensures ChunksOf([], file[..0])
  {
  }

  lemma ChunkAdded(chunks: seq<seq<byte>>, c: seq<byte>, file: seq<byte>, from: nat, to: nat)
    requires from < to <= |file| && to - from <= BUFFERT
    requires ChunksOf(chunks, file[..from]) && c == file[from..to]
    ensures ChunksOf(chunks + [c], file[..to])
  {
    FlattenConcat(chunks, [c]);
    FlattenOne(c);
    assert file[..to] == file[..from] + file[from..to];
  }

  /**
   The client from its token check on. With exit status 0 the wire carries the token, the whole file
   in chunks, and three end-of-file datagrams, or fewer if sending one of them failed, even none: the
   status does not tell. Otherwise it carries nothing, or the token and the first `done` bytes.
   */
  method SendFile(h: Host, env: Option<seq<byte>>)
      returns (status: nat, ghost chunks: seq<seq<byte>>, ghost done: nat, ghost eofs: nat)
    requires h.pos == 0 && h.wire == []
    modifies h
    ensures env.None? || !ValidToken(env.value) ==> status == 1 && h.wire == []
    ensures env.Some? && ValidToken(env.value) && h.faults == old(h.faults) ==> status == 0 && eofs == EOF_REPEAT
    ensures h.wire != [] ==> env.Some? && h.wire == [env.value] + chunks + Eofs(eofs)
    ensures done <= |h.file| && ChunksOf(chunks, h.file[..done])
    ensures status == 0 ==> h.wire != [] && done == |h.file|
    ensures status == 0 ==> eofs <= EOF_REPEAT && (eofs < EOF_REPEAT <==> h.faults > old(h.faults))
    ensures status == 1 ==> eofs == 0
    ensures status <= 1
    ensures (status, h.wire) == Outcome(env, h.file, old(h.replies))
    ensures env.Some? && ValidToken(env.value) && Failure !in old(h.replies) && h.replies != [] ==>
              status == 0 && eofs == 3
    ensures env.Some? && ValidToken(env.value) ==>
              var rs := old(h.replies); var (ok, sent, left) := Chunking(AfterCall(rs), h.file);
              && (status == 0 <==> Decider(rs).Count? && ok)
              && (status == 0 ==> eofs == Repeats(left, EOF_REPEAT) && (eofs == 0 <==> !Decider(left).Count?))
  {
    hide ChunksOf, ValidToken, Chunking, Repeats, Decider, AfterCall;
    NoChunks(h.file);
    chunks, done, eofs := [], 0, 0;
    if env.None? {
      return 1, [], 0, 0;
    }
    var token := ArrayOf(env.value);
    assert token[..token.Length] == env.value;
    var valid := IsValidToken(token, token.Length);
    if !valid {
      return 1, [], 0, 0;
    }
    var ok, retries := h.SendDatagram(token, token.Length);
    if !ok {
      return 1, [], 0, 0;
    }
    assert h.wire == [env.value];
    if Failure !in old(h.replies) {
      CallFails(old(h.replies));
      ChunkingFails(h.replies, h.file);
    }
    ok, chunks, done := SendChunks(h);
    if !ok {
      assert Eofs(0) == [];
      return 1, chunks, done, 0;
    }
    eofs := SendEofs(h);
    return 0, chunks, done, eofs;
  }

  /** Phase 2: the file, as its reads cut it. */
  method SendChunks(h: Host) returns (ok: bool, ghost chunks: seq<seq<byte>>, ghost done: nat)
    requires h.pos == 0
    modifies h`replies, h`pos, h`wire, h`faults
    ensures h.wire == old(h.wire) + chunks
    ensures done <= |h.file| && ChunksOf(chunks, h.file[..done])
    ensures ok ==> done == |h.file|
    ensures h.faults == old(h.faults) + (if ok then 0 else 1)
    ensures (ok, chunks, h.replies) == Chunking(old(h.replies), h.file)
  {
    hide ChunksOf, Chunking, Onto, Decider, AfterCall;
    NoChunks(h.file);
    chunks, done := [], 0;
    var buf := new byte[BUFFERT];
    assert h.file[0..] == h.file;
    OntoFacts([], [], Chunking(h.replies, h.file));
    var n := ReadInterrupted;
    while n != ReadBytes(0)
      invariant h.pos == done <= |h.file| && ChunksOf(chunks, h.file[..done])
      invariant n == ReadBytes(0) ==> done == |h.file|
      invariant h.wire == old(h.wire) + chunks && h.faults == old(h.faults)
      invariant Chunking(old(h.replies), h.file) ==
                if n == ReadBytes(0) then (true, chunks, h.replies)
                else Onto(chunks, Chunking(h.replies, h.file[done..]))
      decreases |h.replies|, n != ReadBytes(0)
    {
      ghost var rs, rest := h.replies, h.file[done..];
      ChunkingNow(chunks, rs, rest);
      n := h.Read(buf);
      match n
      case ReadInterrupted =>
      case ReadError =>
        return false, chunks, done;
      case ReadBytes(len) =>
        if len > 0 {
          ghost var chunk := buf[..len];
          assert chunk == rest[..len] && rest[len..] == h.file[h.pos..];
          ghost var retries;
          ok, retries := h.SendDatagram(buf, len);
          if !ok {
            return false, chunks, done;
          }
          ChunkAdded(chunks, chunk, h.file, done, h.pos);
          chunks, done := chunks + [chunk], h.pos;
        }
    }
    ok := true;
  }

  /** Phase 3: the end of the file, three times unless sending fails. */
  method SendEofs(h: Host) returns (ghost eofs: nat)
    modifies h`replies, h`wire, h`faults
    ensures h.wire == old(h.wire) + Eofs(eofs)
    ensures eofs <= EOF_REPEAT && (eofs < EOF_REPEAT <==> h.faults > old(h.faults))
    ensures eofs == Repeats(old(h.replies), EOF_REPEAT) && (eofs == 0 <==> !Decider(old(h.replies)).Count?)
    ensures Failure !in old(h.replies) && eofs < EOF_REPEAT ==> h.replies == []
  {
    hide Decider, AfterCall;
    var buf := new byte[BUFFERT];
    var i := 0;
    eofs := 0;
    while i < EOF_REPEAT
      invariant 0 <= i == eofs <= EOF_REPEAT
      invariant h.wire == old(h.wire) + Eofs(eofs) && h.faults == old(h.faults)
      invariant Failure !in old(h.replies) ==> Failure !in h.replies
      invariant Repeats(old(h.replies), EOF_REPEAT) == eofs + Repeats(h.replies, EOF_REPEAT - eofs)
      invariant eofs == 0 ==> h.replies == old(h.replies)
      invariant eofs > 0 ==> Decider(old(h.replies)).Count?
    {
      if Failure !in h.replies {
        CallFails(h.replies);
      }
      var ok, retries := h.SendDatagram(buf, 0);
      if !ok {
        break;
      }
      assert Eofs(eofs + 1) == Eofs(eofs) + [buf[..0]];
      i, eofs := i + 1, eofs + 1;
    }
  }

  method ArrayOf(s: seq<byte>) returns (a: array<byte>)
    ensures fresh(a) && a[..] == s && a.Length == |s|
  {
    a := new byte[|s|](k requires 0 <= k < |s| => s[k]);
  }

  /** Full reads and successful sends of `left` bytes, then the read that finds the end, and nothing more. */
  function JustEnough(left: nat): seq<OsReply> {
    if left == 0 then [Count(0)] else [Count(BUFFERT), Count(0)] + JustEnough(left - Smaller(left, BUFFERT))
  }

  lemma {:induction false} ChunkingJustEnough(rest: seq<byte>) returns (chunks: seq<seq<byte>>)
    ensures Chunking(JustEnough(|rest|), rest) == (true, chunks, [])
    decreases |rest|
  {
    if rest != [] {
      var n := Smaller(|rest|, BUFFERT);
      var more, rs := JustEnough(|rest| - n), JustEnough(|rest|);
      assert rs[1..] == [Count(0)] + more && rs[1..][1..] == more;
      chunks := ChunkingJustEnough(rest[n..]);
      chunks := [rest[..n]] + chunks;
    } else {
      assert JustEnough(0)[1..] == [];
      chunks := [];
    }
  }

  /** For every file there is a run with exit status 0 in which the whole file is sent and no end of file is. */
  method StatusWithoutEnd(token: seq<byte>, file: seq<byte>) returns (status: nat, wire: seq<seq<byte>>)
    requires ValidToken(token)
    ensures status == 0 && [] !in wire
    ensures wire != [] && wire[0] == token && ChunksOf(wire[1..], file)
  {
    hide ValidToken, Chunking;
    var rs := [Count(0)] + JustEnough(|file|);
    var h := new Host(file, rs);
    assert Decider(rs) == Count(0) && AfterCall(rs) == JustEnough(|file|);
    ghost var spelt := ChunkingJustEnough(file);
    ghost var chunks, done, eofs;
    status, chunks, done, eofs := SendFile(h, Some(token));
    assert file[..|file|] == file && Eofs(0) == [];
    wire := h.wire;
    assert wire == [token] + chunks && wire[1..] == chunks;
    TokenNotEmpty(token);
  }

  lemma TokenNotEmpty(token: seq<byte>)
    requires ValidToken(token)
    ensures token != []
  {
  }
}
