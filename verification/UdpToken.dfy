/** The token phase of the UDP file servers: which datagram opens the transfer. */
module UdpToken {
  import opened Bytes

  const BUFFERT := 512
  const TOKEN_MIN := 8
  const TOKEN_MAX := 64

  /** A sender. The flow and the scope of an IPv6 address are carried, but the servers ignore them. */
  datatype Addr =
    | V4(port: nat, ip4: nat)
    | V6(port: nat, ip6: seq<byte>, flow: nat, scope: nat)
    | Unknown(family: nat)

  predicate SameClient(a: Addr, b: Addr) {
    match (a, b)
    case (V4(p, x), V4(q, y)) => p == q && x == y
    case (V6(p, x, _, _), V6(q, y, _, _)) => p == q && x == y
    case _ => false
  }

  predicate TokenChar(c: byte) {
    || 48 <= c <= 57 || 65 <= c <= 90 || 97 <= c <= 122
    || c == 95 || c == 45 || c == 46  // '_', '-', '.'
  }

  /** The 65 characters of tokens, one by one: "-", ".", digits, capitals, "_", small letters. */
  predicate InAlphabet(c: byte) {
    c in {
      45, 46, 48, 49, 50, 51, 52, 53, 54, 55, 56, 57,
      65, 66, 67, 68, 69, 70, 71, 72, 73, 74, 75, 76, 77, 78, 79, 80, 81, 82, 83, 84, 85, 86, 87, 88, 89, 90, 95,
      97, 98, 99, 100, 101, 102, 103, 104, 105, 106, 107, 108, 109, 110, 111, 112, 113, 114, 115, 116, 117, 118,
      119, 120, 121, 122}
  }

  lemma TokenChars(c: byte)
    ensures TokenChar(c) <==> InAlphabet(c)
  {
  }

  predicate ValidToken(s: seq<byte>) {
    TOKEN_MIN <= |s| <= TOKEN_MAX && forall c | c in s :: TokenChar(c)
  }

  /** The same sender: a known family, and nothing different but the flow and the scope of an IPv6 address. */
  lemma SameSender(a: Addr, b: Addr)
    ensures SameClient(a, b) <==>
            !a.Unknown? && if a.V6? && b.V6? then a.(flow := 0, scope := 0) == b.(flow := 0, scope := 0) else a == b
    ensures SameClient(a, b) <==> SameClient(b, a)
  {
  }

  /** The datagrams that authenticate their sender. */
  predicate TokenAccepted(from: Addr, payload: seq<byte>, token: seq<byte>) {
    !from.Unknown? && StripEol(Cut(payload, BUFFERT - 1)) == token
  }

  /** strlen of a buffer that holds a terminator. */
  method StrLen(buf: array<byte>) returns (n: nat)
    requires exists k | 0 <= k < buf.Length :: buf[k] == 0
    ensures n < buf.Length && buf[n] == 0
    ensures forall k | 0 <= k < n :: buf[k] != 0
  {
    n := 0;
    while buf[n] != 0
      invariant n < buf.Length
      invariant forall k | 0 <= k < n :: buf[k] != 0
      decreases buf.Length - n
    {
      n := n + 1;
    }
  }

  /** `is_valid_token` on the string in the buffer. */
  method IsValidToken(buf: array<byte>, len: nat) returns (ok: bool)
    requires len <= buf.Length
    ensures ok <==> ValidToken(buf[..len])
    ensures ok <==> 8 <= len <= 64 && forall k | 0 <= k < len :: InAlphabet(buf[k])
  {
    hide TokenChar, InAlphabet;
    forall c: byte
      ensures TokenChar(c) <==> InAlphabet(c)
    {
      TokenChars(c);
    }
    if len < TOKEN_MIN || len > TOKEN_MAX {
      return false;
    }
    var i := 0;
    while i < len
      invariant 0 <= i <= len
      invariant forall k | 0 <= k < i :: TokenChar(buf[k])
    {
      if !TokenChar(buf[i]) {
        assert buf[..len][i] == buf[i];
        return false;
      }
      i := i + 1;
    }
    return true;
  }

  /** Replaces the trailing CR/LF of the `n` received bytes by terminators. */
  method StripInPlace(buf: array<byte>, got: nat) returns (n: nat)
    requires got < buf.Length && forall k | got <= k < buf.Length :: buf[k] == 0
    modifies buf
    ensures n <= got && buf[..n] == StripEol(old(buf[..got]))
    ensures forall k | n <= k < buf.Length :: buf[k] == 0
  {
    ghost var before := buf[..got];
    n := got;
    while n > 0 && IsEol(buf[n - 1])
      invariant 0 <= n <= got
      invariant forall k | 0 <= k < n :: buf[k] == before[k]
      invariant forall k | n <= k < buf.Length :: buf[k] == 0
      invariant forall k | n <= k < got :: IsEol(before[k])
    {
      n := n - 1;
      buf[n] := 0;
    }
    assert buf[..n] == before[..n];
    StripEolUnique(before, before[..n]);
  }

  /**
   The checks on one datagram, of which recvfrom put at most 511 bytes into a zeroed buffer: not empty,
   from a known address family; then, with trailing CR/LF replaced by NULs, no NUL inside, a
   well-formed token, the server's token. Together they accept exactly the datagrams whose first 511
   bytes, without trailing CR/LF, are the server's token.
   */
  method CheckDatagram(from: Addr, buf: array<byte>, got: nat, ghost payload: seq<byte>, token: seq<byte>)
      returns (ok: bool)
    requires ValidToken(token)
    requires got < buf.Length && buf[..got] == Cut(payload, BUFFERT - 1)
    requires forall k | got <= k < buf.Length :: buf[k] == 0
    modifies buf
    ensures ok <==> TokenAccepted(from, payload, token)
    ensures ok <==>
            && !from.Unknown? && token <= payload
            && forall k | |token| <= k < |payload| && k < 511 :: payload[k] == 10 || payload[k] == 13
  {
    AcceptedExactly(from, payload, token);
    if got == 0 || from.Unknown? {
      assert got == 0 ==> Cut(payload, BUFFERT - 1) == [];
      return false;
    }
    ghost var body := StripEol(buf[..got]);
    var n := StripInPlace(buf, got);
    assert buf[n] == 0;
    var len := StrLen(buf);
    if len != n {
      assert len < n && body[len] == buf[len] == 0;
      assert !TokenChar(0);
      return false;
    }
    var valid := IsValidToken(buf, len);
    if !valid {
      return false;
    }
    // strcmp(buf, server_token)
    ok := buf[..len] == token;
  }

  /** Exactly which datagrams authenticate: from a known family, the token and then, up to the cut, nothing
      but line endings. */
  lemma AcceptedExactly(from: Addr, payload: seq<byte>, token: seq<byte>)
    requires ValidToken(token)
    ensures TokenAccepted(from, payload, token) <==>
            && !from.Unknown? && token <= payload
            && forall k | |token| <= k < |payload| && k < 511 :: payload[k] == 10 || payload[k] == 13
  {
    var cut := Cut(payload, BUFFERT - 1);
    assert TokenChar(token[|token| - 1]);
    if token <= payload && forall k | |token| <= k < |payload| && k < BUFFERT - 1 :: IsEol(payload[k]) {
      assert token <= cut;
      StripEolUnique(cut, token);
    }
  }

  /** The cut comes before the stripping: a token padded with line endings up to the cut is accepted
      whatever comes after them. */
  lemma PaddedTokenAccepted(from: Addr, token: seq<byte>, pad: seq<byte>, junk: seq<byte>)
    requires ValidToken(token) && !from.Unknown?
    requires |token + pad| >= BUFFERT - 1 && forall b | b in pad :: IsEol(b)
    ensures TokenAccepted(from, token + pad + junk, token)
  {
    var payload := token + pad + junk;
    forall k | |token| <= k < BUFFERT - 1
      ensures IsEol(payload[k])
    {
      assert payload[k] == pad[k - |token|];
    }
    AcceptedExactly(from, payload, token);
  }
}
