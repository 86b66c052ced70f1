/** The AUTH line of the chat room: `ct_equal` and `check_auth`. */
module Auth {
  import opened Bytes

  // "AUTH "
  const PREFIX: seq<byte> := [65, 85, 84, 72, 32]

  /** What the server accepts as proof of knowing the token. */
  predicate IsAuthLine(s: seq<byte>, token: seq<byte>) {
    StripEol(s) == PREFIX + token
  }

  /** The XOR/OR accumulator is zero exactly when the two ranges are equal. */
  method CtEqual(a: array<byte>, off: nat, b: seq<byte>, n: nat) returns (same: bool)
    requires off + n <= a.Length && n <= |b|
    ensures same <==> a[off..off + n] == b[..n]
  {
    var diff: byte := 0;
    var i := 0;
    while i < n
      invariant 0 <= i <= n
      invariant diff == 0 <==> forall k | 0 <= k < i :: a[off + k] == b[k]
    {
      diff := diff | (a[off + i] ^ b[i]);
      i := i + 1;
    }
    same := diff == 0;
    assert forall k | 0 <= k < n :: a[off..off + n][k] == a[off + k] && b[..n][k] == b[k];
  }

  /** The AUTH lines, byte by byte: the letters of "AUTH", a space, the token, which does not end in LF or
      CR, and then nothing but LF and CR. */
  lemma AuthLineExactly(s: seq<byte>, token: seq<byte>)
    ensures IsAuthLine(s, token) <==>
            && (token != [] ==> token[|token| - 1] != 10 && token[|token| - 1] != 13)
            && [65, 85, 84, 72, 32] + token <= s
            && forall k | 5 + |token| <= k < |s| :: s[k] == 10 || s[k] == 13
  {
    var line := [65, 85, 84, 72, 32] + token;
    assert line[|line| - 1] == if token == [] then 32 else token[|token| - 1];
    if line <= s && !IsEol(line[|line| - 1]) && forall k | |line| <= k < |s| :: IsEol(s[k]) {
      StripEolUnique(s, line);
    }
  }

  /** `check_auth`: true exactly on the AUTH lines for this token, whatever is beyond `len` in the buffer. */
  method CheckAuth(buf: array<byte>, len: nat, token: seq<byte>) returns (ok: bool)
    requires len <= buf.Length
    ensures ok <==> IsAuthLine(buf[..len], token)
    ensures ok <==>
            && (token != [] ==> token[|token| - 1] != 10 && token[|token| - 1] != 13)
            && 5 + |token| <= len && buf[..5] == [65, 85, 84, 72, 32] && buf[5..5 + |token|] == token
            && forall k | 5 + |token| <= k < len :: buf[k] == 10 || buf[k] == 13
  {
    hide StripEol;
    ok := CheckLine(buf, len, token);
    ghost var line: seq<byte> := [65, 85, 84, 72, 32] + token;
    AuthLineExactly(buf[..len], token);
    if 5 + |token| <= len {
      assert buf[..len][..5 + |token|] == buf[..5] + buf[5..5 + |token|];
      assert line[..5] == [65, 85, 84, 72, 32] && line[5..] == token;
      assert line <= buf[..len] <==> buf[..5] + buf[5..5 + |token|] == line;
      assert forall k | 5 + |token| <= k < len :: buf[..len][k] == buf[k];
    }
  }

  method CheckLine(buf: array<byte>, len: nat, token: seq<byte>) returns (ok: bool)
    requires len <= buf.Length
    ensures ok <==> IsAuthLine(buf[..len], token)
  {
    var n := len;
    while n > 0 && IsEol(buf[n - 1])
      invariant 0 <= n <= len
      invariant forall k | n <= k < len :: IsEol(buf[k])
    {
      n := n - 1;
    }
    StripEolUnique(buf[..len], buf[..n]);
    if n != 5 + |token| {
      return false;
    }
    if buf[..5] != PREFIX {
      assert buf[..n][..5] == buf[..5] && (PREFIX + token)[..5] == PREFIX;
      return false;
    }
    ok := CtEqual(buf, 5, token, |token|);
    assert buf[..n] == buf[..5] + buf[5..n];
    assert buf[..n][5..] == buf[5..n] && (PREFIX + token)[5..] == token;
  }

  /** A client can be let in at all exactly when the token does not itself end in CR or LF. */
  lemma AuthPossible(token: seq<byte>)
    requires token != []
    ensures (exists s :: IsAuthLine(s, token)) <==> !IsEol(token[|token| - 1])
  {
    if !IsEol(token[|token| - 1]) {
      PaddedLineAccepted(token, []);
    }
  }

  /** For such a token, every padding by line endings is accepted ... */
  lemma PaddedLineAccepted(token: seq<byte>, pad: seq<byte>)
    requires token != [] && !IsEol(token[|token| - 1])
    requires forall b | b in pad :: IsEol(b)
    ensures IsAuthLine(PREFIX + token + pad, token)
  {
    StripEolUnique(PREFIX + token + pad, PREFIX + token);
  }

  /** ... and nothing else is. */
  lemma AuthLineShape(s: seq<byte>, token: seq<byte>)
    requires IsAuthLine(s, token)
    ensures exists pad :: s == PREFIX + token + pad && forall b | b in pad :: IsEol(b)
  {
    var pad := s[5 + |token|..];
    assert s == PREFIX + token + pad;
  }
}
