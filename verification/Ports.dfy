/** Port numbers as text: decimal printing, strtol, the strict `check_port` and the lax `parse_port`.
    Strings are C strings without their terminator. */
module Ports {
  const LONG_MAX: int := 0x7FFF_FFFF_FFFF_FFFF
  const LONG_MIN: int := -LONG_MAX - 1

  predicate IsDigit(c: char) {
    '0' <= c <= '9'
  }

  predicate IsSpace(c: char) {
    c == ' ' || '\t' <= c <= '\r'
  }

  /** Tab, line feed, vertical tab, form feed, carriage return and space. */
  lemma SpaceCodes(c: char)
    ensures IsSpace(c) <==> c as int in {9, 10, 11, 12, 13, 32}
  {
  }

  predicate AllDigits(s: string) {
    forall c | c in s :: IsDigit(c)
  }

  predicate AllSpaces(s: string) {
    forall c | c in s :: IsSpace(c)
  }

  function DigitOf(c: char): (d: nat)
    requires IsDigit(c)
    ensures d < 10
  {
    c as nat - '0' as nat
  }

  /** "%u". */
  function Digits(n: nat): (s: string)
    ensures AllDigits(s) && s != ""
    ensures n > 0 ==> s[0] != '0'
  {
    var last := [('0' as nat + n % 10) as char];
    if n < 10 then last else Digits(n / 10) + last
  }

  function Value(s: string): nat
    requires AllDigits(s)
  {
    if s == "" then 0 else Value(s[..|s| - 1]) * 10 + DigitOf(s[|s| - 1])
  }

  lemma {:induction false} ValueOfDigits(n: nat)
    ensures Value(Digits(n)) == n
  {
    if n >= 10 {
      ValueOfDigits(n / 10);
      assert Digits(n)[..|Digits(n)| - 1] == Digits(n / 10);
    }
  }

  /** Decimal digits, the last one being the remainder by ten. */
  lemma DigitsAre(n: nat)
    ensures Digits(n) == (if n < 10 then "" else Digits(n / 10)) + ["0123456789"[n % 10]]
  {
    DigitChar(n % 10);
  }

  lemma DigitChar(d: nat)
    requires d < 10
    ensures ('0' as nat + d) as char == "0123456789"[d]
  {
  }

  lemma DigitsStep(v: nat, d: nat)
    requires v > 0 && d < 10
    ensures Digits(v * 10 + d) == Digits(v) + [('0' as nat + d) as char]
  {
    assert (v * 10 + d) / 10 == v && (v * 10 + d) % 10 == d;
  }

  lemma OneDigit(d: nat)
    requires d < 10
    ensures Digits(d) == [('0' as nat + d) as char]
  {
  }

  /** A run of digits without a leading zero is the decimal of its value. */
  lemma {:induction false} DigitsOfValue(s: string)
    requires AllDigits(s) && s != "" && s[0] != '0'
    ensures Value(s) > 0 && Digits(Value(s)) == s
  {
    hide Digits;
    var n := |s| - 1;
    var d := DigitOf(s[n]);
    assert s == s[..n] + [s[n]] && ('0' as nat + d) as char == s[n];
    if n > 0 {
      DigitsOfValue(s[..n]);
      DigitsStep(Value(s[..n]), d);
    } else {
      assert Value(s[..n]) == 0;
      OneDigit(d);
    }
  }

  function Zeros(n: nat): string {
    seq(n, _ => '0')
  }

  lemma {:induction false} PaddedDigits(s: string) returns (zeros: nat)
    requires AllDigits(s) && Value(s) > 0
    ensures s == Zeros(zeros) + Digits(Value(s))
  {
    zeros := 0;
    while s[zeros] == '0'
      invariant zeros <= |s| && s[..zeros] == Zeros(zeros) && Value(s[zeros..]) == Value(s)
      invariant zeros < |s|
      decreases |s| - zeros
    {
      DropZero(s[zeros..]);
      assert s[zeros..][1..] == s[zeros + 1..];
      zeros := zeros + 1;
    }
    DigitsOfValue(s[zeros..]);
  }

  lemma {:induction false} DropZero(s: string)
    requires AllDigits(s) && s != "" && s[0] == '0'
    ensures Value(s[1..]) == Value(s)
  {
    if |s| > 1 {
      var n := |s| - 1;
      DropZero(s[..n]);
      assert s[..n][1..] == s[1..][..|s[1..]| - 1];
    }
  }

  /** How strtol reads a string: spaces up to `i`, a sign up to `j`, digits up to `k`. */
  ghost predicate Reads(s: string, i: nat, j: nat, k: nat) {
    && i <= j <= k <= |s|
    && (forall x | 0 <= x < i :: IsSpace(s[x])) && (i < |s| ==> !IsSpace(s[i]))
    && (if i < |s| && IsSign(s[i]) then j == i + 1 else j == i)
    && (forall x | j <= x < k :: IsDigit(s[x])) && (k < |s| ==> !IsDigit(s[k]))
  }

  predicate IsSign(c: char) {
    c == '+' || c == '-'
  }

  lemma SignCodes(c: char)
    ensures IsSign(c) <==> c as int in {43, 45}
  {
  }

  function Clamp(v: int): (r: int)
    ensures -9_223_372_036_854_775_808 <= r <= 9_223_372_036_854_775_807
    ensures v <= r ==> r == v || r == -9_223_372_036_854_775_808
    ensures v >= r ==> r == v || r == 9_223_372_036_854_775_807
  {
    if v > LONG_MAX then LONG_MAX else if v < LONG_MIN then LONG_MIN else v
  }

  /** The number read there. */
  function Number(s: string, i: nat, j: nat, k: nat): int
    requires i <= j <= k <= |s| && AllDigits(s[j..k])
  {
    if i < j && s[i] == '-' then -(Value(s[j..k]) as int) else Value(s[j..k])
  }

  /** strtol in base 10: the clamped value, where it stopped, and whether errno was set to ERANGE. */
  method StrToL(s: string) returns (val: int, end: nat, erange: bool, ghost i: nat, ghost j: nat, ghost k: nat)
    ensures Reads(s, i, j, k) && AllDigits(s[j..k])
    ensures j == k ==> end == 0 && val == 0 && !erange
    ensures j < k ==> end == k && val == Clamp(Number(s, i, j, k)) && (erange <==> val != Number(s, i, j, k))
  {
    var at := 0;
    while at < |s| && IsSpace(s[at])
      invariant 0 <= at <= |s| && forall x | 0 <= x < at :: IsSpace(s[x])
    {
      at := at + 1;
    }
    i := at;
    var negative := at < |s| && s[at] == '-';
    if at < |s| && IsSign(s[at]) {
      at := at + 1;
    }
    j := at;
    var first := at;
    var v;
    at, v := ReadDigits(s, first);
    k := at;
    if at == first {
      return 0, 0, false, i, j, k;
    }
    var signed := if negative then -v else v;
    return Clamp(signed), at, Clamp(signed) != signed, i, j, k;
  }

  method ReadDigits(s: string, first: nat) returns (at: nat, v: int)
    requires first <= |s|
    ensures first <= at <= |s| && (forall x | first <= x < at :: IsDigit(s[x])) && (at < |s| ==> !IsDigit(s[at]))
    ensures AllDigits(s[first..at]) && v == Value(s[first..at])
  {
    at, v := first, 0;
    while at < |s| && IsDigit(s[at])
      invariant first <= at <= |s| && (forall x | first <= x < at :: IsDigit(s[x]))
      invariant AllDigits(s[first..at]) && v == Value(s[first..at])
    {
      assert s[first..at + 1] == s[first..at] + [s[at]];
      assert s[first..at + 1][..at - first] == s[first..at];
      v := v * 10 + DigitOf(s[at]);
      at := at + 1;
    }
  }

  /** `check_port`: p exactly on the decimal of p, for 1 <= p <= 65535, and -1 on everything else. */
  method CheckPort(s: string) returns (port: int)
    ensures port == -1 || (1 <= port <= 65535 && s == Digits(port))
    ensures port == -1 ==> forall p: nat | 1 <= p <= 65535 :: s != Digits(p)
  {
    if s == "" || !IsDigit(s[0]) || s[0] == '0' {
      return -1;
    }
    var val, end, erange, i, j, k := StrToL(s);
    assert i == j == 0 && k > 0;
    if end == |s| {
      assert s[0..|s|] == s;
      DigitsOfValue(s);
    }
    if erange || end != |s| || end == 0 || val < 1 || val > 65535 {
      forall q: nat | 1 <= q <= 65535
        ensures s != Digits(q)
      {
        ValueOfDigits(q);
        assert k < |s| ==> s[k] in s;
      }
      return -1;
    }
    return val;
  }

  /** What the lax parser takes for p: spaces, perhaps a plus, zeros, the decimal of p. */
  ghost predicate LaxForm(s: string, p: nat) {
    exists spaces: string, sign: string, zeros: nat :: LaxParts(s, p, spaces, sign, zeros)
  }

  predicate LaxParts(s: string, p: nat, spaces: string, sign: string, zeros: nat) {
    AllSpaces(spaces) && sign in {"", "+"} && s == spaces + sign + (Zeros(zeros) + Digits(p))
  }

  /** `parse_port`: p exactly on the lax forms of p, for 1 <= p <= 65535, and -1 on everything else. */
  method ParsePort(s: string) returns (port: int)
    ensures port == -1 || (1 <= port <= 65535 && LaxForm(s, port))
    ensures port == -1 ==> forall p: nat | 1 <= p <= 65535 :: !LaxForm(s, p)
  {
    var val, end, erange, i, j, k := StrToL(s);
    forall q: nat | q > 0
      ensures LaxForm(s, q) <==> j < k == |s| && Number(s, i, j, k) == q
    {
      LaxMeans(s, i, j, k, q);
    }
    if erange || end != |s| || end == 0 || val < 1 || val > 65535 {
      return -1;
    }
    return val;
  }

  /** The time client does not test for -1: htons keeps its low 16 bits, so an argument that is no port
      makes it connect to port 65535. */
  method TimeClientPort(s: string) returns (port: int)
    ensures 1 <= port <= 65535
    ensures LaxForm(s, port) || (port == 65535 && forall p: nat | 1 <= p <= 65535 :: !LaxForm(s, p))
  {
    var parsed := ParsePort(s);
    port := parsed % 0x1_0000;
  }

  /** The lax forms of q > 0 are what strtol reads completely as q. */
  lemma LaxMeans(s: string, i: nat, j: nat, k: nat, q: nat)
    requires Reads(s, i, j, k) && AllDigits(s[j..k]) && q > 0
    ensures LaxForm(s, q) <==> j < k == |s| && Number(s, i, j, k) == q
  {
    if LaxForm(s, q) {
      var spaces, sign, zeros :| LaxParts(s, q, spaces, sign, zeros);
      LaxIsRead(s, i, j, k, q, spaces, sign, zeros);
    }
    if j < k == |s| && Number(s, i, j, k) == q {
      ReadIsLax(s, i, j, k, q);
    }
  }

  lemma LaxIsRead(s: string, i: nat, j: nat, k: nat, q: nat, spaces: string, sign: string, zeros: nat)
    requires Reads(s, i, j, k) && AllDigits(s[j..k]) && q > 0 && LaxParts(s, q, spaces, sign, zeros)
    ensures j < k == |s| && Number(s, i, j, k) == q
  {
    ZerosKeepValue(zeros, q);
    LaxPositions(s, i, j, k, spaces, sign, Zeros(zeros) + Digits(q));
  }

  lemma LaxPositions(s: string, i: nat, j: nat, k: nat, spaces: string, sign: string, ds: string)
    requires Reads(s, i, j, k) && s == spaces + sign + ds && AllSpaces(spaces) && sign in {"", "+"}
    requires ds != "" && AllDigits(ds)
    ensures j < k == |s| && s[j..k] == ds && (i < j ==> s[i] == '+')
  {
    var a, b := |spaces|, |spaces| + |sign|;
    forall x: nat | x < a
      ensures IsSpace(s[x])
    {
      assert s[x] == spaces[x] && spaces[x] in spaces;
    }
    forall x: nat | b <= x < |s|
      ensures IsDigit(s[x])
    {
      assert s[x] == ds[x - b] && ds[x - b] in ds;
    }
    assert s[a] == (if sign == "" then ds[0] else '+');
    assert i == a;
    assert s[b..] == ds;
  }

  lemma ReadIsLax(s: string, i: nat, j: nat, k: nat, q: nat)
    requires Reads(s, i, j, k) && AllDigits(s[j..k]) && q > 0
    requires j < k == |s| && Number(s, i, j, k) == q
    ensures LaxForm(s, q)
  {
    hide Digits, Zeros, Value;
    var zeros := PaddedDigits(s[j..k]);
    var sign := s[i..j];
    assert sign in {"", "+"} by {
      if i < j {
        assert sign == [s[i]];
      } else {
        assert sign == "";
      }
    }
    assert AllSpaces(s[..i]);
    assert s == s[..i] + sign + s[j..k];
    assert LaxParts(s, q, s[..i], sign, zeros);
  }

  lemma {:induction false} ZerosKeepValue(zeros: nat, q: nat)
    ensures AllDigits(Zeros(zeros) + Digits(q)) && Value(Zeros(zeros) + Digits(q)) == q
  {
    var s := Zeros(zeros) + Digits(q);
    if zeros == 0 {
      assert s == Digits(q);
      ValueOfDigits(q);
    } else {
      ZerosKeepValue(zeros - 1, q);
      assert s[1..] == Zeros(zeros - 1) + Digits(q);
      DropZero(s);
    }
  }

  /** Every strict port is a lax one of the same value. */
  lemma StrictIsLax(s: string, p: nat)
    requires s == Digits(p)
    ensures LaxForm(s, p)
  {
    assert s == "" + "" + (Zeros(0) + Digits(p));
    assert LaxParts(s, p, "", "", 0);
  }
}
