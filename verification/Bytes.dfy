/** Bytes, line endings and concatenation: what every program of the repository shares. */
module Bytes {
  type byte = bv8

  datatype Option<+T> = None | Some(value: T)

  const LF: byte := 10
  const CR: byte := 13

  predicate IsEol(b: byte) {
    b == LF || b == CR
  }

  /** `s` without its longest tail of carriage returns and line feeds. */
  function StripEol(s: seq<byte>): (r: seq<byte>)
    ensures r <= s
    ensures r != [] ==> !IsEol(r[|r| - 1])
    ensures forall k | |r| <= k < |s| :: IsEol(s[k])
  {
    if s != [] && IsEol(s[|s| - 1]) then StripEol(s[..|s| - 1]) else s
  }

  /** The three facts that `StripEol` promises determine its result. */
  lemma {:induction false} StripEolUnique(s: seq<byte>, body: seq<byte>)
    requires body <= s
    requires body != [] ==> !IsEol(body[|body| - 1])
    requires forall k | |body| <= k < |s| :: IsEol(s[k])
    ensures StripEol(s) == body
  {
    if |s| > |body| {
      assert IsEol(s[|s| - 1]);
      StripEolUnique(s[..|s| - 1], body);
    } else {
      assert s == body;
    }
  }

  /** At most the first `max` elements. */
  function Cut<T>(s: seq<T>, max: nat): (r: seq<T>)
    ensures r <= s && |r| <= max && (|r| < max ==> r == s)
  {
    if |s| <= max then s else s[..max]
  }

  function Flatten(ss: seq<seq<byte>>): seq<byte> {
    if ss == [] then [] else ss[0] + Flatten(ss[1..])
  }

  lemma FlattenOne(s: seq<byte>)
    ensures Flatten([s]) == s
  {
    assert Flatten([s]) == s + Flatten([]) == s;
  }

  lemma {:induction false} FlattenConcat(a: seq<seq<byte>>, b: seq<seq<byte>>)
    ensures Flatten(a + b) == Flatten(a) + Flatten(b)
  {
    if a == [] {
      assert a + b == b;
    } else {
      assert (a + b)[1..] == a[1..] + b;
      FlattenConcat(a[1..], b);
    }
  }
}
