/** The dashboard's list of listening ports: collect from four tables, sort, drop duplicates, split. */
module PortList {
  import opened Bytes
  import opened Ports

  const MAX_PORTS := 1024
  const ENTRY_SIZE := 192

  /** A row of a /proc/net table as sscanf and inet_ntop leave it; `parses` is false if they fail. */
  datatype Row = Row(parses: bool, state: nat, addr: string, port: nat)

  datatype Fields = Fields(proto: string, addr: string, port: string)

  // ----- strcmp -----

  predicate Before(a: string, b: string) {
    b != "" && (a == "" || a[0] < b[0] || (a[0] == b[0] && Before(a[1..], b[1..])))
  }

  /** `b` goes on after position `k`, to which the two agree, and `a` ends there or has a smaller character. */
  predicate LessAt(a: string, b: string, k: nat) {
    k <= |a| && k < |b| && a[..k] == b[..k] && (k == |a| || a[k] < b[k])
  }

  /** strcmp: the first difference decides. */
  lemma {:induction false} BeforeMeans(a: string, b: string)
    ensures Before(a, b) <==> exists k: nat :: LessAt(a, b, k)
  {
    if k: nat :| LessAt(a, b, k) {
      LessIsBefore(a, b, k);
    }
    if Before(a, b) {
      var k := BeforeIsLess(a, b);
    }
  }

  lemma {:induction false} LessIsBefore(a: string, b: string, k: nat)
    requires LessAt(a, b, k)
    ensures Before(a, b)
  {
    if k > 0 {
      assert a[..k][0] == a[0] && b[..k][0] == b[0];
      assert a[1..][..k - 1] == a[..k][1..] && b[1..][..k - 1] == b[..k][1..];
      LessIsBefore(a[1..], b[1..], k - 1);
    }
  }

  lemma {:induction false} BeforeIsLess(a: string, b: string) returns (k: nat)
    requires Before(a, b)
    ensures LessAt(a, b, k)
  {
    k := 0;
    if a != "" && a[0] == b[0] {
      k := BeforeIsLess(a[1..], b[1..]);
      assert a[..k + 1] == [a[0]] + a[1..][..k] && b[..k + 1] == [b[0]] + b[1..][..k];
      k := k + 1;
    }
  }

  lemma {:induction false} BeforeTotal(a: string, b: string)
    ensures Before(a, b) || a == b || Before(b, a)
    ensures !(Before(a, b) && (a == b || Before(b, a)))
  {
    if a != "" && b != "" && a[0] == b[0] {
      BeforeTotal(a[1..], b[1..]);
      assert a == [a[0]] + a[1..] && b == [b[0]] + b[1..];
    }
  }

  lemma {:induction false} BeforeTransitive(a: string, b: string, c: string)
    requires Before(a, b) && Before(b, c)
    ensures Before(a, c)
  {
    if a != "" && a[0] == b[0] == c[0] {
      BeforeTransitive(a[1..], b[1..], c[1..]);
    }
  }

  predicate Ascending(s: seq<string>) {
    forall i, j | 0 <= i < j < |s| :: !Before(s[j], s[i])
  }

  predicate StrictlyAscending(s: seq<string>) {
    forall i, j | 0 <= i < j < |s| :: Before(s[i], s[j])
  }

  function Insert(x: string, s: seq<string>): (r: seq<string>)
    ensures multiset(r) == multiset{x} + multiset(s)
  {
    if s == [] || !Before(s[0], x) then [x] + s
    else
      assert s == [s[0]] + s[1..];
      [s[0]] + Insert(x, s[1..])
  }

  function Sorted(s: seq<string>): (r: seq<string>)
    ensures multiset(r) == multiset(s)
  {
    if s == [] then []
    else
      assert s == [s[0]] + s[1..];
      Insert(s[0], Sorted(s[1..]))
  }

  lemma NotAfter(a: string, b: string, c: string)
    requires !Before(b, a) && !Before(c, b)
    ensures !Before(c, a)
  {
    BeforeTotal(a, b);
    BeforeTotal(b, c);
    BeforeTotal(a, c);
    if Before(a, b) && Before(b, c) {
      BeforeTransitive(a, b, c);
    }
  }

  lemma {:induction false} InsertAscends(x: string, s: seq<string>)
    requires Ascending(s)
    ensures Ascending(Insert(x, s))
  {
    var r := Insert(x, s);
    if s == [] || !Before(s[0], x) {
      forall i, j | 0 <= i < j < |r|
        ensures !Before(r[j], r[i])
      {
        if i == 0 && j > 1 {
          NotAfter(x, s[0], s[j - 1]);
        }
      }
    } else {
      InsertAscends(x, s[1..]);
      BeforeTotal(s[0], x);
      forall j | 0 < j < |r|
        ensures !Before(r[j], r[0])
      {
        assert r[j] in multiset(Insert(x, s[1..]));
        assert r[j] == x || r[j] in s[1..];
      }
    }
  }

  lemma {:induction false} SortedAscends(s: seq<string>)
    ensures Ascending(Sorted(s))
  {
    if s != [] {
      SortedAscends(s[1..]);
      InsertAscends(s[0], Sorted(s[1..]));
    }
  }

  // ----- formatting and splitting -----

  function Truncated(s: string, size: nat): string
    requires size > 0
  {
    if |s| < size then s else s[..size - 1]
  }

  /** "%s %s %u", cut to 191 characters. */
  function Format(proto: string, row: Row): (r: string)
    ensures var whole := proto + " " + row.addr + " " + Digits(row.port);
            r <= whole && |r| <= 191 && (|r| < 191 ==> r == whole)
  {
    Truncated(proto + " " + row.addr + " " + Digits(row.port), ENTRY_SIZE)
  }

  /** The entries a table contributes, before the capacity is applied. */
  function Matching(rows: seq<Row>, proto: string, want: nat): seq<string> {
    if rows == [] then []
    else
      var row := rows[|rows| - 1];
      Matching(rows[..|rows| - 1], proto, want) + (if row.parses && row.state == want then [Format(proto, row)] else [])
  }

  /** The entries are those of the rows that parse and are in the state wanted, no others. */
  lemma {:induction false} MatchingMembers(rows: seq<Row>, proto: string, want: nat, x: string)
    ensures x in Matching(rows, proto, want) <==>
            exists row :: row in rows && row.parses && row.state == want && x == Format(proto, row)
  {
    hide Format;
    if rows != [] {
      var n := |rows| - 1;
      MatchingMembers(rows[..n], proto, want, x);
      assert rows == rows[..n] + [rows[n]];
      assert forall row :: row in rows <==> row in rows[..n] || row == rows[n];
    }
  }

  /** ... in the order of the rows. */
  lemma {:induction false} MatchingConcat(a: seq<Row>, b: seq<Row>, proto: string, want: nat)
    ensures Matching(a + b, proto, want) == Matching(a, proto, want) + Matching(b, proto, want)
    decreases |b|
  {
    if b == [] {
      assert a + b == a;
    } else {
      var n := |b| - 1;
      assert (a + b)[..|a + b| - 1] == a + b[..n];
      MatchingConcat(a, b[..n], proto, want);
    }
  }

  predicate NoSpace(s: string) {
    forall c | c in s :: !IsSpace(c)
  }

  /** The characters that addresses are printed with, IPv6 ones between brackets, are no spaces. */
  lemma AddressesHaveNoSpace(addr: string)
    requires forall c | c in addr :: c in "0123456789abcdef.:[]"
    ensures NoSpace(addr)
  {
  }

  /** "%<width>s": skip spaces, then one to `width` other characters; what is left is the second result. */
  function Word(s: string, width: nat): (r: Option<(string, string)>)
    requires width > 0
  {
    var t := SkipSpaces(s);
    var n := WordLength(t, width);
    if n == 0 then None else Some((t[..n], t[n..]))
  }

  function SkipSpaces(s: string): string {
    if s != "" && IsSpace(s[0]) then SkipSpaces(s[1..]) else s
  }

  function WordLength(s: string, width: nat): (n: nat)
    ensures n <= |s| && n <= width
  {
    if s == "" || width == 0 || IsSpace(s[0]) then 0 else 1 + WordLength(s[1..], width - 1)
  }

  /** sscanf with "%15s %127s %15s". */
  function Split(s: string): Option<Fields> {
    match Word(s, 15)
    case None => None
    case Some((proto, s1)) =>
      match Word(s1, 127)
      case None => None
      case Some((addr, s2)) =>
        match Word(s2, 15)
        case None => None
        case Some((port, _)) => Some(Fields(proto, addr, port))
  }

  /** What a word is: after spaces, as many other characters as there are, up to the width. */
  lemma WordMeans(s: string, width: nat) returns (spaces: string)
    requires width > 0
    ensures AllSpaces(spaces)
    ensures match Word(s, width)
            case None => s == spaces
            case Some((w, rest)) =>
              && s == spaces + w + rest && NoSpace(w) && 1 <= |w| <= width
              && (|w| == width || rest == "" || IsSpace(rest[0]))
  {
    spaces := Skipped(s);
    var t := SkipSpaces(s);
    WordLengthMeans(t, width);
    assert t == t[..WordLength(t, width)] + t[WordLength(t, width)..];
  }

  /** How "%15s %127s %15s" reads a line: three words, each after spaces, or fewer than three words in the
      whole line. */
  lemma SplitMeans(s: string)
      returns (g0: string, w0: string, g1: string, w1: string, g2: string, w2: string, rest: string)
    ensures AllSpaces(g0) && AllSpaces(g1) && AllSpaces(g2) && NoSpace(w0) && NoSpace(w1) && NoSpace(w2)
    ensures s == g0 + (w0 + (g1 + (w1 + (g2 + (w2 + rest)))))
    ensures |w0| <= 15 && |w1| <= 127 && |w2| <= 15
    ensures Split(s) == if w2 == "" then None else Some(Fields(w0, w1, w2))
    ensures if w2 == "" then rest == "" else w0 != "" && w1 != ""
  {
    hide Word, AllSpaces, NoSpace;
    var s1, s2;
    g0, w0, s1 := WordOrNone(s, 15);
    g1, w1, s2 := WordOrNone(s1, 127);
    g2, w2, rest := WordOrNone(s2, 15);
    if w0 == "" {
      NothingFollows(127);
    }
    if w1 == "" {
      NothingFollows(15);
    }
  }

  lemma NothingFollows(width: nat)
    requires width > 0
    ensures Word("", width) == None
  {
  }

  /** A word and what follows it, or nothing but spaces. */
  lemma WordOrNone(s: string, width: nat) returns (gap: string, w: string, rest: string)
    requires width > 0
    ensures AllSpaces(gap) && NoSpace(w) && |w| <= width && s == gap + (w + rest)
    ensures Word(s, width) == if w == "" then None else Some((w, rest))
    ensures w == "" ==> rest == "" && (s == "" ==> gap == "")
  {
    gap := WordMeans(s, width);
    match Word(s, width)
    case None =>
      w, rest := "", "";
      assert gap + ("" + "") == gap;
    case Some((v, t)) =>
      w, rest := v, t;
      assert gap + v + t == gap + (v + t);
  }

  lemma {:induction false} Skipped(s: string) returns (spaces: string)
    ensures AllSpaces(spaces) && s == spaces + SkipSpaces(s)
    ensures SkipSpaces(s) == "" || !IsSpace(SkipSpaces(s)[0])
  {
    spaces := "";
    if s != "" && IsSpace(s[0]) {
      spaces := Skipped(s[1..]);
      spaces := [s[0]] + spaces;
      assert s == [s[0]] + s[1..];
    }
  }

  lemma {:induction false} WordLengthMeans(s: string, width: nat)
    ensures var n := WordLength(s, width);
            && (forall k | 0 <= k < n :: !IsSpace(s[k]))
            && (n == width || n == |s| || IsSpace(s[n]))
  {
    if s != "" && width > 0 && !IsSpace(s[0]) {
      WordLengthMeans(s[1..], width - 1);
      var n := WordLength(s, width);
      assert forall k | 0 < k < n :: s[k] == s[1..][k - 1];
    }
  }

  lemma {:induction false} WordLengthOf(w: string, rest: string, width: nat)
    requires NoSpace(w) && |w| <= width && (rest == "" || IsSpace(rest[0]))
    ensures WordLength(w + rest, width) == |w|
  {
    if w == "" {
      assert w + rest == rest;
    } else {
      assert (w + rest)[0] == w[0] && w[0] in w;
      assert (w + rest)[1..] == w[1..] + rest;
      WordLengthOf(w[1..], rest, width - 1);
    }
  }

  lemma WordOf(w: string, rest: string, width: nat)
    requires w != "" && NoSpace(w) && |w| <= width && (rest == "" || IsSpace(rest[0]))
    ensures Word(w + rest, width) == Some((w, rest))
    ensures Word(" " + (w + rest), width) == Some((w, rest))
  {
    var s := w + rest;
    WordLengthOf(w, rest, width);
    assert s[0] == w[0] && w[0] in w;
    assert s[..|w|] == w && s[|w|..] == rest;
    assert (" " + s)[1..] == s;
  }

  lemma {:induction false} DigitsLength(n: nat, k: nat)
    requires n < Power10(k) && k > 0
    ensures |Digits(n)| <= k
  {
    if n >= 10 {
      DigitsLength(n / 10, k - 1);
    }
  }

  function Power10(k: nat): nat {
    if k == 0 then 1 else 10 * Power10(k - 1)
  }

  /** A row as the tables hold them: a 32-bit port and fields without spaces that fit their buffers. */
  predicate Plain(proto: string, row: Row) {
    && 1 <= |proto| <= 15 && NoSpace(proto)
    && 1 <= |row.addr| <= 127 && NoSpace(row.addr)
    && row.port < 0x1_0000_0000
  }

  /** Splitting a formatted row gives back its fields; nothing is cut off. */
  lemma SplitFormat(proto: string, row: Row)
    requires Plain(proto, row)
    ensures Split(Format(proto, row)) == Some(Fields(proto, row.addr, Digits(row.port)))
  {
    var port := Digits(row.port);
    assert Power10(10) == 10_000_000_000 by {
      assert Power10(5) == 100_000;
    }
    DigitsLength(row.port, 10);
    assert NoSpace(port);
    var tail := " " + (row.addr + (" " + (port + "")));
    assert Format(proto, row) == proto + tail;
    WordOf(proto, tail, 15);
    WordOf(row.addr, " " + (port + ""), 127);
    WordOf(port, "", 15);
  }

  // ----- the program -----

  /** One of the four tables. */
  datatype Table = Table(proto: string, want: nat, rows: seq<Row>)

  /** Tables of plain rows only. */
  predicate AllPlain(tables: seq<Table>) {
    forall t, row | t in tables && row in t.rows :: Plain(t.proto, row)
  }

  /** What all tables contribute, in reading order, before the capacity is applied. */
  function AllMatching(tables: seq<Table>): seq<string> {
    if tables == [] then []
    else
      var t := tables[|tables| - 1];
      AllMatching(tables[..|tables| - 1]) + Matching(t.rows, t.proto, t.want)
  }

  lemma CutTwice<T>(a: seq<T>, b: seq<T>, n: nat)
    ensures Cut(Cut(a, n) + b, n) == Cut(a + b, n)
  {
  }

  /** `s` in order and without repetition. */
  ghost predicate IsListingOf(r: seq<string>, s: seq<string>) {
    StrictlyAscending(r) && forall x :: x in r <==> x in s
  }

  class Listing {
    const entries: array<string>
    var n: nat

    ghost predicate Valid()
      reads this
    {
      entries.Length == MAX_PORTS && n <= MAX_PORTS
    }

    ghost function Contents(): seq<string>
      requires Valid()
      reads this, entries
    {
      entries[..n]
    }

    constructor ()
      ensures Valid() && Contents() == [] && fresh(entries)
    {
      entries := new string[MAX_PORTS](_ => "");
      n := 0;
    }

    /** `read_proc`: appends the matching rows while there is room. */
    method ReadProc(table: Table)
      requires Valid()
      modifies this`n, entries
      ensures Valid() && Contents() == Cut(old(Contents()) + Matching(table.rows, table.proto, table.want), MAX_PORTS)
    {
      hide Matching, Format;
      ghost var before := Contents();
      var i := 0;
      MatchingNone(table, before);
      while i < |table.rows| && n < MAX_PORTS
        invariant Valid() && 0 <= i <= |table.rows|
        invariant Contents() == Cut(before + Matching(table.rows[..i], table.proto, table.want), MAX_PORTS)
        invariant n < MAX_PORTS ==> Contents() == before + Matching(table.rows[..i], table.proto, table.want)
      {
        var row := table.rows[i];
        MatchingNext(table, i);
        if row.parses && row.state == table.want {
          Append(Format(table.proto, row));
        }
        i := i + 1;
      }
      Prefixes(table.rows, table.proto, table.want, i);
      assert table.rows[..|table.rows|] == table.rows;
    }

    /** One entry at the end. */
    method Append(entry: string)
      requires Valid() && n < MAX_PORTS
      modifies this`n, entries
      ensures Valid() && Contents() == old(Contents()) + [entry] && n == old(n) + 1
    {
      entries[n] := entry;
      n := n + 1;
    }

    /** qsort with strcmp. */
    method Sort()
      requires Valid()
      modifies entries
      ensures Valid() && Ascending(Contents()) && multiset(Contents()) == multiset(old(Contents()))
    {
      var s := Sorted(entries[..n]);
      SortedAscends(entries[..n]);
      assert |s| == |multiset(s)| == n;
      forall k | 0 <= k < n {
        entries[k] := s[k];
      }
      assert entries[..n] == s;
    }

    /** The four calls of `read_proc`. */
    method Collect(tables: seq<Table>)
      requires Valid() && Contents() == []
      modifies this`n, entries
      ensures Valid() && Contents() == Cut(AllMatching(tables), MAX_PORTS)
    {
      var t := 0;
      while t < |tables|
        invariant Valid() && 0 <= t <= |tables|
        invariant Contents() == Cut(AllMatching(tables[..t]), MAX_PORTS)
      {
        assert tables[..t + 1][..t] == tables[..t];
        ReadProc(tables[t]);
        CutTwice(AllMatching(tables[..t]), Matching(tables[t].rows, tables[t].proto, tables[t].want), MAX_PORTS);
        t := t + 1;
      }
      assert tables[..|tables|] == tables;
    }

    /** The printing loop: each entry that differs from the one before it. */
    method Unique() returns (printed: seq<Fields>, ghost listed: seq<string>)
      requires Valid() && Ascending(Contents()) && "" !in Contents()
      ensures IsListingOf(listed, Contents())
      ensures printed == SplitAll(listed)
    {
      hide IsListingOf, Split, SplitAll, Ascending;
      ghost var sorted := Contents();
      printed, listed := [], [];
      ListingStarts(sorted);
      var prev := "";
      var i := 0;
      while i < n
        invariant 0 <= i <= n
        invariant IsListingOf(listed, sorted[..i])
        invariant prev == if listed == [] then "" else listed[|listed| - 1]
        invariant printed == SplitAll(listed)
      {
        ListingNext(sorted, i, listed);
        if entries[i] != prev {
          prev := entries[i];
          var fields := Split(prev);
          SplitAllNext(listed, prev);
          listed := listed + [prev];
          if fields.Some? {
            printed := printed + [fields.value];
          }
        }
        i := i + 1;
      }
      assert sorted[..n] == sorted;
    }

    /** `print_ports`: the distinct entries among the first 1024 matching rows of all tables, in strcmp
        order, each split into its fields; one that does not split is left out. */
    method PrintPorts(tables: seq<Table>) returns (printed: seq<Fields>, ghost listed: seq<string>)
      requires Valid() && Contents() == []
      modifies this`n, entries
      ensures IsListingOf(listed, Cut(AllMatching(tables), 1024))
      ensures printed == SplitAll(listed)
      ensures AllPlain(tables) ==> forall f :: f in printed <==> f in Cut(AllTriples(tables), 1024)
      ensures AllPlain(tables) ==> forall i, j | 0 <= i < j < |printed| :: printed[i] != printed[j]
    {
      hide AllPlain, AllTriples, SplitAll, IsListingOf, AllMatching;
      Collect(tables);
      ghost var collected := Contents();
      NoneEmpty(tables);
      Sort();
      ghost var sorted := Contents();
      SameMembers(sorted, collected);
      printed, listed := Unique();
      SameListing(listed, sorted, collected);
      if AllPlain(tables) {
        PrintedTriples(tables, listed, printed);
      }
    }
  }

  lemma SameListing(listed: seq<string>, a: seq<string>, b: seq<string>)
    requires IsListingOf(listed, a) && forall x :: x in a <==> x in b
    ensures IsListingOf(listed, b)
  {
  }

  lemma SameMembers(a: seq<string>, b: seq<string>)
    requires multiset(a) == multiset(b)
    ensures forall x :: x in a <==> x in b
  {
    forall x
      ensures x in a <==> x in b
    {
      assert x in multiset(a) <==> x in multiset(b);
    }
  }

  function SplitAll(s: seq<string>): seq<Fields> {
    if s == [] then []
    else
      SplitAll(s[..|s| - 1]) + (match Split(s[|s| - 1]) case None => [] case Some(f) => [f])
  }

  /** A listing is determined by its members, so what is printed does not depend on the order or the
      repetition of the rows. */
  lemma {:induction false} ListingUnique(a: seq<string>, b: seq<string>)
    requires StrictlyAscending(a) && StrictlyAscending(b) && forall x :: x in a <==> x in b
    ensures a == b
  {
    assert a != [] ==> a[0] in b;
    assert b != [] ==> b[0] in a;
    if a != [] {
      assert a[0] in b && b[0] in a;
      BeforeTotal(a[0], b[0]);
      assert a[0] == b[0];
      forall x
        ensures x in a[1..] <==> x in b[1..]
      {
        BeforeTotal(a[0], a[0]);
        assert x in a <==> x == a[0] || x in a[1..];
        assert x in b <==> x == b[0] || x in b[1..];
      }
      ListingUnique(a[1..], b[1..]);
      assert a == [a[0]] + a[1..] && b == [b[0]] + b[1..];
    }
  }

  /** When every entry splits, the printed rows are the listed entries, one for one. */
  lemma {:induction false} SplitAllWhole(s: seq<string>)
    requires forall x | x in s :: Split(x).Some?
    ensures |SplitAll(s)| == |s| && forall k | 0 <= k < |s| :: Split(s[k]) == Some(SplitAll(s)[k])
  {
    hide Split;
    if s != [] {
      var n := |s| - 1;
      assert s[n] in s && forall x | x in s[..n] :: x in s;
      SplitAllWhole(s[..n]);
      assert SplitAll(s) == SplitAll(s[..n]) + [Split(s[n]).value];
    }
  }

  /** Each entry is printed by itself; one that does not split prints nothing, and the others still do. */
  lemma {:induction false} SplitAllConcat(a: seq<string>, b: seq<string>)
    ensures SplitAll(a + b) == SplitAll(a) + SplitAll(b)
    ensures forall x :: SplitAll([x]) == match Split(x) case None => [] case Some(f) => [f]
    decreases |b|
  {
    hide Split;
    assert forall x: string :: [x][..0] == [];
    if b == [] {
      assert a + b == a;
    } else {
      var n := |b| - 1;
      assert (a + b)[..|a + b| - 1] == a + b[..n];
      SplitAllConcat(a, b[..n]);
    }
  }

  lemma {:induction false} PlainRowsSplit(rows: seq<Row>, proto: string, want: nat)
    requires forall row | row in rows :: Plain(proto, row)
    ensures forall x | x in Matching(rows, proto, want) :: Split(x).Some?
  {
    if rows != [] {
      PlainRowsSplit(rows[..|rows| - 1], proto, want);
      SplitFormat(proto, rows[|rows| - 1]);
    }
  }

  /** So nothing is left out of a list of plain rows. */
  lemma {:induction false} PlainTablesSplit(tables: seq<Table>)
    requires AllPlain(tables)
    ensures forall x | x in AllMatching(tables) :: Split(x).Some?
  {
    if tables != [] {
      var t := tables[|tables| - 1];
      PlainTablesSplit(tables[..|tables| - 1]);
      PlainRowsSplit(t.rows, t.proto, t.want);
    }
  }

  // ----- what is printed for plain tables -----

  /** Protocol, address and decimal port of the matching rows of a table, and of all tables. */
  function Triples(rows: seq<Row>, proto: string, want: nat): seq<Fields> {
    if rows == [] then []
    else
      var row := rows[|rows| - 1];
      Triples(rows[..|rows| - 1], proto, want) +
        (if row.parses && row.state == want then [Fields(proto, row.addr, Digits(row.port))] else [])
  }

  function AllTriples(tables: seq<Table>): seq<Fields> {
    if tables == [] then []
    else
      var t := tables[|tables| - 1];
      AllTriples(tables[..|tables| - 1]) + Triples(t.rows, t.proto, t.want)
  }

  function Spelt(f: Fields): string {
    f.proto + " " + f.addr + " " + f.port
  }

  /** `entries` are these triples as text, and each splits into its own. */
  predicate Spells(entries: seq<string>, triples: seq<Fields>) {
    |entries| == |triples|
    && forall k | 0 <= k < |entries| :: Split(entries[k]) == Some(triples[k]) && entries[k] == Spelt(triples[k])
  }

  lemma {:induction false} RowsSpell(rows: seq<Row>, proto: string, want: nat)
    requires forall row | row in rows :: Plain(proto, row)
    ensures Spells(Matching(rows, proto, want), Triples(rows, proto, want))
  {
    hide Split, Plain, Format, Spelt;
    if rows != [] {
      var row := rows[|rows| - 1];
      RowsSpell(rows[..|rows| - 1], proto, want);
      FormatSpells(proto, row);
    }
  }

  lemma FormatSpells(proto: string, row: Row)
    requires Plain(proto, row)
    ensures var f := Fields(proto, row.addr, Digits(row.port));
            Split(Format(proto, row)) == Some(f) && Format(proto, row) == Spelt(f)
  {
    hide Split;
    SplitFormat(proto, row);
    assert Power10(10) == 10_000_000_000 by {
      assert Power10(5) == 100_000;
    }
    DigitsLength(row.port, 10);
  }

  lemma {:induction false} TablesSpell(tables: seq<Table>)
    requires AllPlain(tables)
    ensures Spells(AllMatching(tables), AllTriples(tables))
  {
    hide Split, Plain, Format, Spelt, Matching, Triples;
    if tables != [] {
      var t := tables[|tables| - 1];
      TablesSpell(tables[..|tables| - 1]);
      RowsSpell(t.rows, t.proto, t.want);
    }
  }

  /** For plain tables, what is printed is exactly the set of the triples of the first 1024 matching
      rows, each of them once. */
  lemma PrintedTriples(tables: seq<Table>, listed: seq<string>, printed: seq<Fields>)
    requires AllPlain(tables)
    requires IsListingOf(listed, Cut(AllMatching(tables), MAX_PORTS)) && printed == SplitAll(listed)
    ensures forall f :: f in printed <==> f in Cut(AllTriples(tables), MAX_PORTS)
    ensures forall i, j | 0 <= i < j < |printed| ::
              printed[i] != printed[j] && Before(Spelt(printed[i]), Spelt(printed[j]))
  {
    hide Split, Plain, AllMatching, AllTriples, SplitAll, Spelt, Before;
    TablesSpell(tables);
    var entries, triples := Cut(AllMatching(tables), MAX_PORTS), Cut(AllTriples(tables), MAX_PORTS);
    assert Spells(entries, triples);
    SplitAllWhole(listed);
    forall k | 0 <= k < |listed|
      ensures printed[k] in triples && listed[k] == Spelt(printed[k])
    {
      assert listed[k] in entries;
      var n :| 0 <= n < |entries| && entries[n] == listed[k];
      assert triples[n] == printed[k];
    }
    forall f | f in triples
      ensures f in printed
    {
      var n :| 0 <= n < |triples| && triples[n] == f;
      assert entries[n] in listed;
      var k :| 0 <= k < |listed| && listed[k] == entries[n];
      assert printed[k] == f;
    }
    forall i, j | 0 <= i < j < |printed|
      ensures printed[i] != printed[j] && Before(Spelt(printed[i]), Spelt(printed[j]))
    {
      BeforeTotal(listed[i], listed[j]);
    }
  }

  lemma MatchingNone(t: Table, before: seq<string>)
    ensures before + Matching(t.rows[..0], t.proto, t.want) == before
  {
  }

  lemma MatchingNext(t: Table, i: nat)
    requires i < |t.rows|
    ensures var row := t.rows[i];
            Matching(t.rows[..i + 1], t.proto, t.want) ==
            Matching(t.rows[..i], t.proto, t.want) +
              (if row.parses && row.state == t.want then [Format(t.proto, row)] else [])
  {
    assert t.rows[..i + 1][..i] == t.rows[..i];
  }

  lemma ListingStarts(sorted: seq<string>)
    ensures IsListingOf([], sorted[..0]) && SplitAll([]) == []
  {
  }

  lemma SplitAllNext(s: seq<string>, x: string)
    ensures SplitAll(s + [x]) == SplitAll(s) + (match Split(x) case None => [] case Some(f) => [f])
  {
    assert (s + [x])[..|s|] == s;
  }

  /** The next entry is either the last one listed, or comes after all that were. */
  lemma ListingNext(sorted: seq<string>, i: nat, listed: seq<string>)
    requires Ascending(sorted) && i < |sorted| && "" !in sorted && IsListingOf(listed, sorted[..i])
    ensures var prev := if listed == [] then "" else listed[|listed| - 1];
            IsListingOf(if sorted[i] != prev then listed + [sorted[i]] else listed, sorted[..i + 1])
  {
    var x := sorted[i];
    assert x in sorted && sorted[..i + 1] == sorted[..i] + [x];
    if listed == [] || x != listed[|listed| - 1] {
      forall j | 0 <= j < |listed|
        ensures Before(listed[j], x)
      {
        var last := listed[|listed| - 1];
        assert listed[j] in sorted[..i] && last in sorted[..i];
        BeforeTotal(listed[j], x);
        BeforeTotal(last, x);
      }
    }
  }

  lemma {:induction false} Prefixes(rows: seq<Row>, proto: string, want: nat, i: nat)
    requires i <= |rows|
    ensures Matching(rows[..i], proto, want) <= Matching(rows, proto, want)
  {
    if i < |rows| {
      assert rows[..|rows| - 1][..i] == rows[..i];
      Prefixes(rows[..|rows| - 1], proto, want, i);
    } else {
      assert rows[..i] == rows;
    }
  }

  lemma {:induction false} NoneEmptyIn(rows: seq<Row>, proto: string, want: nat)
    ensures "" !in Matching(rows, proto, want)
  {
    if rows != [] {
      NoneEmptyIn(rows[..|rows| - 1], proto, want);
    }
  }

  lemma {:induction false} NoneEmpty(tables: seq<Table>)
    ensures "" !in AllMatching(tables)
  {
    if tables != [] {
      var t := tables[|tables| - 1];
      NoneEmpty(tables[..|tables| - 1]);
      NoneEmptyIn(t.rows, t.proto, t.want);
    }
  }
}
