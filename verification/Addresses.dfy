/** The printed form of an address, which keys the map of upstream sockets. */
module Addresses {
  import opened Options
  import opened Text

  type Octet = n: int | 0 <= n < 256
  type Port = n: int | 0 <= n < 0x1_0000
  type Hextet = n: int | 0 <= n < 0x1_0000

  datatype Address =
    | IPv4(a: Octet, b: Octet, c: Octet, d: Octet, port: Port)
    | IPv6(groups: seq<Hextet>, port: Port)

  predicate WellFormed(x: Address) {
    x.IPv6? ==> |x.groups| == 8
  }

  // ---------- Hexadecimal groups ----------

  predicate IsHexDigit(c: char) {
    '0' <= c <= '9' || 'a' <= c <= 'f'
  }

  function HexDigit(n: nat): (c: char)
    requires n < 16
    ensures IsHexDigit(c)
  {
    if n < 10 then ('0' as int + n) as char else ('a' as int + (n - 10)) as char
  }

  function HexValue(c: char): nat
    requires IsHexDigit(c)
  {
    if c <= '9' then c as int - '0' as int else c as int - 'a' as int + 10
  }

  predicate HexDigits(s: string) {
    forall i :: 0 <= i < |s| ==> IsHexDigit(s[i])
  }

  /** Lower case, no leading zeros. */
  function Hex(n: nat): (s: string)
    ensures HexDigits(s) && s != ""
  {
    if n < 16 then [HexDigit(n)] else Hex(n / 16) + [HexDigit(n % 16)]
  }

  function HexNumber(s: string): nat
    requires HexDigits(s)
  {
    if s == "" then 0 else 16 * HexNumber(s[..|s| - 1]) + HexValue(s[|s| - 1])
  }

  lemma {:induction false} HexRoundTrip(n: nat)
    ensures HexNumber(Hex(n)) == n
  {
    var s := Hex(n);
    if n < 16 {
      assert s[..|s| - 1] == "";
    } else {
      HexRoundTrip(n / 16);
      assert s[..|s| - 1] == Hex(n / 16);
    }
  }

  // ---------- Printing ----------

  function Print4(a: Octet, b: Octet, c: Octet, d: Octet): string {
    Decimal(a) + "." + (Decimal(b) + "." + (Decimal(c) + "." + Decimal(d)))
  }

  function Colons(groups: seq<Hextet>): string {
    if groups == [] then ""
    else if |groups| == 1 then Hex(groups[0])
    else Hex(groups[0]) + ":" + Colons(groups[1..])
  }

  /** Where the first zero group is. */
  function FirstZero(groups: seq<Hextet>): (z: nat)
    ensures z <= |groups| && (z < |groups| ==> groups[z] == 0) && forall i :: 0 <= i < z ==> groups[i] != 0
  {
    if groups == [] || groups[0] == 0 then 0 else 1 + FirstZero(groups[1..])
  }

  /** Where the run of zeros from `i` ends. */
  function RunEnd(groups: seq<Hextet>, i: nat): (e: nat)
    requires i <= |groups|
    ensures i <= e <= |groups| && (e < |groups| ==> groups[e] != 0) && forall k :: i <= k < e ==> groups[k] == 0
    decreases |groups| - i
  {
    if i < |groups| && groups[i] == 0 then RunEnd(groups, i + 1) else i
  }

  function Double(left: seq<Hextet>, right: seq<Hextet>): string {
    Colons(left) + "::" + Colons(right)
  }

  /** The groups with the first run of zeros, however short, written as two colons. */
  function Print6(groups: seq<Hextet>): string {
    var z := FirstZero(groups);
    if z == |groups| then Colons(groups)
    else Double(groups[..z], groups[RunEnd(groups, z)..])
  }

  /** The key of an address. */
  function Print(x: Address): string {
    match x
    case IPv4(a, b, c, d, port) => Print4(a, b, c, d) + ":" + Decimal(port)
    case IPv6(groups, port) => "[" + Print6(groups) + "]:" + Decimal(port)
  }

  // ---------- What the text of an IPv6 address denotes ----------

  function Zeros(n: nat): (s: seq<Hextet>)
    ensures |s| == n && forall i :: 0 <= i < n ==> s[i] == 0
  {
    seq(n, i => 0)
  }

  /** Section 2.2 of RFC 4291: eight groups, or two colons once, standing for the missing zero groups. */
  ghost predicate Denotes(text: string, groups: seq<Hextet>) {
    |groups| == 8 && (
      || text == Colons(groups)
      || exists left, right :: Compressed(text, groups, left, right))
  }

  ghost predicate Compressed(text: string, groups: seq<Hextet>, left: seq<Hextet>, right: seq<Hextet>) {
    && |left| + |right| < 8
    && text == Double(left, right)
    && groups == left + Zeros(8 - |left| - |right|) + right
  }

  lemma PrintDenotes(groups: seq<Hextet>)
    requires |groups| == 8
    ensures Denotes(Print6(groups), groups)
  {
    if FirstZero(groups) < 8 {
      FirstRun(groups);
    }
  }

  // ---------- The text is unambiguous ----------

  predicate NoDouble(s: string) {
    && (s != "" ==> s[|s| - 1] != ':')
    && forall i :: 0 <= i < |s| - 1 ==> !(s[i] == ':' && s[i + 1] == ':')
  }

  predicate NoColon(s: string) {
    forall i :: 0 <= i < |s| ==> s[i] != ':'
  }

  lemma HexNoColon(n: nat)
    ensures NoColon(Hex(n))
  {
  }

  lemma NoDoubleAppend(h: string, t: string)
    requires NoColon(h) && NoDouble(t) && h != "" && t != "" && t[0] != ':'
    ensures NoDouble(h + ":" + t) && (h + ":" + t)[0] != ':'
  {
  }

  lemma {:induction false} ColonsNoDouble(groups: seq<Hextet>)
    ensures NoDouble(Colons(groups)) && (groups != [] ==> Colons(groups) != "" && Colons(groups)[0] != ':')
  {
    if groups != [] {
      HexNoColon(groups[0]);
      if |groups| > 1 {
        ColonsNoDouble(groups[1..]);
        NoDoubleAppend(Hex(groups[0]), Colons(groups[1..]));
      }
    }
  }

  /** The double colon found first is the one written. */
  lemma {:induction false} AfterDouble(s: string, rest: string)
    requires NoDouble(s)
    ensures After(s + "::" + rest, "::") == Some(rest)
  {
    var text := s + "::" + rest;
    if s == "" {
      assert text[2..] == rest;
    } else {
      assert text[1..] == s[1..] + "::" + rest;
      assert text[0] == s[0] && text[1] == if |s| > 1 then s[1] else ':';
      AfterDouble(s[1..], rest);
    }
  }

  lemma {:induction false} NoDoubleNone(s: string)
    requires NoDouble(s)
    ensures After(s, "::").None?
  {
    assert "::"[0] == ':' && "::"[1] == ':';
    if s != "" {
      NoDoubleNone(s[1..]);
    }
  }

  lemma HexInjective(m: nat, n: nat)
    requires Hex(m) == Hex(n)
    ensures m == n
  {
    HexRoundTrip(m);
    HexRoundTrip(n);
  }

  lemma {:induction false} ColonsInjective(g: seq<Hextet>, h: seq<Hextet>)
    requires Colons(g) == Colons(h)
    ensures g == h
  {
    ColonsNoDouble(g);
    ColonsNoDouble(h);
    if g != [] && h != [] {
      ColonsHead(g);
      ColonsHead(h);
      HexInjective(g[0], h[0]);
      if |g| > 1 && |h| > 1 {
        ColonsInjective(g[1..], h[1..]);
      }
      assert g == [g[0]] + g[1..] && h == [h[0]] + h[1..];
    }
  }

  /** The first group is what precedes the first colon. */
  lemma ColonsHead(g: seq<Hextet>)
    requires g != []
    ensures After(Colons(g), ":") == if |g| == 1 then None else Some(Colons(g[1..]))
    ensures |g| == 1 ==> Colons(g) == Hex(g[0])
    ensures |g| > 1 ==> Before(Colons(g), ':') == Some(Hex(g[0]))
  {
    HexNoColon(g[0]);
    if |g| == 1 {
      NoColonNone(Hex(g[0]));
    } else {
      AfterChar(Hex(g[0]), ':', Colons(g[1..]));
    }
  }

  lemma {:induction false} NoColonNone(s: string)
    requires NoColon(s)
    ensures After(s, ":").None?
  {
    assert ":"[0] == ':';
    if s != "" {
      NoColonNone(s[1..]);
    }
  }

  lemma DoubleSplit(s: string, t: string, s': string, t': string)
    requires NoDouble(s) && NoDouble(s') && s + "::" + t == s' + "::" + t'
    ensures s == s' && t == t'
  {
    AfterDouble(s, t);
    AfterDouble(s', t');
    assert s == (s + "::" + t)[..|s|] && s' == (s' + "::" + t')[..|s'|];
  }

  /** Two colons stand at one place only. */
  lemma DoubleUnique(left: seq<Hextet>, right: seq<Hextet>, left': seq<Hextet>, right': seq<Hextet>)
    requires Double(left, right) == Double(left', right')
    ensures left == left' && right == right'
  {
    ColonsNoDouble(left);
    ColonsNoDouble(left');
    DoubleSplit(Colons(left), Colons(right), Colons(left'), Colons(right'));
    ColonsInjective(left, left');
    ColonsInjective(right, right');
  }

  lemma DoubleIsNotColons(groups: seq<Hextet>, left: seq<Hextet>, right: seq<Hextet>)
    ensures Colons(groups) != Double(left, right)
  {
    ColonsNoDouble(groups);
    NoDoubleNone(Colons(groups));
    ColonsNoDouble(left);
    AfterDouble(Colons(left), Colons(right));
  }

  /** A text denotes one list of groups. */
  lemma DenotesUnique(text: string, g: seq<Hextet>, h: seq<Hextet>)
    requires Denotes(text, g) && Denotes(text, h)
    ensures g == h
  {
    if text == Colons(g) {
      PlainUnique(text, g, h);
    } else if text == Colons(h) {
      PlainUnique(text, h, g);
    } else {
      var left, right :| Compressed(text, g, left, right);
      var left', right' :| Compressed(text, h, left', right');
      DoubleUnique(left, right, left', right');
    }
  }

  lemma PlainUnique(text: string, g: seq<Hextet>, h: seq<Hextet>)
    requires text == Colons(g) && Denotes(text, h)
    ensures g == h
  {
    if text == Colons(h) {
      ColonsInjective(g, h);
    } else {
      var left, right :| Compressed(text, h, left, right);
      DoubleIsNotColons(g, left, right);
    }
  }

  /** The run written as two colons is the first run of zeros, all of it. */
  lemma CompressesFirstRun(groups: seq<Hextet>, left: seq<Hextet>, right: seq<Hextet>)
    requires |groups| == 8 && Print6(groups) == Double(left, right)
    ensures Compressed(Print6(groups), groups, left, right)
    ensures (forall i :: 0 <= i < |left| ==> left[i] != 0) && (right != [] ==> right[0] != 0)
  {
    var z := FirstZero(groups);
    if z == 8 {
      DoubleIsNotColons(groups, left, right);
    } else {
      DoubleUnique(left, right, groups[..z], groups[RunEnd(groups, z)..]);
      FirstRun(groups);
    }
  }

  lemma ZeroRun(groups: seq<Hextet>, z: nat, e: nat)
    requires z <= e <= |groups| && forall i :: z <= i < e ==> groups[i] == 0
    ensures groups == groups[..z] + Zeros(e - z) + groups[e..]
  {
    assert groups[z..e] == Zeros(e - z);
  }

  lemma FirstRun(groups: seq<Hextet>)
    requires |groups| == 8 && FirstZero(groups) < 8
    ensures var z, e := FirstZero(groups), RunEnd(groups, FirstZero(groups));
      && z < e && Compressed(Print6(groups), groups, groups[..z], groups[e..])
  {
    var z, e := FirstZero(groups), RunEnd(groups, FirstZero(groups));
    ZeroRun(groups, z, e);
  }

  lemma NoZeroNoCompression(groups: seq<Hextet>)
    requires |groups| == 8
    ensures (forall i :: 0 <= i < 8 ==> groups[i] != 0) <==> After(Print6(groups), "::").None?
  {
    var z := FirstZero(groups);
    if z == 8 {
      ColonsNoDouble(groups);
      NoDoubleNone(Colons(groups));
    } else {
      ColonsNoDouble(groups[..z]);
      AfterDouble(Colons(groups[..z]), Colons(groups[RunEnd(groups, z)..]));
    }
  }

  // ---------- Keys are injective ----------

  lemma DigitsNoMark(n: nat, c: char)
    requires !IsDigit(c)
    ensures c !in Decimal(n)
  {
  }

  lemma SplitAt(u: string, w: string, u': string, w': string, c: char)
    requires c !in u && c !in u' && u + [c] + w == u' + [c] + w'
    ensures u == u' && w == w'
  {
    AfterChar(u, c, w);
    AfterChar(u', c, w');
  }

  lemma Print4Injective(x: Address, y: Address)
    requires x.IPv4? && y.IPv4? && Print(x) == Print(y)
    ensures x == y
  {
    var p, q := Decimal(x.port), Decimal(y.port);
    var x3, y3 := Decimal(x.d) + ":" + p, Decimal(y.d) + ":" + q;
    var x2, y2 := Decimal(x.c) + "." + x3, Decimal(y.c) + "." + y3;
    var x1, y1 := Decimal(x.b) + "." + x2, Decimal(y.b) + "." + y2;
    Print4Shape(x, x1, x2, x3);
    Print4Shape(y, y1, y2, y3);
    forall n: nat, c | c == '.' || c == ':'
      ensures c !in Decimal(n)
    {
      DigitsNoMark(n, c);
    }
    SplitAt(Decimal(x.a), x1, Decimal(y.a), y1, '.');
    SplitAt(Decimal(x.b), x2, Decimal(y.b), y2, '.');
    SplitAt(Decimal(x.c), x3, Decimal(y.c), y3, '.');
    SplitAt(Decimal(x.d), p, Decimal(y.d), q, ':');
    DecimalInjective(x.a, y.a);
    DecimalInjective(x.b, y.b);
    DecimalInjective(x.c, y.c);
    DecimalInjective(x.d, y.d);
    DecimalInjective(x.port, y.port);
  }

  lemma Print4Shape(x: Address, x1: string, x2: string, x3: string)
    requires x.IPv4? && x3 == Decimal(x.d) + ":" + Decimal(x.port)
    requires x2 == Decimal(x.c) + "." + x3 && x1 == Decimal(x.b) + "." + x2
    ensures Print(x) == Decimal(x.a) + "." + x1
  {
    var p := ":" + Decimal(x.port);
    assert Decimal(x.d) + p == x3;
    assert (Decimal(x.c) + "." + Decimal(x.d)) + p == x2;
    assert (Decimal(x.b) + "." + (Decimal(x.c) + "." + Decimal(x.d))) + p == x1;
    assert Print(x) == Print4(x.a, x.b, x.c, x.d) + p;
  }

  predicate GroupChars(s: string) {
    forall i :: 0 <= i < |s| ==> s[i] == ':' || IsHexDigit(s[i])
  }

  lemma {:induction false} ColonsChars(groups: seq<Hextet>)
    ensures GroupChars(Colons(groups))
  {
    if |groups| > 1 {
      ColonsChars(groups[1..]);
    }
  }

  lemma Print6Chars(groups: seq<Hextet>)
    ensures ']' !in Print6(groups)
  {
    var z := FirstZero(groups);
    ColonsChars(groups);
    ColonsChars(groups[..z]);
    ColonsChars(groups[RunEnd(groups, z)..]);
  }

  lemma Print6Injective(x: Address, y: Address)
    requires x.IPv6? && y.IPv6? && WellFormed(x) && WellFormed(y) && Print(x) == Print(y)
    ensures x == y
  {
    var s, t := "[" + Print6(x.groups), "[" + Print6(y.groups);
    Print6Chars(x.groups);
    Print6Chars(y.groups);
    assert Print(x) == s + [']'] + (":" + Decimal(x.port));
    assert Print(y) == t + [']'] + (":" + Decimal(y.port));
    SplitAt(s, ":" + Decimal(x.port), t, ":" + Decimal(y.port), ']');
    assert (":" + Decimal(x.port))[1..] == Decimal(x.port) && (":" + Decimal(y.port))[1..] == Decimal(y.port);
    DecimalInjective(x.port, y.port);
    assert s[1..] == Print6(x.groups) && t[1..] == Print6(y.groups);
    PrintDenotes(x.groups);
    PrintDenotes(y.groups);
    DenotesUnique(Print6(x.groups), x.groups, y.groups);
  }

  lemma PrintStart(x: Address)
    ensures Print(x) != "" && (Print(x)[0] == '[' <==> x.IPv6?)
  {
    if x.IPv4? {
      assert Print(x)[0] == Decimal(x.a)[0];
    }
  }

  /** Different addresses print differently, within a family and across. */
  lemma PrintInjective(x: Address, y: Address)
    requires WellFormed(x) && WellFormed(y) && Print(x) == Print(y)
    ensures x == y
  {
    if x.IPv4? && y.IPv4? {
      Print4Injective(x, y);
    } else if x.IPv6? && y.IPv6? {
      Print6Injective(x, y);
    } else {
      PrintStart(x);
      PrintStart(y);
    }
  }

  // ---------- Reading a key ----------

  lemma DigitsInOrder()
    ensures Hex(0x1db8) == "1db8" && Decimal(8052) == "8052"
  {
    assert Hex(0x1) == "1" && Hex(0x1d) == "1d" && Hex(0x1db) == "1db";
    assert Decimal(8) == "8" && Decimal(80) == "80" && Decimal(805) == "805";
  }

  /** Cut at its dots and its colon, the key of an IPv4 address is its four octets in order and its port. */
  lemma DottedRead(x: Address)
    requires x.IPv4?
    ensures
      var t1 := After(Print(x), ".");
      && Before(Print(x), '.') == Some(Decimal(x.a)) && t1.Some?
      && var t2 := After(t1.value, ".");
      && Before(t1.value, '.') == Some(Decimal(x.b)) && t2.Some?
      && var t3 := After(t2.value, ".");
      && Before(t2.value, '.') == Some(Decimal(x.c)) && t3.Some?
      && Before(t3.value, ':') == Some(Decimal(x.d)) && After(t3.value, ":") == Some(Decimal(x.port))
  {
    var x3 := Decimal(x.d) + ":" + Decimal(x.port);
    var x2 := Decimal(x.c) + "." + x3;
    var x1 := Decimal(x.b) + "." + x2;
    Print4Shape(x, x1, x2, x3);
    AfterChar(Decimal(x.a), '.', x1);
    AfterChar(Decimal(x.b), '.', x2);
    AfterChar(Decimal(x.c), '.', x3);
    AfterChar(Decimal(x.d), ':', Decimal(x.port));
  }

  /** The key of an IPv6 address is its groups in brackets, a colon and its port. */
  lemma BracketRead(x: Address)
    requires x.IPv6?
    ensures Print(x) != "" && Print(x)[0] == '['
    ensures Before(Print(x)[1..], ']') == Some(Print6(x.groups))
    ensures After(Print(x)[1..], "]") == Some(":" + Decimal(x.port))
  {
    Print6Chars(x.groups);
    assert Print(x)[1..] == Print6(x.groups) + [']'] + (":" + Decimal(x.port));
    AfterChar(Print6(x.groups), ']', ":" + Decimal(x.port));
  }

  // ---------- The printing loop ----------

  lemma {:induction false} ColonsSnoc(g: seq<Hextet>, x: Hextet)
    ensures Colons(g + [x]) == if g == [] then Hex(x) else Colons(g) + ":" + Hex(x)
  {
    if |g| == 1 {
      assert (g + [x])[1..] == [x];
    } else if g != [] {
      assert (g + [x])[1..] == g[1..] + [x];
      ColonsSnoc(g[1..], x);
    }
  }

  /** What the loop has printed before group `i`: nothing of the first run of zeros until it is over. */
  function Printed(groups: seq<Hextet>, i: nat): string
    requires i <= |groups|
  {
    var z := FirstZero(groups);
    var e := RunEnd(groups, z);
    if i <= z then Colons(groups[..i]) else if i <= e then Colons(groups[..z]) else Double(groups[..z], groups[e..i])
  }

  lemma TakeSnoc(s: seq<Hextet>, lo: nat, i: nat)
    requires lo <= i < |s|
    ensures s[lo..i + 1] == s[lo..i] + [s[i]]
  {
  }

  /** Before the first zero, and after its run, groups are added after a colon. */
  lemma PrintedMore(groups: seq<Hextet>, lo: nat, i: nat)
    requires lo <= i < |groups|
    ensures Colons(groups[lo..i + 1])
         == if lo == i then Hex(groups[i]) else Colons(groups[lo..i]) + ":" + Hex(groups[i])
  {
    TakeSnoc(groups, lo, i);
    ColonsSnoc(groups[lo..i], groups[i]);
  }

  lemma JoinRight(a: string, b: string, h: string)
    ensures a + "::" + (b + ":" + h) == a + "::" + b + ":" + h
    ensures a + "::" + "" + h == a + "::" + h
  {
  }

  /** After the run another group is one more on the right. */
  lemma PrintedRight(groups: seq<Hextet>, i: nat)
    requires RunEnd(groups, FirstZero(groups)) <= i < |groups|
    ensures Printed(groups, i + 1)
         == Printed(groups, i) + (if i == RunEnd(groups, FirstZero(groups)) then "::" else ":") + Hex(groups[i])
  {
    var z := FirstZero(groups);
    var e := RunEnd(groups, z);
    PrintedMore(groups, e, i);
    JoinRight(Colons(groups[..z]), Colons(groups[e..i]), Hex(groups[i]));
  }

  /** Before the run it is one more on the left. */
  lemma PrintedLeft(groups: seq<Hextet>, i: nat)
    requires i < FirstZero(groups)
    ensures Printed(groups, i + 1) == if i == 0 then Hex(groups[i]) else Printed(groups, i) + ":" + Hex(groups[i])
  {
    PrintedMore(groups, 0, i);
    assert groups[0..i] == groups[..i] && groups[0..i + 1] == groups[..i + 1];
  }

  /** In the run nothing is printed. */
  lemma PrintedRun(groups: seq<Hextet>, i: nat)
    requires FirstZero(groups) <= i < RunEnd(groups, FirstZero(groups))
    ensures Printed(groups, i + 1) == Printed(groups, i)
  {
  }

  lemma PrintedStep(groups: seq<Hextet>, i: nat)
    requires i < |groups|
    ensures
      var z := FirstZero(groups);
      var e := RunEnd(groups, z);
      var last := Hex(groups[i]);
      Printed(groups, i + 1) ==
        if z <= i < e then Printed(groups, i)
        else if i == e then Printed(groups, i) + "::" + last
        else if i == 0 then last
        else Printed(groups, i) + ":" + last
  {
    var z := FirstZero(groups);
    if i < z {
      PrintedLeft(groups, i);
    } else if i < RunEnd(groups, z) {
      PrintedRun(groups, i);
    } else {
      PrintedRight(groups, i);
    }
  }

  lemma PrintedAll(groups: seq<Hextet>)
    ensures
      var z := FirstZero(groups);
      Print6(groups) == Printed(groups, |groups|) + if z < |groups| == RunEnd(groups, z) then "::" else ""
  {
    var z := FirstZero(groups);
    assert groups[..|groups|] == groups;
    if z < |groups| {
      var e := RunEnd(groups, z);
      assert groups[e..|groups|] == groups[e..];
      assert e == |groups| ==> groups[e..] == [] && Double(groups[..z], []) == Colons(groups[..z]) + "::";
    }
  }

  lemma Octets(a: Octet, b: Octet, c: Octet, d: Octet)
    ensures
      var addr := ((a * 256 + b) * 256 + c) * 256 + d;
      && addr / 0x100_0000 % 256 == a && addr / 0x1_0000 % 256 == b
      && addr / 256 % 256 == c && addr % 256 == d
  {
  }

  method InsertIPv4(a: Octet, b: Octet, c: Octet, d: Octet, port: Port) returns (os: string)
    ensures os == Print(IPv4(a, b, c, d, port))
  {
    var addr := ((a * 256 + b) * 256 + c) * 256 + d;
    Octets(a, b, c, d);
    Print4Parts(a, b, c, d);
    os := Decimal(addr / 0x100_0000 % 256) + ".";
    os := os + Decimal(addr / 0x1_0000 % 256) + ".";
    os := os + Decimal(addr / 256 % 256) + ".";
    os := os + Decimal(addr % 256);
    os := os + ":" + Decimal(port);
  }

  lemma Print4Parts(a: Octet, b: Octet, c: Octet, d: Octet)
    ensures Decimal(a) + "." + Decimal(b) + "." + Decimal(c) + "." + Decimal(d) == Print4(a, b, c, d)
  {
    var p, q, r := Decimal(a) + ".", Decimal(b) + ".", Decimal(c) + ".";
    assert (p + q) + r + Decimal(d) == p + (q + (r + Decimal(d)));
    assert p + Decimal(b) + "." == p + q;
    assert (p + q) + Decimal(c) + "." == (p + q) + r;
  }

  lemma TwoColons(b: string)
    ensures b + ":" + ":" == b + "::"
  {
  }

  /** The zeros seen so far were a run that is over. */
  ghost predicate Used(groups: seq<Hextet>, i: nat) {
    FirstZero(groups) < RunEnd(groups, FirstZero(groups)) < i
  }

  method InsertGroup(groups: seq<Hextet>, i: nat, body: string, used: bool) returns (text: string, usedZeros: bool)
    requires i < |groups| && (used <==> Used(groups, i)) && body == Printed(groups, i)
    ensures (usedZeros <==> Used(groups, i + 1)) && text == Printed(groups, i + 1)
  {
    PrintedStep(groups, i);
    TwoColons(body);
    text, usedZeros := body, used;
    if groups[i] == 0 && !usedZeros {
      return;
    }
    if i > 0 && groups[i - 1] == 0 && !usedZeros {
      text := text + ":";
      usedZeros := true;
    }
    if i > 0 {
      text := text + ":";
    }
    text := text + Hex(groups[i]);
  }

  method InsertIPv6(groups: seq<Hextet>, port: Port) returns (os: string)
    requires |groups| == 8
    ensures os == Print(IPv6(groups, port))
  {
    var body := "";
    var usedZeros := false;
    for i := 0 to 8
      invariant usedZeros <==> Used(groups, i)
      invariant body == Printed(groups, i)
    {
      body, usedZeros := InsertGroup(groups, i, body, usedZeros);
    }
    PrintedAll(groups);
    if !usedZeros && groups[7] == 0 {
      body := body + "::";
    }
    os := "[" + body;
    os := os + "]:" + Decimal(port);
  }
}
