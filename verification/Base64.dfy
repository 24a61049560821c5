/** Base64 (section 4 of RFC 4648) and its URL form without padding (section 5 of RFC 4648, section 2
    of RFC 7515). */
module Base64 {
  import opened Options
  import opened Text

  /** Table 1 of RFC 4648. */
  function Letter(n: nat): (c: char)
    requires n < 64
    ensures c != '=' && c != '-' && c != '_' && c != '.'
  {
    if n < 26 then ('A' as int + n) as char
    else if n < 52 then ('a' as int + (n - 26)) as char
    else if n < 62 then ('0' as int + (n - 52)) as char
    else if n == 62 then '+' else '/'
  }

  function Value(c: char): (v: Option<nat>)
    ensures v.Some? ==> v.value < 64
  {
    if 'A' <= c <= 'Z' then Some(c as int - 'A' as int)
    else if 'a' <= c <= 'z' then Some(c as int - 'a' as int + 26)
    else if '0' <= c <= '9' then Some(c as int - '0' as int + 52)
    else if c == '+' then Some(62) else if c == '/' then Some(63) else None
  }

  lemma ValueOfLetter(n: nat)
    requires n < 64
    ensures Value(Letter(n)) == Some(n)
  {
    var c := Letter(n);
    assert n < 26 ==> 'A' <= c <= 'Z';
    assert 26 <= n < 52 ==> 'a' <= c <= 'z';
  }

  type Byte = n: int | 0 <= n < 256

  /** Neither padding, nor a URL character, nor the dot that separates the parts of a token. */
  predicate Letters(s: string) {
    forall i :: 0 <= i < |s| ==> s[i] != '=' && s[i] != '-' && s[i] != '_' && s[i] != '.'
  }

  /** The letters of a group of one, two or three bytes, before padding. */
  function Group(a: Byte, b: Option<Byte>, c: Option<Byte>): (g: string)
    requires c.Some? ==> b.Some?
    ensures Letters(g) && 2 <= |g| <= 4
  {
    match b
    case None => [Letter(a / 4), Letter(a % 4 * 16)]
    case Some(y) =>
      match c
      case None => [Letter(a / 4), Letter(a % 4 * 16 + y / 16), Letter(y % 16 * 4)]
      case Some(z) => [Letter(a / 4), Letter(a % 4 * 16 + y / 16), Letter(y % 16 * 4 + z / 64), Letter(z % 64)]
  }

  function Unpadded(d: string): string
    requires Bytes(d)
  {
    if d == "" then ""
    else if |d| == 1 then Group(d[0] as int, None, None)
    else if |d| == 2 then Group(d[0] as int, Some(d[1] as int), None)
    else Group(d[0] as int, Some(d[1] as int), Some(d[2] as int)) + Unpadded(d[3..])
  }

  /** The `=` signs that bring a length to a multiple of four. */
  function Padding(length: nat): (p: string)
    ensures (length + |p|) % 4 == 0 && forall i :: 0 <= i < |p| ==> p[i] == '='
  {
    if length % 4 == 0 then "" else if length % 4 == 1 then "===" else if length % 4 == 2 then "==" else "="
  }

  function Encode(d: string): string
    requires Bytes(d)
  {
    Unpadded(d) + Padding(|Unpadded(d)|)
  }

  /** The bytes of four characters; padding only at the end. */
  function Bytes4(s: string): Option<string>
    requires |s| == 4
  {
    match (Value(s[0]), Value(s[1]), Value(s[2]), Value(s[3]))
    case (Some(w), Some(x), Some(y), Some(z)) =>
      Some([(w * 4 + x / 16) as char, (x % 16 * 16 + y / 4) as char, (y % 4 * 64 + z) as char])
    case (Some(w), Some(x), Some(y), None) =>
      if s[3] == '=' then Some([(w * 4 + x / 16) as char, (x % 16 * 16 + y / 4) as char]) else None
    case (Some(w), Some(x), None, None) =>
      if s[2] == '=' && s[3] == '=' then Some([(w * 4 + x / 16) as char]) else None
    case _ => None
  }

  function DecodeAll(s: string): Option<string> {
    if s == "" then Some("")
    else if |s| < 4 then None
    else match Bytes4(s[..4])
      case None => None
      case Some(d) =>
        if |d| < 3 && |s| > 4 then None
        else match DecodeAll(s[4..]) case None => None case Some(rest) => Some(d + rest)
  }

  /** Text outside section 4 of RFC 4648 decodes to nothing. */
  function Decode(s: string): string {
    match DecodeAll(s) case None => "" case Some(d) => d
  }

  // ---------- The URL form ----------

  function FromUrlChar(c: char): char {
    if c == '-' then '+' else if c == '_' then '/' else c
  }

  function ToUrlChar(c: char): char {
    if c == '+' then '-' else if c == '/' then '_' else c
  }

  function Each(f: char -> char, s: string): (t: string)
    ensures |t| == |s| && forall i :: 0 <= i < |s| ==> t[i] == f(s[i])
  {
    if s == "" then "" else [f(s[0])] + Each(f, s[1..])
  }

  function Stripped(s: string): string {
    if s != "" && s[|s| - 1] == '=' then Stripped(s[..|s| - 1]) else s
  }

  function FromUrl(s: string): string {
    Each(FromUrlChar, s) + Padding(|s|)
  }

  function ToUrl(s: string): string {
    Stripped(Each(ToUrlChar, s))
  }

  method B64UrlToB64(input: string) returns (out: string)
    ensures out == FromUrl(input)
  {
    out := input;
    for i := 0 to |out|
      invariant |out| == |input|
      invariant forall j :: 0 <= j < |out| ==> out[j] == if j < i then FromUrlChar(input[j]) else input[j]
    {
      if out[i] == '-' {
        out := out[i := '+'];
      } else if out[i] == '_' {
        out := out[i := '/'];
      }
    }
    assert out == Each(FromUrlChar, input);
    while |out| % 4 != 0
      invariant |input| <= |out| <= |input| + |Padding(|input|)|
      invariant out == Each(FromUrlChar, input) + Padding(|input|)[..|out| - |input|]
      decreases |input| + 4 - |out|
    {
      out := out + ['='];
    }
  }

  method B64ToB64Url(input: string) returns (out: string)
    ensures out == ToUrl(input)
  {
    out := input;
    for i := 0 to |out|
      invariant |out| == |input|
      invariant forall j :: 0 <= j < |out| ==> out[j] == if j < i then ToUrlChar(input[j]) else input[j]
    {
      if out[i] == '+' {
        out := out[i := '-'];
      } else if out[i] == '/' {
        out := out[i := '_'];
      }
    }
    assert out == Each(ToUrlChar, input);
    while out != "" && out[|out| - 1] == '='
      invariant Stripped(out) == ToUrl(input)
      decreases |out|
    {
      out := out[..|out| - 1];
    }
  }

  lemma {:induction false} StrippedMeans(s: string)
    ensures var t := Stripped(s);
      && |t| <= |s| && t == s[..|t|] && (t != "" ==> t[|t| - 1] != '=')
      && forall i :: |t| <= i < |s| ==> s[i] == '='
  {
    if s != "" && s[|s| - 1] == '=' {
      StrippedMeans(s[..|s| - 1]);
    }
  }

  /** To the URL form: the signs at the end go, and the two characters are replaced in the rest. */
  lemma ToUrlMeans(s: string)
    ensures var t := ToUrl(s);
      && |t| <= |s| && (t != "" ==> t[|t| - 1] != '=')
      && (forall i :: |t| <= i < |s| ==> s[i] == '=')
      && forall i :: 0 <= i < |t| ==> t[i] == if s[i] == '+' then '-' else if s[i] == '/' then '_' else s[i]
  {
    StrippedMeans(Each(ToUrlChar, s));
  }

  /** ... and back: the characters are replaced, and signs fill the text up to a multiple of four. */
  lemma FromUrlMeans(s: string)
    ensures var t := FromUrl(s);
      && |t| % 4 == 0 && |s| <= |t| <= |s| + 3
      && (forall i :: |s| <= i < |t| ==> t[i] == '=')
      && forall i :: 0 <= i < |s| ==> t[i] == if s[i] == '-' then '+' else if s[i] == '_' then '/' else s[i]
  {
  }

  // ---------- The encoding ----------

  /** Four letters and the numbers they stand for. */
  predicate Four(g: string, w: int, x: int, y: int, z: int) {
    && 0 <= w < 64 && 0 <= x < 64 && 0 <= y < 64 && 0 <= z < 64
    && g == [Letter(w), Letter(x), Letter(y), Letter(z)]
  }

  /** The letters of a group are the digits to base 64 of its bytes as a number to base 256, with zero bits
      after a group that is short. */
  lemma GroupMeans(a: Byte, b: Byte, c: Byte)
    ensures exists w, x, y, z :: Four(Group(a, Some(b), Some(c)), w, x, y, z)
                              && w * 262144 + x * 4096 + y * 64 + z == a * 65536 + b * 256 + c
    ensures exists w, x, y :: Four(Group(a, Some(b), None) + "A", w, x, y, 0)
                           && w * 4096 + x * 64 + y == (a * 256 + b) * 4
    ensures exists w, x :: Four(Group(a, None, None) + "AA", w, x, 0, 0) && w * 64 + x == a * 16
  {
    assert Four(Group(a, Some(b), Some(c)), a / 4, a % 4 * 16 + b / 16, b % 16 * 4 + c / 64, c % 64);
    assert Four(Group(a, Some(b), None) + "A", a / 4, a % 4 * 16 + b / 16, b % 16 * 4, 0);
    assert Four(Group(a, None, None) + "AA", a / 4, a % 4 * 16, 0, 0);
  }

  /** An encoding is group after group of three bytes, the last one padded to four characters. */
  lemma EncodeMeans(d: string)
    requires Bytes(d)
    ensures d == "" ==> Encode(d) == ""
    ensures |d| == 1 ==> Encode(d) == Group(d[0] as int, None, None) + "=="
    ensures |d| == 2 ==> Encode(d) == Group(d[0] as int, Some(d[1] as int), None) + "="
    ensures |d| >= 3 ==>
      Encode(d) == Group(d[0] as int, Some(d[1] as int), Some(d[2] as int)) + Encode(d[3..])
  {
    if |d| >= 3 {
      EncodeStep(d);
    }
  }

  /** Section 10 of RFC 4648 ... */
  lemma Vectors()
    ensures Encode("f") == "Zg==" && Encode("fo") == "Zm8=" && Encode("foo") == "Zm9v"
  {
    EncodeMeans("f");
    EncodeMeans("fo");
    EncodeMeans("foo");
    assert "foo"[3..] == "";
  }

  /** ... and the last two letters of the alphabet. */
  lemma LastLetters()
    ensures Encode([251 as char, 255 as char]) == "+/8="
  {
    EncodeMeans([251 as char, 255 as char]);
  }

  // ---------- What decodes ----------

  /** A letter, or padding in one of the last two places. */
  predicate Proper(s: string, i: nat)
    requires i < |s|
  {
    Value(s[i]).Some? || (s[i] == '=' && |s| - 2 <= i)
  }

  /** Only whole groups of letters decode, with padding nowhere but in the last two places, and ... */
  lemma {:induction false} OnlyGroupsDecode(s: string, i: nat)
    requires DecodeAll(s).Some? && i < |s|
    ensures Proper(s, i)
  {
    FirstGroup(s);
    if i >= 4 {
      OnlyGroupsDecode(s[4..], i - 4);
    }
    ProperParts(s, i);
  }

  /** ... every group but the last gives three bytes. */
  lemma {:induction false} DecodedLength(s: string)
    requires DecodeAll(s).Some?
    ensures |s| % 4 == 0 && (s != "" ==> |s| / 4 * 3 - 2 <= |DecodeAll(s).value| <= |s| / 4 * 3)
  {
    if s != "" {
      var rest := s[4..];
      FirstGroup(s);
      DecodedLength(rest);
      FourMore(|s|, |rest|);
    }
  }

  lemma FourMore(n: nat, m: nat)
    requires n == m + 4 && m % 4 == 0
    ensures n % 4 == 0 && n / 4 == m / 4 + 1
  {
  }

  lemma FirstGroup(s: string)
    requires s != "" && DecodeAll(s).Some?
    ensures |s| >= 4 && Bytes4(s[..4]).Some? && DecodeAll(s[4..]).Some?
    ensures 1 <= |Bytes4(s[..4]).value| <= 3 && (|s| > 4 ==> |Bytes4(s[..4]).value| == 3)
    ensures |DecodeAll(s).value| == |Bytes4(s[..4]).value| + |DecodeAll(s[4..]).value|
  {
  }

  lemma ProperParts(s: string, i: nat)
    requires i < |s| && |s| >= 4 && Bytes4(s[..4]).Some? && (|s| > 4 ==> |Bytes4(s[..4]).value| == 3)
    requires i >= 4 ==> Proper(s[4..], i - 4)
    ensures Proper(s, i)
  {
    if i < 4 {
      GroupDecodes(s[..4]);
      assert s[i] == s[..4][i] && Proper(s[..4], i);
    }
  }

  lemma GroupDecodes(g: string)
    requires |g| == 4 && Bytes4(g).Some?
    ensures forall i :: 0 <= i < 4 ==> Proper(g, i)
    ensures 1 <= |Bytes4(g).value| <= 3
    ensures |Bytes4(g).value| == 3 ==> forall i :: 0 <= i < 4 ==> Value(g[i]).Some?
  {
  }

  // ---------- Round trips ----------

  lemma LettersAppend(g: string, u: string)
    requires Letters(g) && |g| == 4 && Letters(u) && |u| % 4 != 1
    ensures Letters(g + u) && |g + u| % 4 != 1 && g + u != ""
  {
  }

  lemma {:induction false} UnpaddedLetters(d: string)
    requires Bytes(d)
    ensures Letters(Unpadded(d)) && |Unpadded(d)| % 4 != 1 && (d != "" ==> Unpadded(d) != "")
  {
    if |d| >= 3 {
      UnpaddedLetters(d[3..]);
      LettersAppend(Group(d[0] as int, Some(d[1] as int), Some(d[2] as int)), Unpadded(d[3..]));
    } else if d != "" {
      assert Unpadded(d) == Group(d[0] as int, if |d| == 2 then Some(d[1] as int) else None, None);
    }
  }

  /** Three bytes survive four letters. */
  lemma WholeGroup(a: Byte, b: Byte, c: Byte)
    ensures Bytes4(Group(a, Some(b), Some(c))) == Some([a as char, b as char, c as char])
  {
    var w, x, y, z := a / 4, a % 4 * 16 + b / 16, b % 16 * 4 + c / 64, c % 64;
    assert w * 4 + x / 16 == a && x % 16 * 16 + y / 4 == b && y % 4 * 64 + z == c;
    FourLetters(w, x, y, z);
  }

  lemma FourLetters(w: nat, x: nat, y: nat, z: nat)
    requires w < 64 && x < 64 && y < 64 && z < 64
    ensures Bytes4([Letter(w), Letter(x), Letter(y), Letter(z)])
         == Some([(w * 4 + x / 16) as char, (x % 16 * 16 + y / 4) as char, (y % 4 * 64 + z) as char])
  {
    ValueOfLetter(w);
    ValueOfLetter(x);
    ValueOfLetter(y);
    ValueOfLetter(z);
  }

  lemma ShortGroups(a: Byte, b: Byte)
    ensures Bytes4(Group(a, None, None) + "==") == Some([a as char])
    ensures Bytes4(Group(a, Some(b), None) + "=") == Some([a as char, b as char])
  {
    ValueOfLetter(a / 4);
    ValueOfLetter(a % 4 * 16);
    ValueOfLetter(a % 4 * 16 + b / 16);
    ValueOfLetter(b % 16 * 4);
  }

  /** The last group may be short. */
  lemma LastGroup(s: string, d: string)
    requires |s| == 4 && Bytes4(s) == Some(d)
    ensures DecodeAll(s) == Some(d)
  {
    assert s[..4] == s && s[4..] == "" && DecodeAll(s[4..]) == Some("");
    assert d + "" == d;
  }

  lemma MoreGroups(s: string, d: string, rest: string)
    requires |s| >= 4 && Bytes4(s[..4]) == Some(d) && |d| == 3 && DecodeAll(s[4..]) == Some(rest)
    ensures DecodeAll(s) == Some(d + rest)
  {
  }

  lemma PrependGroup(g: string, u: string)
    requires |g| == 4
    ensures var e := (g + u) + Padding(|g + u|); e[..4] == g && e[4..] == u + Padding(|u|)
  {
  }

  lemma EncodeStep(d: string)
    requires Bytes(d) && |d| >= 3
    ensures var e := Encode(d);
      |e| >= 4 && e[..4] == Group(d[0] as int, Some(d[1] as int), Some(d[2] as int)) && e[4..] == Encode(d[3..])
  {
    var g := Group(d[0] as int, Some(d[1] as int), Some(d[2] as int));
    assert Unpadded(d) == g + Unpadded(d[3..]);
    PrependGroup(g, Unpadded(d[3..]));
  }

  lemma LastRoundTrip(d: string)
    requires Bytes(d) && 1 <= |d| <= 2
    ensures DecodeAll(Encode(d)) == Some(d)
  {
    var g := Group(d[0] as int, if |d| == 2 then Some(d[1] as int) else None, None);
    assert Unpadded(d) == g;
    ShortGroups(d[0] as int, if |d| == 2 then d[1] as int else 0);
    assert d == if |d| == 2 then [d[0], d[1]] else [d[0]];
    LastGroup(g + Padding(|g|), d);
  }

  lemma StepRoundTrip(d: string)
    requires Bytes(d) && |d| >= 3 && DecodeAll(Encode(d[3..])) == Some(d[3..])
    ensures DecodeAll(Encode(d)) == Some(d)
  {
    EncodeStep(d);
    WholeGroup(d[0] as int, d[1] as int, d[2] as int);
    MoreGroups(Encode(d), [d[0], d[1], d[2]], d[3..]);
    assert d == [d[0], d[1], d[2]] + d[3..];
  }

  lemma {:induction false} EncodeRoundTrip(d: string)
    requires Bytes(d)
    ensures DecodeAll(Encode(d)) == Some(d)
  {
    if d == "" {
    } else if |d| < 3 {
      LastRoundTrip(d);
    } else {
      EncodeRoundTrip(d[3..]);
      StepRoundTrip(d);
    }
  }

  lemma {:induction false} StrippedPadding(s: string, p: string)
    requires (s != "" ==> s[|s| - 1] != '=') && forall i :: 0 <= i < |p| ==> p[i] == '='
    ensures Stripped(s + p) == s
  {
    if p == "" {
      assert s + p == s;
    } else {
      assert (s + p)[..|s + p| - 1] == s + p[..|p| - 1];
      StrippedPadding(s, p[..|p| - 1]);
    }
  }

  /** The URL form of an encoding is its letters with the two URL characters and no padding. */
  lemma UrlOfEncoding(d: string)
    requires Bytes(d)
    ensures ToUrl(Encode(d)) == Each(ToUrlChar, Unpadded(d))
    ensures '.' !in ToUrl(Encode(d)) && '=' !in ToUrl(Encode(d))
    ensures d != "" ==> ToUrl(Encode(d)) != ""
  {
    UnpaddedLetters(d);
    var u := Unpadded(d);
    var p := Padding(|u|);
    var t := Each(ToUrlChar, u);
    assert Each(ToUrlChar, u + p) == t + p;
    StrippedPadding(t, p);
  }

  lemma {:induction false} EachBack(u: string)
    requires Letters(u)
    ensures Each(FromUrlChar, Each(ToUrlChar, u)) == u
  {
    if u != "" {
      var t := Each(ToUrlChar, u);
      assert t[0] == ToUrlChar(u[0]) && t[1..] == Each(ToUrlChar, u[1..]);
      EachBack(u[1..]);
      assert u == [u[0]] + u[1..];
    }
  }

  /** Stripping, URL characters, padding back and decoding return the original bytes. */
  lemma UrlRoundTrip(d: string)
    requires Bytes(d)
    ensures Decode(FromUrl(ToUrl(Encode(d)))) == d
  {
    UrlOfEncoding(d);
    UnpaddedLetters(d);
    EachBack(Unpadded(d));
    EncodeRoundTrip(d);
  }
}
