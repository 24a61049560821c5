/** HS256 tokens: signing, checking and reading the expiry, over HMAC as an unknown function. */
module Jwt {
  import opened Options
  import opened Text
  import opened Base64

  const INT64_MAX := 0x7FFF_FFFF_FFFF_FFFF
  const QUOTE := '\"'

  /** A message authentication code: any function of key and message to nonempty bytes. */
  ghost predicate Mac(hmac: (string, string) -> string) {
    forall k, m :: hmac(k, m) != "" && Bytes(hmac(k, m))
  }

  // ---------- Reading the payload ----------

  function Pattern(key: string): string {
    [QUOTE] + key + [QUOTE]
  }

  /** The text between the first two quotes after the colon after the key. */
  function StringOf(json: string, key: string): Option<string> {
    match After(json, Pattern(key))
    case None => None
    case Some(r) =>
      match After(r, ":")
      case None => None
      case Some(v) => match After(v, [QUOTE]) case None => None case Some(t) => Before(t, QUOTE)
  }

  function BlanksEnd(s: string, i: nat): (e: nat)
    requires i <= |s|
    ensures i <= e <= |s|
    decreases |s| - i
  {
    if i < |s| && (s[i] == ' ' || s[i] == '\t') then BlanksEnd(s, i + 1) else i
  }

  function DigitsEnd(s: string, i: nat): (e: nat)
    requires i <= |s|
    ensures i <= e <= |s| && forall j :: i <= j < e ==> IsDigit(s[j])
    decreases |s| - i
  {
    if i < |s| && IsDigit(s[i]) then DigitsEnd(s, i + 1) else i
  }

  /** `strtoll` on digits saturates. */
  function Saturated(n: nat): nat {
    if n > INT64_MAX then INT64_MAX else n
  }

  /** The digits that follow blanks at the start of a text. */
  function LeadingNumber(text: string): (n: Option<int>)
    ensures n.Some? ==> 0 <= n.value <= INT64_MAX
  {
    var s := BlanksEnd(text, 0);
    var e := DigitsEnd(text, s);
    if e == s then None else Some(Saturated(Number(text[s..e])))
  }

  function NumberOf(json: string, key: string): (n: Option<int>)
    ensures n.Some? ==> 0 <= n.value <= INT64_MAX
  {
    match After(json, Pattern(key))
    case None => None
    case Some(r) => match After(r, ":") case None => None case Some(v) => LeadingNumber(v)
  }

  method ExtractNumber(json: string, key: string) returns (out: Option<int>)
    ensures out == NumberOf(json, key)
  {
    var r := After(json, Pattern(key));
    if r.None? {
      return None;
    }
    var v := After(r.value, ":");
    if v.None? {
      return None;
    }
    var text := v.value;
    var s := 0;
    while s < |text| && (text[s] == ' ' || text[s] == '\t')
      invariant s <= |text| && BlanksEnd(text, s) == BlanksEnd(text, 0)
    {
      s := s + 1;
    }
    var e := s;
    while e < |text| && IsDigit(text[e])
      invariant s <= e <= |text| && DigitsEnd(text, e) == DigitsEnd(text, s)
    {
      e := e + 1;
    }
    if e == s {
      return None;
    }
    out := Some(Saturated(Number(text[s..e])));
  }

  // ---------- The three operations ----------

  const ALGORITHM := "\"alg\":\"HS256\""

  datatype Verdict = Accepted | Rejected(err: string)

  function Part(s: string): string {
    Decode(FromUrl(s))
  }

  /** The checks on a token's decoded parts, in the order that decides the reported error. */
  function Checks(header: string, payload: string, sig: string, mac: string,
                  issuer: string, audience: string, now: int): Verdict
  {
    if header == "" || payload == "" || sig == "" then Rejected("b64")
    else if After(header, ALGORITHM).None? then Rejected("alg")
    else if sig != mac then Rejected("sig")
    else if NumberOf(payload, "exp").Some? && NumberOf(payload, "exp").value < now then Rejected("exp")
    else if issuer != "" && StringOf(payload, "iss") != Some(issuer) then Rejected("iss")
    else if audience != "" && StringOf(payload, "aud") != Some(audience) then Rejected("aud")
    else Accepted
  }

  function Verify(token: string, secret: string, issuer: string, audience: string, now: int,
                  hmac: (string, string) -> string): Verdict
  {
    match (Before(token, '.'), After(token, "."))
    case (Some(h), Some(rest)) => (
      match (Before(rest, '.'), After(rest, "."))
      case (Some(p), Some(s)) =>
        Checks(Part(h), Part(p), Part(s), hmac(secret, h + "." + p), issuer, audience, now)
      case _ => Rejected("format")
    )
    case _ => Rejected("format")
  }

  function GetExp(token: string): (exp: Option<int>)
    ensures exp.Some? ==> 0 <= exp.value
  {
    match After(token, ".")
    case None => None
    case Some(rest) =>
      match Before(rest, '.')
      case None => None
      case Some(p) => if Part(p) == "" then None else NumberOf(Part(p), "exp")
  }

  function ToString(n: int): string {
    if n < 0 then "-" + Decimal(-n) else Decimal(n)
  }

  const HEADER := "{\"alg\":\"HS256\",\"typ\":\"JWT\"}"

  function Payload(issuer: string, audience: string, exp: int): string {
    "{\"iss\":\"" + issuer + "\",\"aud\":\"" + audience + "\",\"exp\":" + ToString(exp) + "}"
  }

  lemma BytesAppend(a: string, b: string)
    requires Bytes(a) && Bytes(b)
    ensures Bytes(a + b)
  {
  }

  lemma PayloadBytes(issuer: string, audience: string, exp: int)
    requires Bytes(issuer) && Bytes(audience)
    ensures Bytes(HEADER) && Bytes(Payload(issuer, audience, exp)) && Payload(issuer, audience, exp) != ""
  {
    var t := "{\"iss\":\"" + issuer;
    BytesAppend("{\"iss\":\"", issuer);
    BytesAppend(t, "\",\"aud\":\"");
    BytesAppend(t + "\",\"aud\":\"", audience);
    var u := t + "\",\"aud\":\"" + audience;
    BytesAppend(u, "\",\"exp\":");
    BytesAppend(u + "\",\"exp\":", ToString(exp));
    BytesAppend(u + "\",\"exp\":" + ToString(exp), "}");
  }

  function SigningInput(issuer: string, audience: string, exp: int): string
    requires Bytes(issuer) && Bytes(audience)
  {
    PayloadBytes(issuer, audience, exp);
    ToUrl(Encode(HEADER)) + "." + ToUrl(Encode(Payload(issuer, audience, exp)))
  }

  function Sign(secret: string, issuer: string, audience: string, exp: int,
                hmac: (string, string) -> string): string
    requires Bytes(issuer) && Bytes(audience) && Bytes(hmac(secret, SigningInput(issuer, audience, exp)))
  {
    var input := SigningInput(issuer, audience, exp);
    input + "." + ToUrl(Encode(hmac(secret, input)))
  }

  // ---------- Searching a text of quoted segments ----------

  /** A segment, a quote, and the rest. */
  function Seg(u: string, w: string): string {
    u + [QUOTE] + w
  }

  lemma MatchAtQuote(seg: string, w: string, key: string)
    requires QUOTE !in seg && QUOTE !in key
    ensures Pattern(key) <= [QUOTE] + Seg(seg, w) <==> seg == key
    ensures ([QUOTE] + Seg(key, w))[|Pattern(key)|..] == w
  {
    var s := [QUOTE] + Seg(seg, w);
    assert s[|seg| + 1] == QUOTE;
    assert seg == key ==> Pattern(key) == s[..|key| + 2];
    if Pattern(key) <= s {
      assert Pattern(key)[|key| + 1] == QUOTE;
      assert forall i :: 0 <= i < |key| ==> Pattern(key)[i + 1] == key[i];
      assert forall i :: 0 <= i < |seg| ==> s[i + 1] == seg[i];
      assert |seg| == |key|;
    }
  }

  /** A quoted key matches exactly a whole segment: the search looks at the next segment, and goes on
      from there when it differs. */
  lemma {:induction false} NextSegment(u: string, seg: string, w: string, key: string)
    requires QUOTE !in u && QUOTE !in seg && QUOTE !in key
    ensures After(Seg(u, Seg(seg, w)), Pattern(key))
         == if seg == key then Some(w) else After(Seg(seg, w), Pattern(key))
  {
    var s := Seg(u, Seg(seg, w));
    if u == "" {
      assert s == [QUOTE] + Seg(seg, w);
      MatchAtQuote(seg, w, key);
      assert s[1..] == Seg(seg, w);
    } else {
      assert s[0] == u[0] && Pattern(key)[0] == QUOTE;
      assert s[1..] == Seg(u[1..], Seg(seg, w));
      NextSegment(u[1..], seg, w, key);
    }
  }

  lemma {:induction false} DigitsEndAt(d: string, w: string, i: nat)
    requires Digits(d) && (w != "" ==> !IsDigit(w[0])) && i <= |d|
    ensures DigitsEnd(d + w, i) == |d|
    decreases |d| - i
  {
    if i < |d| {
      DigitsEndAt(d, w, i + 1);
    } else if w != "" {
      assert (d + w)[i] == w[0];
    }
  }

  /** A printed number is read back, up to the next character. */
  lemma NumberReadBack(exp: int, w: string)
    requires exp <= INT64_MAX && (w != "" ==> !IsDigit(w[0]))
    ensures LeadingNumber(ToString(exp) + w) == if exp < 0 then None else Some(exp)
  {
    var text := ToString(exp) + w;
    if exp >= 0 {
      var d := Decimal(exp);
      assert IsDigit(text[0]);
      DigitsEndAt(d, w, 0);
      assert text[0..|d|] == d;
      DecimalRoundTrip(exp);
    }
  }

  // ---------- The payload as segments ----------

  function FromExp(exp: int): string {
    ":" + ToString(exp) + "}"
  }

  function FromAud(audience: string, exp: int): string {
    Seg(":", Seg(audience, Seg(",", Seg("exp", FromExp(exp)))))
  }

  function FromIss(issuer: string, audience: string, exp: int): string {
    Seg(":", Seg(issuer, Seg(",", Seg("aud", FromAud(audience, exp)))))
  }

  lemma SegAppend(u: string, w: string, x: string)
    ensures Seg(u, w) + x == Seg(u, w + x)
    ensures u + Seg("", w) == Seg(u, w)
  {
  }

  lemma Regroup(a: string, b: string, c: string, d: string, e: string, f: string, g: string)
    ensures a + b + c + d + e + f + g == a + (b + (c + (d + (e + (f + g)))))
  {
    assert (a + b) + c == a + (b + c);
    assert a + (b + c) + d == a + (b + (c + d));
    assert a + (b + (c + d)) + e == a + (b + (c + (d + e)));
    assert a + (b + (c + (d + e))) + f == a + (b + (c + (d + (e + f))));
    assert a + (b + (c + (d + (e + f)))) + g == a + (b + (c + (d + (e + (f + g)))));
  }

  /** The fixed texts between the claims. */
  lemma Literals()
    ensures "{\"iss\":\"" == Seg("{", Seg("iss", Seg(":", "")))
    ensures "\",\"aud\":\"" == Seg("", Seg(",", Seg("aud", Seg(":", ""))))
    ensures "\",\"exp\":" == Seg("", Seg(",", Seg("exp", ":")))
  {
  }

  lemma ExpSegments(exp: int)
    ensures "\",\"exp\":" + (ToString(exp) + "}") == Seg("", Seg(",", Seg("exp", FromExp(exp))))
  {
    var x := ToString(exp) + "}";
    Literals();
    SegAppend("", Seg(",", Seg("exp", ":")), x);
    SegAppend(",", Seg("exp", ":"), x);
    SegAppend("exp", ":", x);
    assert ":" + x == FromExp(exp);
  }

  lemma AudSegments(audience: string, exp: int, x: string)
    requires x == audience + Seg("", Seg(",", Seg("exp", FromExp(exp))))
    ensures "\",\"aud\":\"" + x == Seg("", Seg(",", Seg("aud", FromAud(audience, exp))))
  {
    Literals();
    SegAppend("", Seg(",", Seg("aud", Seg(":", ""))), x);
    SegAppend(",", Seg("aud", Seg(":", "")), x);
    SegAppend("aud", Seg(":", ""), x);
    SegAppend(":", "", x);
    SegAppend(audience, Seg(",", Seg("exp", FromExp(exp))), "");
    assert "" + x == x;
  }

  lemma IssSegments(issuer: string, audience: string, exp: int, x: string)
    requires x == issuer + Seg("", Seg(",", Seg("aud", FromAud(audience, exp))))
    ensures "{\"iss\":\"" + x == Seg("{", Seg("iss", FromIss(issuer, audience, exp)))
  {
    Literals();
    SegAppend("{", Seg("iss", Seg(":", "")), x);
    SegAppend("iss", Seg(":", ""), x);
    SegAppend(":", "", x);
    SegAppend(issuer, Seg(",", Seg("aud", FromAud(audience, exp))), "");
    assert "" + x == x;
  }

  lemma PayloadSegments(issuer: string, audience: string, exp: int)
    ensures Payload(issuer, audience, exp) == Seg("{", Seg("iss", FromIss(issuer, audience, exp)))
  {
    Regroup("{\"iss\":\"", issuer, "\",\"aud\":\"", audience, "\",\"exp\":", ToString(exp), "}");
    ExpSegments(exp);
    var a := audience + ("\",\"exp\":" + (ToString(exp) + "}"));
    AudSegments(audience, exp, a);
    IssSegments(issuer, audience, exp, issuer + ("\",\"aud\":\"" + a));
  }
}
