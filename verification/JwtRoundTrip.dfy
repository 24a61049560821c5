/** What checking and reading make of a signed token, for every issuer, audience and expiry. */
module JwtRoundTrip {
  import opened Options
  import opened Text
  import opened Base64
  import opened Jwt

  /** A claim of text after a key, a separator without colons and a colon. */
  lemma StringAt(json: string, key: string, r: string, u: string, v: string, w: string)
    requires After(json, Pattern(key)) == Some(r) && r == u + ":" + ([QUOTE] + Seg(v, w))
    requires ':' !in u && QUOTE !in v
    ensures StringOf(json, key) == Some(v)
  {
    AfterChar(u, ':', [QUOTE] + Seg(v, w));
    assert "" + [QUOTE] + Seg(v, w) == [QUOTE] + Seg(v, w);
    AfterChar("", QUOTE, Seg(v, w));
    AfterChar(v, QUOTE, w);
  }

  lemma NumberAt(json: string, key: string, r: string, u: string, v: string)
    requires After(json, Pattern(key)) == Some(r) && r == u + ":" + v && ':' !in u
    ensures NumberOf(json, key) == LeadingNumber(v)
  {
    AfterChar(u, ':', v);
  }

  function IssRest(audience: string, exp: int): string {
    Seg(",", Seg("aud", FromAud(audience, exp)))
  }

  function AudRest(exp: int): string {
    Seg(",", Seg("exp", FromExp(exp)))
  }

  /** Each rest of the payload is a separator without colons, a colon, and the next value. */
  lemma Shapes(issuer: string, audience: string, exp: int)
    ensures FromIss(issuer, audience, exp) == "" + ":" + ([QUOTE] + Seg(issuer, IssRest(audience, exp)))
    ensures FromAud(audience, exp) == "" + ":" + ([QUOTE] + Seg(audience, AudRest(exp)))
    ensures FromExp(exp) == "" + ":" + (ToString(exp) + "}")
    ensures IssRest(audience, exp) == ",\"aud\"" + ":" + ([QUOTE] + Seg(audience, AudRest(exp)))
    ensures AudRest(exp) == ",\"exp\"" + ":" + (ToString(exp) + "}")
  {
  }

  lemma IssClaim(issuer: string, audience: string, exp: int)
    requires QUOTE !in issuer
    ensures StringOf(Payload(issuer, audience, exp), "iss") == Some(issuer)
  {
    var r := FromIss(issuer, audience, exp);
    PayloadSegments(issuer, audience, exp);
    NextSegment("{", "iss", r, "iss");
    Shapes(issuer, audience, exp);
    StringAt(Payload(issuer, audience, exp), "iss", r, "", issuer, IssRest(audience, exp));
  }

  /** A search for another key reaches the issuer's value. */
  lemma PastIss(issuer: string, audience: string, exp: int, key: string)
    requires QUOTE !in issuer && QUOTE !in key && key != "iss" && key != ":"
    ensures After(Payload(issuer, audience, exp), Pattern(key))
         == if issuer == key then Some(IssRest(audience, exp))
            else After(Seg(issuer, IssRest(audience, exp)), Pattern(key))
  {
    PayloadSegments(issuer, audience, exp);
    NextSegment("{", "iss", FromIss(issuer, audience, exp), key);
    NextSegment("iss", ":", Seg(issuer, IssRest(audience, exp)), key);
    NextSegment(":", issuer, IssRest(audience, exp), key);
  }

  /** An issuer named "aud" is taken for the key; the colon found is then the one after the key. */
  lemma AudBehindIss(audience: string, exp: int)
    requires QUOTE !in audience
    ensures StringOf(Payload("aud", audience, exp), "aud") == Some(audience)
  {
    PastIss("aud", audience, exp, "aud");
    Shapes("aud", audience, exp);
    StringAt(Payload("aud", audience, exp), "aud", IssRest(audience, exp), ",\"aud\"", audience, AudRest(exp));
  }

  lemma AudClaim(issuer: string, audience: string, exp: int)
    requires QUOTE !in issuer && QUOTE !in audience
    ensures StringOf(Payload(issuer, audience, exp), "aud") == Some(audience)
  {
    if issuer == "aud" {
      AudBehindIss(audience, exp);
    } else {
      PastIss(issuer, audience, exp, "aud");
      NextSegment(issuer, ",", Seg("aud", FromAud(audience, exp)), "aud");
      NextSegment(",", "aud", FromAud(audience, exp), "aud");
      Shapes(issuer, audience, exp);
      StringAt(Payload(issuer, audience, exp), "aud", FromAud(audience, exp), "", audience, AudRest(exp));
    }
  }

  /** A search for the expiry passes the audience, unless the issuer was taken for its key. */
  lemma PastAud(issuer: string, audience: string, exp: int)
    requires QUOTE !in issuer && QUOTE !in audience && issuer != "exp"
    ensures After(Payload(issuer, audience, exp), Pattern("exp"))
         == if audience == "exp" then Some(AudRest(exp)) else Some(FromExp(exp))
  {
    PastIss(issuer, audience, exp, "exp");
    NextSegment(issuer, ",", Seg("aud", FromAud(audience, exp)), "exp");
    NextSegment(",", "aud", FromAud(audience, exp), "exp");
    NextSegment("aud", ":", Seg(audience, AudRest(exp)), "exp");
    NextSegment(":", audience, AudRest(exp), "exp");
    NextSegment(audience, ",", Seg("exp", FromExp(exp)), "exp");
    NextSegment(",", "exp", FromExp(exp), "exp");
  }

  /** An issuer named "exp" is taken for the key, and no number follows the colon found then. */
  lemma ExpBehindIss(audience: string, exp: int)
    requires QUOTE !in audience
    ensures NumberOf(Payload("exp", audience, exp), "exp") == None
  {
    PastIss("exp", audience, exp, "exp");
    var t := [QUOTE] + Seg(audience, AudRest(exp));
    Shapes("exp", audience, exp);
    NumberAt(Payload("exp", audience, exp), "exp", IssRest(audience, exp), ",\"aud\"", t);
    assert BlanksEnd(t, 0) == 0 && DigitsEnd(t, 0) == 0;
  }

  lemma ExpBehindAud(issuer: string, exp: int)
    requires QUOTE !in issuer && issuer != "exp"
    ensures NumberOf(Payload(issuer, "exp", exp), "exp") == LeadingNumber(ToString(exp) + "}")
  {
    var v := ToString(exp) + "}";
    PastAud(issuer, "exp", exp);
    Shapes(issuer, "exp", exp);
    NumberAt(Payload(issuer, "exp", exp), "exp", AudRest(exp), ",\"exp\"", v);
  }

  lemma ExpInPlace(issuer: string, audience: string, exp: int)
    requires QUOTE !in issuer && QUOTE !in audience && issuer != "exp" && audience != "exp"
    ensures NumberOf(Payload(issuer, audience, exp), "exp") == LeadingNumber(ToString(exp) + "}")
  {
    var v := ToString(exp) + "}";
    PastAud(issuer, audience, exp);
    Shapes(issuer, audience, exp);
    NumberAt(Payload(issuer, audience, exp), "exp", FromExp(exp), "", v);
  }

  /** The expiry is read back exactly when the issuer does not look like its key and it is not
      negative: the digits of a negative number follow a sign the reader does not accept. */
  lemma ExpClaim(issuer: string, audience: string, exp: int)
    requires QUOTE !in issuer && QUOTE !in audience && exp <= INT64_MAX
    ensures NumberOf(Payload(issuer, audience, exp), "exp")
         == if issuer == "exp" || exp < 0 then None else Some(exp)
  {
    NumberReadBack(exp, "}");
    if issuer == "exp" {
      ExpBehindIss(audience, exp);
    } else if audience == "exp" {
      ExpBehindAud(issuer, exp);
    } else {
      ExpInPlace(issuer, audience, exp);
    }
  }

  lemma SplitToken(h: string, p: string, s: string)
    requires '.' !in h && '.' !in p
    ensures var token := h + "." + p + "." + s;
      && Before(token, '.') == Some(h) && After(token, ".") == Some(p + "." + s)
      && Before(p + "." + s, '.') == Some(p) && After(p + "." + s, ".") == Some(s)
  {
    assert h + "." + p + "." + s == h + "." + (p + "." + s);
    AfterChar(h, '.', p + "." + s);
    AfterChar(p, '.', s);
  }

  lemma HeaderNamesAlgorithm()
    ensures HEADER != "" && After(HEADER, ALGORITHM).Some?
  {
    var rest := ",\"typ\":\"JWT\"}";
    assert HEADER == "{" + ALGORITHM + rest;
    AfterOne('{', ALGORITHM, rest);
  }

  /** A pattern right after one character that does not start it is found there. */
  lemma AfterOne(c: char, pat: string, rest: string)
    requires pat != "" && pat[0] != c
    ensures After([c] + pat + rest, pat) == Some(rest)
  {
    var s := [c] + pat + rest;
    assert s[0] == c && s[1..] == pat + rest;
    assert pat <= s[1..] && s[1..][|pat|..] == rest;
  }

  /** The parts of a signed token decode to what was signed. */
  lemma SignedParts(secret: string, issuer: string, audience: string, exp: int, hmac: (string, string) -> string)
    requires Bytes(issuer) && Bytes(audience) && Mac(hmac)
    ensures Bytes(HEADER) && Bytes(Payload(issuer, audience, exp))
    ensures
      var token := Sign(secret, issuer, audience, exp, hmac);
      var h, p := ToUrl(Encode(HEADER)), ToUrl(Encode(Payload(issuer, audience, exp)));
      var mac := hmac(secret, SigningInput(issuer, audience, exp));
      var s := ToUrl(Encode(mac));
      && Before(token, '.') == Some(h) && After(token, ".") == Some(p + "." + s)
      && Before(p + "." + s, '.') == Some(p) && After(p + "." + s, ".") == Some(s)
      && Part(h) == HEADER && Part(p) == Payload(issuer, audience, exp) && Part(s) == mac
  {
    PayloadBytes(issuer, audience, exp);
    var mac := hmac(secret, SigningInput(issuer, audience, exp));
    UrlOfEncoding(HEADER);
    UrlOfEncoding(Payload(issuer, audience, exp));
    SplitToken(ToUrl(Encode(HEADER)), ToUrl(Encode(Payload(issuer, audience, exp))), ToUrl(Encode(mac)));
    UrlRoundTrip(HEADER);
    UrlRoundTrip(Payload(issuer, audience, exp));
    UrlRoundTrip(mac);
  }

  lemma SignedVerdict(secret: string, issuer: string, audience: string, exp: int, hmac: (string, string) -> string,
                      secret': string, issuer': string, audience': string, now: int)
    requires Bytes(issuer) && Bytes(audience) && Mac(hmac)
    ensures
      var input := SigningInput(issuer, audience, exp);
      Verify(Sign(secret, issuer, audience, exp, hmac), secret', issuer', audience', now, hmac)
        == Checks(HEADER, Payload(issuer, audience, exp), hmac(secret, input), hmac(secret', input),
                  issuer', audience', now)
  {
    SignedParts(secret, issuer, audience, exp, hmac);
  }

  lemma ChecksAccept(header: string, payload: string, sig: string, mac: string, issuer: string, audience: string,
                     now: int, exp: Option<int>, iss: string, aud: string)
    requires header != "" && payload != "" && sig != "" && After(header, ALGORITHM).Some?
    requires NumberOf(payload, "exp") == exp
    requires StringOf(payload, "iss") == Some(iss) && StringOf(payload, "aud") == Some(aud)
    ensures Checks(header, payload, sig, mac, issuer, audience, now).Accepted? <==>
      && sig == mac && (exp.Some? ==> now <= exp.value)
      && (issuer == "" || issuer == iss) && (audience == "" || audience == aud)
  {
  }

  /** A signed token is accepted exactly when the secret gives the same code, the expiry is not past
      (or cannot be read), and the expected issuer and audience are absent or the signed ones. */
  lemma SignVerify(secret: string, issuer: string, audience: string, exp: int, hmac: (string, string) -> string,
                   secret': string, issuer': string, audience': string, now: int)
    requires Bytes(issuer) && Bytes(audience) && QUOTE !in issuer && QUOTE !in audience
    requires exp <= INT64_MAX && Mac(hmac)
    ensures
      var input := SigningInput(issuer, audience, exp);
      var token := Sign(secret, issuer, audience, exp, hmac);
      Verify(token, secret', issuer', audience', now, hmac).Accepted? <==>
        && hmac(secret', input) == hmac(secret, input)
        && (issuer == "exp" || exp < 0 || now <= exp)
        && (issuer' == "" || issuer' == issuer)
        && (audience' == "" || audience' == audience)
  {
    SignedVerdict(secret, issuer, audience, exp, hmac, secret', issuer', audience', now);
    PayloadBytes(issuer, audience, exp);
    HeaderNamesAlgorithm();
    IssClaim(issuer, audience, exp);
    AudClaim(issuer, audience, exp);
    ExpClaim(issuer, audience, exp);
    var input := SigningInput(issuer, audience, exp);
    ChecksAccept(HEADER, Payload(issuer, audience, exp), hmac(secret, input), hmac(secret', input), issuer', audience',
                 now, if issuer == "exp" || exp < 0 then None else Some(exp), issuer, audience);
  }

  /** The signed expiry is read back, unless negative or hidden behind an issuer named as its key. */
  lemma SignGetExp(secret: string, issuer: string, audience: string, exp: int, hmac: (string, string) -> string)
    requires Bytes(issuer) && Bytes(audience) && QUOTE !in issuer && QUOTE !in audience
    requires exp <= INT64_MAX && Mac(hmac)
    ensures GetExp(Sign(secret, issuer, audience, exp, hmac))
         == if issuer == "exp" || exp < 0 then None else Some(exp)
  {
    SignedParts(secret, issuer, audience, exp, hmac);
    PayloadBytes(issuer, audience, exp);
    ExpClaim(issuer, audience, exp);
  }

  lemma ChecksAnyTime(header: string, payload: string, sig: string, mac: string, issuer: string, audience: string,
                    now: int, other: int)
    requires Checks(header, payload, sig, mac, issuer, audience, now).Accepted?
    ensures Checks(header, payload, sig, mac, issuer, audience, other).Accepted?
        <==> (NumberOf(payload, "exp").Some? ==> other <= NumberOf(payload, "exp").value)
    ensures payload != "" && (NumberOf(payload, "exp").Some? ==> now <= NumberOf(payload, "exp").value)
  {
  }

  /** What `get_exp` reads decides the expiry check: an accepted token with a readable expiry has not
      expired, and a readable expiry that is not past never causes a rejection by itself. */
  lemma ExpDecides(token: string, secret: string, issuer: string, audience: string, now: int, other: int,
                   hmac: (string, string) -> string)
    requires Verify(token, secret, issuer, audience, now, hmac).Accepted?
    ensures GetExp(token).Some? ==> now <= GetExp(token).value
    ensures Verify(token, secret, issuer, audience, other, hmac).Accepted?
        <==> (GetExp(token).Some? ==> other <= GetExp(token).value)
  {
    var h, rest := Before(token, '.').value, After(token, ".").value;
    var p, s := Before(rest, '.').value, After(rest, ".").value;
    ChecksAnyTime(Part(h), Part(p), Part(s), hmac(secret, h + "." + p), issuer, audience, now, other);
  }
}
