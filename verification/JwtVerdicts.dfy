/** What checking and reading make of any token text and any payload, whoever wrote them. */
module JwtVerdicts {
  import opened Options
  import opened Text
  import opened Jwt

  // ---------- Cutting a text ----------

  lemma Longer(a: char, u: string, c: char, w: string)
    ensures [a] + (u + [c] + w) == [a] + u + [c] + w
  {
  }

  lemma {:induction false} BeforeCuts(s: string, c: char)
    ensures Before(s, c).Some? <==> c in s
    ensures After(s, [c]).Some? <==> c in s
    ensures c in s ==>
      var u, w := Before(s, c).value, After(s, [c]).value;
      c !in u && s == u + [c] + w
  {
    if s != "" && s[0] != c {
      BeforeCuts(s[1..], c);
      if c in s[1..] {
        var u, w := Before(s[1..], c).value, After(s[1..], [c]).value;
        Longer(s[0], u, c, w);
        assert s == [s[0]] + s[1..];
        AfterChar([s[0]] + u, c, w);
      }
    } else if s != "" {
      assert s == "" + [c] + s[1..];
      AfterChar("", c, s[1..]);
    }
  }

  /** The two dots of a token: the first two of its text. */
  ghost predicate Cut(token: string, h: string, p: string, s: string) {
    '.' !in h && '.' !in p && token == h + "." + p + "." + s
  }

  lemma Dots(h: string, p: string, s: string)
    ensures h + ['.'] + (p + ['.'] + s) == h + "." + p + "." + s
  {
  }

  lemma CutRead(token: string, h: string, p: string, s: string)
    requires Cut(token, h, p, s)
    ensures Before(token, '.') == Some(h) && After(token, ".") == Some(p + "." + s)
    ensures Before(p + "." + s, '.') == Some(p) && After(p + "." + s, ".") == Some(s)
  {
    Dots(h, p, s);
    AfterChar(h, '.', p + "." + s);
    AfterChar(p, '.', s);
  }

  lemma CutFound(token: string, rest: string)
    requires After(token, ".") == Some(rest) && After(rest, ".").Some?
    ensures exists h, p, s :: Cut(token, h, p, s)
  {
    BeforeCuts(token, '.');
    BeforeCuts(rest, '.');
    var h, p, s := Before(token, '.').value, Before(rest, '.').value, After(rest, ".").value;
    Dots(h, p, s);
    assert Cut(token, h, p, s);
  }

  // ---------- Acceptance ----------

  /** The expiry, if one can be read from the payload, is not past. */
  predicate NotExpired(payload: string, now: int) {
    NumberOf(payload, "exp") == None || now <= NumberOf(payload, "exp").value
  }

  /** The payload has the demanded claim; the empty text demands none. */
  predicate Claims(payload: string, key: string, demanded: string) {
    demanded == "" || StringOf(payload, key) == Some(demanded)
  }

  /** The decoded parts of an acceptable token, and the code of its first two parts. */
  ghost predicate Acceptable(header: string, payload: string, sig: string, mac: string,
                             issuer: string, audience: string, now: int)
  {
    && header != "" && payload != "" && sig != ""
    && Contains(header, "\"alg\":\"HS256\"")
    && sig == mac
    && NotExpired(payload, now)
    && Claims(payload, "iss", issuer) && Claims(payload, "aud", audience)
  }

  lemma ChecksExact(header: string, payload: string, sig: string, mac: string,
                    issuer: string, audience: string, now: int)
    ensures Checks(header, payload, sig, mac, issuer, audience, now) == Accepted <==>
      Acceptable(header, payload, sig, mac, issuer, audience, now)
    ensures Checks(header, payload, sig, mac, issuer, audience, now) != Rejected("format")
  {
    ContainsFound(header, ALGORITHM);
    assert forall e :: e in ["b64", "alg", "sig", "exp", "iss", "aud"] ==> |e| == 3;
  }

  /** Whatever the secret, the demands and the clock: every token text is accepted exactly when it has two
      dots and its parts are acceptable, and is rejected for its format exactly when it has not two dots. */
  lemma VerifyExact(token: string, secret: string, issuer: string, audience: string, now: int,
                    hmac: (string, string) -> string)
    ensures
      var v := Verify(token, secret, issuer, audience, now, hmac);
      && (v == Rejected("format") <==> !exists h, p, s :: Cut(token, h, p, s))
      && (v == Accepted <==> exists h, p, s | Cut(token, h, p, s) ::
            Acceptable(Part(h), Part(p), Part(s), hmac(secret, h + "." + p), issuer, audience, now))
  {
    var v := Verify(token, secret, issuer, audience, now, hmac);
    forall h, p, s | Cut(token, h, p, s)
      ensures v != Rejected("format")
      ensures v == Accepted <==>
        Acceptable(Part(h), Part(p), Part(s), hmac(secret, h + "." + p), issuer, audience, now)
    {
      CutRead(token, h, p, s);
      ChecksExact(Part(h), Part(p), Part(s), hmac(secret, h + "." + p), issuer, audience, now);
    }
    if After(token, ".").Some? && After(After(token, ".").value, ".").Some? {
      CutFound(token, After(token, ".").value);
    } else {
      UncutRejected(token, secret, issuer, audience, now, hmac);
    }
  }

  lemma UncutRejected(token: string, secret: string, issuer: string, audience: string, now: int,
                      hmac: (string, string) -> string)
    requires After(token, ".").None? || After(After(token, ".").value, ".").None?
    ensures Verify(token, secret, issuer, audience, now, hmac) == Rejected("format")
  {
    BeforeCuts(token, '.');
    if After(token, ".").Some? {
      BeforeCuts(After(token, ".").value, '.');
    }
  }

  /** The reported error names the first demand that is not met. */
  lemma ErrorNames(header: string, payload: string, sig: string, mac: string,
                   issuer: string, audience: string, now: int, err: string)
    requires Checks(header, payload, sig, mac, issuer, audience, now) == Rejected(err)
    ensures err == "b64" <==> header == "" || payload == "" || sig == ""
    ensures err == "alg" ==> !Contains(header, "\"alg\":\"HS256\"")
    ensures err == "sig" ==> Contains(header, "\"alg\":\"HS256\"") && sig != mac
    ensures err == "exp" ==> sig == mac && !NotExpired(payload, now)
    ensures err == "iss" ==> sig == mac && NotExpired(payload, now) && !Claims(payload, "iss", issuer)
    ensures err == "aud" ==> sig == mac && NotExpired(payload, now) && !Claims(payload, "aud", audience)
    ensures err in {"b64", "alg", "sig", "exp", "iss", "aud"}
    ensures err == "aud" ==> Claims(payload, "iss", issuer)
  {
    ContainsFound(header, ALGORITHM);
    ErrorsDiffer();
  }

  lemma ErrorsDiffer()
    ensures var e := ["b64", "alg", "sig", "exp", "iss", "aud"];
      forall i, j :: 0 <= i < j < 6 ==> e[i] != e[j]
  {
    var e := ["b64", "alg", "sig", "exp", "iss", "aud"];
    forall i, j | 0 <= i < j < 6
      ensures e[i] != e[j]
    {
      assert e[i][0] != e[j][0] || e[i][1] != e[j][1];
    }
  }

  /** The expiry read from any token: that of its second part. */
  lemma GetExpExact(token: string, h: string, p: string, s: string, exp: Option<int>)
    requires Cut(token, h, p, s) && exp == NumberOf(Part(p), "exp")
    ensures GetExp(token) == if Part(p) == "" then None else exp
  {
    CutRead(token, h, p, s);
  }

  // ---------- Claims ----------

  /** A value in quotes, anywhere after the first colon. */
  ghost predicate Quoted(r: string, u: string, x: string, v: string, w: string) {
    ':' !in u && QUOTE !in x && QUOTE !in v && r == u + ":" + x + [QUOTE] + v + [QUOTE] + w
  }

  /** The value of a claim of text: what stands between the next two quotes after the first colon after
      the quoted key, whatever comes between. */
  lemma StringExact(json: string, key: string, r: string, v: string)
    requires After(json, [QUOTE] + key + [QUOTE]) == Some(r)
    ensures StringOf(json, key) == Some(v) <==> exists u, x, w :: Quoted(r, u, x, v, w)
  {
    forall u, x, w | Quoted(r, u, x, v, w)
      ensures StringOf(json, key) == Some(v)
    {
      var after := v + [QUOTE] + w;
      assert u + [':'] + (x + [QUOTE] + after) == r;
      AfterChar(u, ':', x + [QUOTE] + after);
      AfterChar(x, QUOTE, after);
      AfterChar(v, QUOTE, w);
    }
    if StringOf(json, key) == Some(v) {
      QuotedExists(r, v);
    }
  }

  lemma QuotedExists(r: string, v: string)
    requires After(r, ":").Some? && After(After(r, ":").value, [QUOTE]).Some?
    requires Before(After(After(r, ":").value, [QUOTE]).value, QUOTE) == Some(v)
    ensures exists u, x, w :: Quoted(r, u, x, v, w)
  {
    var colon := After(r, ":").value;
    var after := After(colon, [QUOTE]).value;
    BeforeCuts(r, ':');
    BeforeCuts(colon, QUOTE);
    BeforeCuts(after, QUOTE);
    QuotedParts(r, Before(r, ':').value, Before(colon, QUOTE).value, v, After(after, [QUOTE]).value, colon, after);
  }

  lemma QuotedParts(r: string, u: string, x: string, v: string, w: string, colon: string, after: string)
    requires r == u + [':'] + colon && colon == x + [QUOTE] + after && after == v + [QUOTE] + w
    requires ':' !in u && QUOTE !in x && QUOTE !in v
    ensures Quoted(r, u, x, v, w)
  {
    assert u + [':'] + (x + [QUOTE] + (v + [QUOTE] + w)) == u + ":" + x + [QUOTE] + v + [QUOTE] + w;
  }

  /** Blanks, then digits, then no more of them. */
  ghost predicate Figures(text: string, b: string, d: string, w: string) {
    && text == b + (d + w)
    && (forall i :: 0 <= i < |b| ==> b[i] == ' ' || b[i] == '\t')
    && d != "" && Digits(d) && (w != "" ==> !IsDigit(w[0]))
  }

  lemma {:induction false} BlanksSkipped(b: string, x: string, i: nat)
    requires (forall j :: 0 <= j < |b| ==> b[j] == ' ' || b[j] == '\t') && i <= |b|
    requires x != "" ==> x[0] != ' ' && x[0] != '\t'
    ensures BlanksEnd(b + x, i) == |b|
    decreases |b| - i
  {
    if i < |b| {
      BlanksSkipped(b, x, i + 1);
    }
  }

  lemma {:induction false} DigitsTaken(b: string, d: string, w: string, i: nat)
    requires Digits(d) && (w != "" ==> !IsDigit(w[0])) && i <= |d|
    ensures DigitsEnd(b + (d + w), |b| + i) == |b| + |d|
    decreases |d| - i
  {
    if i < |d| {
      DigitsTaken(b, d, w, i + 1);
    }
  }

  lemma MiddlePart(b: string, d: string, w: string)
    ensures (b + (d + w))[|b|..|b| + |d|] == d
  {
  }

  /** Blanks and then digits are read as that number, up to the next character; it saturates. */
  lemma BlanksThenNumber(text: string, b: string, d: string, w: string)
    requires Figures(text, b, d, w)
    ensures LeadingNumber(text)
         == Some(if Number(d) <= 0x7FFF_FFFF_FFFF_FFFF then Number(d) else 0x7FFF_FFFF_FFFF_FFFF)
  {
    assert (d + w)[0] == d[0] && IsDigit(d[0]);
    BlanksSkipped(b, d + w, 0);
    DigitsTaken(b, d, w, 0);
    MiddlePart(b, d, w);
  }

  lemma {:induction false} BlanksEndAt(s: string, i: nat)
    requires i <= |s|
    ensures var e := BlanksEnd(s, i);
      && (forall j :: i <= j < e ==> s[j] == ' ' || s[j] == '\t')
      && (e < |s| ==> s[e] != ' ' && s[e] != '\t')
    decreases |s| - i
  {
    if i < |s| && (s[i] == ' ' || s[i] == '\t') {
      BlanksEndAt(s, i + 1);
    }
  }

  lemma {:induction false} DigitsEndsThere(s: string, i: nat)
    requires i <= |s|
    ensures DigitsEnd(s, i) < |s| ==> !IsDigit(s[DigitsEnd(s, i)])
    decreases |s| - i
  {
    if i < |s| && IsDigit(s[i]) {
      DigitsEndsThere(s, i + 1);
    }
  }

  /** Every text is blanks, digits and a rest that begins with neither, and a number is read exactly when
      there are digits. */
  lemma LeadingNumberExact(text: string)
    ensures LeadingNumber(text).Some? <==> exists b, d, w :: Figures(text, b, d, w)
  {
    if b, d, w :| Figures(text, b, d, w) {
      BlanksThenNumber(text, b, d, w);
    }
    if LeadingNumber(text).Some? {
      FiguresFound(text);
    }
  }

  lemma FiguresFound(text: string)
    requires LeadingNumber(text).Some?
    ensures var s := BlanksEnd(text, 0); var e := DigitsEnd(text, s);
      Figures(text, text[..s], text[s..e], text[e..])
  {
    var s := BlanksEnd(text, 0);
    var e := DigitsEnd(text, s);
    BlanksEndAt(text, 0);
    DigitsEndsThere(text, s);
    Rejoined(text, s, e);
    assert forall i :: 0 <= i < s ==> text[..s][i] == text[i];
  }

  lemma Rejoined(text: string, s: nat, e: nat)
    requires s <= e <= |text|
    ensures text == text[..s] + (text[s..e] + text[e..])
  {
  }

  /** A claim that is a number: what follows the first colon after the quoted key. */
  lemma NumberExact(json: string, key: string, r: string, u: string, v: string)
    requires After(json, [QUOTE] + key + [QUOTE]) == Some(r) && ':' !in u && r == u + ":" + v
    ensures NumberOf(json, key).Some? <==> exists b, d, w :: Figures(v, b, d, w)
    ensures NumberOf(json, key) == LeadingNumber(v)
  {
    AfterChar(u, ':', v);
    LeadingNumberExact(v);
  }

  /** A payload without the quoted key has no such claim. */
  lemma NoKeyNoClaim(json: string, key: string)
    requires !Contains(json, [QUOTE] + key + [QUOTE])
    ensures StringOf(json, key) == None && NumberOf(json, key) == None
  {
    ContainsFound(json, [QUOTE] + key + [QUOTE]);
  }
}
