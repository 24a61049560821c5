/** The token a request presents in its headers. */
module Bearer {
  import opened Options
  import opened Text
  import opened Framing

  const AUTHORIZATION := "Authorization:"
  const SCHEME := "Bearer "

  function WithoutScheme(value: string): string {
    if SCHEME <= value then value[|SCHEME|..] else value
  }

  /** The value of the first Authorization header, without the scheme if it is there. */
  function TokenOf(request: string): Option<string> {
    match HeaderValue(UpTo(request, END_OF_HEADERS), AUTHORIZATION)
    case None => None
    case Some(v) => Some(WithoutScheme(v))
  }

  lemma SchemeDropped(token: string)
    requires token != "" && '\r' !in token
    ensures var v := SCHEME + token;
      WithoutScheme(v) == token && v != "" && !Blank(v[0]) && v[|v| - 1] == token[|token| - 1] && '\r' !in v
  {
  }

  /** A token written in the first Authorization header, after the scheme and with blanks around it, is
      the token read. */
  lemma TokenRead(request: string, before: string, a: string, token: string, b: string, rest: string)
    requires UpTo(request, END_OF_HEADERS) == before + AUTHORIZATION + (a + (SCHEME + token + b) + rest)
    requires Find(before + AUTHORIZATION, AUTHORIZATION) == Some(|before|)
    requires Blanks(a) && Blanks(b) && (rest == "" || END_OF_LINE <= rest)
    requires token != "" && '\r' !in token && !Blank(token[|token| - 1])
    ensures TokenOf(request) == Some(token)
  {
    SchemeDropped(token);
    HeaderRead(before, AUTHORIZATION, a, SCHEME + token, b, rest);
  }

  /** So is a bare token, as long as it does not look like a scheme and a token itself. */
  lemma BareTokenRead(request: string, before: string, a: string, token: string, b: string, rest: string)
    requires UpTo(request, END_OF_HEADERS) == before + AUTHORIZATION + (a + (token + b) + rest)
    requires Find(before + AUTHORIZATION, AUTHORIZATION) == Some(|before|)
    requires Blanks(a) && Blanks(b) && (rest == "" || END_OF_LINE <= rest)
    requires token != "" && '\r' !in token && !Blank(token[0]) && !Blank(token[|token| - 1])
    ensures TokenOf(request) == Some(token) <==> !(SCHEME <= token)
  {
    HeaderRead(before, AUTHORIZATION, a, token, b, rest);
  }

  /** Headers without the key present no token. */
  lemma NoToken(request: string)
    requires !Contains(UpTo(request, "\r\n\r\n"), "Authorization:")
    ensures TokenOf(request) == None
  {
    ContainsFound(UpTo(request, "\r\n\r\n"), AUTHORIZATION);
  }
}
