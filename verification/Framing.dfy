/** Framing of a request: what the whole byte stream says, however the network cuts it. */
module Framing {
  import opened Options
  import opened Text

  const READ_BUFFER_SIZE := 16 * 1024
  const LONG_MAX := 0x7FFF_FFFF_FFFF_FFFF
  const LONG_MIN := -0x8000_0000_0000_0000
  const END_OF_LINE := "\r\n"
  const END_OF_HEADERS := "\r\n\r\n"
  const CONTENT_LENGTH := "Content-Length:"

  predicate Blank(c: char) {
    c == ' ' || c == '\t'
  }

  function TrimLeft(s: string): string {
    if s != "" && Blank(s[0]) then TrimLeft(s[1..]) else s
  }

  function TrimRight(s: string): string {
    if s != "" && Blank(s[|s| - 1]) then TrimRight(s[..|s| - 1]) else s
  }

  predicate Space(c: char) {
    c == ' ' || 9 <= c as int <= 13
  }

  function LeadingDigits(s: string): (d: string)
    ensures Digits(d)
  {
    if s != "" && IsDigit(s[0]) then [s[0]] + LeadingDigits(s[1..]) else ""
  }

  function Clamp(n: int): int {
    if n > LONG_MAX then LONG_MAX else if n < LONG_MIN then LONG_MIN else n
  }

  /** `strtol` in base ten: spaces, a sign, digits; zero without digits, and it saturates. */
  function Strtol(s: string): int {
    if s != "" && Space(s[0]) then Strtol(s[1..])
    else if s != "" && s[0] == '-' then Clamp(0 - Number(LeadingDigits(s[1..])))
    else if s != "" && s[0] == '+' then Clamp(Number(LeadingDigits(s[1..])))
    else Clamp(Number(LeadingDigits(s)))
  }

  /** The value after the first occurrence of a key, up to the end of its line, without blanks around. */
  function HeaderValue(headers: string, key: string): Option<string> {
    match After(headers, key)
    case None => None
    case Some(r) => Some(TrimRight(TrimLeft(UpTo(r, END_OF_LINE))))
  }

  /** The length the headers announce; zero when they announce none. */
  function ContentLength(headers: string): int {
    match HeaderValue(headers, CONTENT_LENGTH) case None => 0 case Some(v) => Strtol(v)
  }

  datatype Outcome = Outcome(ok: bool, contentLength: int, oversize: bool)

  /** The headers end within the first buffer of the stream. */
  predicate HeadersFit(stream: string) {
    Find(stream, END_OF_HEADERS).Some? && Find(stream, END_OF_HEADERS).value + 4 <= READ_BUFFER_SIZE
  }

  /** With headers that end at `end` and announce `length`, in a stream of `total` bytes. */
  function Body(total: nat, end: nat, length: int, maxBody: int): Outcome {
    if length > 0 && length > maxBody then Outcome(true, length, true)
    else Outcome(length <= 0 || end + length <= total, length, false)
  }

  /** What reading a request from a stream must come to, given what headers announce. */
  function Expected(stream: string, maxBody: int, announced: string -> int): Outcome {
    if !HeadersFit(stream) then Outcome(false, 0, false)
    else
      var p := Find(stream, END_OF_HEADERS).value;
      Body(|stream|, p + 4, announced(stream[..p]), maxBody)
  }

  // ---------- Searching a prefix of the stream ----------

  lemma {:induction false} AfterGrows(a: string, b: string, pat: string)
    requires After(a, pat).Some?
    ensures After(a + b, pat) == Some(After(a, pat).value + b)
  {
    AfterFits(a, pat);
    if pat <= a {
      assert (a + b)[|pat|..] == a[|pat|..] + b;
    } else {
      assert (a + b)[1..] == a[1..] + b;
      AfterGrows(a[1..], b, pat);
    }
  }

  lemma FindGrows(a: string, b: string, pat: string)
    requires Find(a, pat).Some?
    ensures Find(a + b, pat) == Find(a, pat)
  {
    AfterGrows(a, b, pat);
  }

  /** Nothing found in a prefix means nothing that ends within it. */
  lemma {:induction false} FindLate(a: string, b: string, pat: string)
    requires After(a, pat).None?
    ensures After(a + b, pat).Some? ==> |After(a + b, pat).value| < |b|
  {
    if a == "" {
      assert a + b == b;
    } else {
      assert (a + b)[1..] == a[1..] + b;
      FindLate(a[1..], b, pat);
    }
  }

  lemma HeadersMissing(request: string, rest: string)
    requires Find(request, END_OF_HEADERS).None? && (rest == "" || READ_BUFFER_SIZE <= |request|)
    ensures !HeadersFit(request + rest)
  {
    FindLate(request, rest, END_OF_HEADERS);
    if rest == "" {
      assert request + rest == request;
    }
  }

  lemma SamePrefix(a: string, b: string, p: nat)
    requires p <= |a|
    ensures (a + b)[..p] == a[..p]
  {
  }

  /** Later bytes do not move the end of the headers. */
  lemma HeadersStay(request: string, longer: string)
    requires Find(request, END_OF_HEADERS).Some? && request <= longer
    ensures Find(longer, END_OF_HEADERS) == Find(request, END_OF_HEADERS)
  {
    FindGrows(request, longer[|request|..], END_OF_HEADERS);
    assert longer == request + longer[|request|..];
  }

  /** Complete headers settle what the rest of the stream has to come to. */
  lemma HeadersSettle(request: string, rest: string, maxBody: int, announced: string -> int)
    requires Find(request, END_OF_HEADERS).Some? && Find(request, END_OF_HEADERS).value + 4 <= READ_BUFFER_SIZE
    ensures
      var p := Find(request, END_OF_HEADERS).value;
      Expected(request + rest, maxBody, announced) == Body(|request + rest|, p + 4, announced(request[..p]), maxBody)
  {
    HeadersStay(request, request + rest);
    SamePrefix(request, rest, Find(request, END_OF_HEADERS).value);
  }

  // ---------- The announced length ----------

  lemma {:induction false} LineEndAt(v: string, rest: string)
    requires '\r' !in v && (rest == "" || END_OF_LINE <= rest)
    ensures Find(v + rest, END_OF_LINE) == if rest == "" then None else Some(|v|)
  {
    if v == "" {
      assert v + rest == rest;
    } else {
      assert (v + rest)[1..] == v[1..] + rest;
      assert v[0] in v && (v + rest)[0] == v[0] && END_OF_LINE[0] == '\r';
      LineEndAt(v[1..], rest);
    }
  }

  lemma LineEnds(v: string, rest: string)
    requires '\r' !in v && (rest == "" || END_OF_LINE <= rest)
    ensures UpTo(v + rest, END_OF_LINE) == v
  {
    LineEndAt(v, rest);
    assert (v + rest)[..|v|] == v && (rest == "" ==> v + rest == v);
  }

  predicate Blanks(s: string) {
    forall i :: 0 <= i < |s| ==> Blank(s[i])
  }

  lemma {:induction false} TrimLeftBlanks(a: string, x: string)
    requires Blanks(a) && x != "" && !Blank(x[0])
    ensures TrimLeft(a + x) == x
  {
    if a == "" {
      assert a + x == x;
    } else {
      assert (a + x)[1..] == a[1..] + x;
      TrimLeftBlanks(a[1..], x);
    }
  }

  lemma {:induction false} TrimRightBlanks(x: string, b: string)
    requires Blanks(b) && x != "" && !Blank(x[|x| - 1])
    ensures TrimRight(x + b) == x
  {
    if b == "" {
      assert x + b == x;
    } else {
      assert (x + b)[..|x + b| - 1] == x + b[..|b| - 1];
      TrimRightBlanks(x, b[..|b| - 1]);
    }
  }

  lemma {:induction false} AllDigitsLead(d: string)
    requires Digits(d)
    ensures LeadingDigits(d) == d
  {
    if d != "" {
      AllDigitsLead(d[1..]);
      assert d == [d[0]] + d[1..];
    }
  }

  lemma StrtolDecimal(n: nat)
    ensures Strtol(Decimal(n)) == Clamp(n)
  {
    AllDigitsLead(Decimal(n));
    DecimalRoundTrip(n);
  }

  lemma Trimmed(a: string, v: string, b: string)
    requires Blanks(a) && Blanks(b) && v != "" && !Blank(v[0]) && !Blank(v[|v| - 1]) && '\r' !in v
    ensures TrimRight(TrimLeft(a + (v + b))) == v && '\r' !in a + (v + b)
  {
    TrimLeftBlanks(a, v + b);
    TrimRightBlanks(v, b);
  }

  /** A value written after the first occurrence of its key, with blanks around it, is the value read. */
  lemma HeaderRead(before: string, key: string, a: string, v: string, b: string, rest: string)
    requires Find(before + key, key) == Some(|before|)
    requires Blanks(a) && Blanks(b) && (rest == "" || END_OF_LINE <= rest)
    requires v != "" && !Blank(v[0]) && !Blank(v[|v| - 1]) && '\r' !in v
    ensures HeaderValue(before + key + (a + (v + b) + rest), key) == Some(v)
  {
    var line := a + (v + b);
    var headers := before + key + (line + rest);
    FindGrows(before + key, line + rest, key);
    assert headers[|before| + |key|..] == line + rest;
    Trimmed(a, v, b);
    LineEnds(line, rest);
  }

  /** `r` is the 64-bit integer nearest to `n`. */
  predicate Nearest(r: int, n: int) {
    && -0x8000_0000_0000_0000 <= r <= 0x7FFF_FFFF_FFFF_FFFF
    && (r < n ==> r == 0x7FFF_FFFF_FFFF_FFFF) && (n < r ==> r == -0x8000_0000_0000_0000)
  }

  /** A length written in decimal is read as that number. */
  lemma AnnouncedLength(before: string, a: string, n: nat, b: string, rest: string)
    requires Find(before + CONTENT_LENGTH, CONTENT_LENGTH) == Some(|before|)
    requires Blanks(a) && Blanks(b) && (rest == "" || END_OF_LINE <= rest)
    ensures Nearest(ContentLength(before + CONTENT_LENGTH + (a + (Decimal(n) + b) + rest)), n)
  {
    HeaderRead(before, CONTENT_LENGTH, a, Decimal(n), b, rest);
    StrtolDecimal(n);
  }

  /** Headers without the key announce no body, and neither does a value of blanks. */
  lemma NothingAnnounced(headers: string)
    requires !Contains(headers, "Content-Length:")
    ensures HeaderValue(headers, CONTENT_LENGTH) == None && ContentLength(headers) == 0
  {
    ContainsFound(headers, CONTENT_LENGTH);
  }

  lemma {:induction false} BlanksTrimmed(a: string)
    requires Blanks(a)
    ensures TrimLeft(a) == ""
  {
    if a != "" {
      BlanksTrimmed(a[1..]);
    }
  }

  lemma BlankAnnouncesNothing(before: string, a: string, rest: string)
    requires Find(before + CONTENT_LENGTH, CONTENT_LENGTH) == Some(|before|)
    requires Blanks(a) && (rest == "" || END_OF_LINE <= rest)
    ensures ContentLength(before + CONTENT_LENGTH + (a + rest)) == 0
  {
    var headers := before + CONTENT_LENGTH + (a + rest);
    FindGrows(before + CONTENT_LENGTH, a + rest, CONTENT_LENGTH);
    assert headers[|before| + |CONTENT_LENGTH|..] == a + rest;
    LineEnds(a, rest);
    BlanksTrimmed(a);
  }

  lemma {:induction false} LeadingDigitsAre(d: string, w: string)
    requires Digits(d) && (w != "" ==> !IsDigit(w[0]))
    ensures LeadingDigits(d + w) == d
  {
    if d == "" {
      assert d + w == w;
    } else {
      assert (d + w)[1..] == d[1..] + w;
      LeadingDigitsAre(d[1..], w);
      assert d == [d[0]] + d[1..];
    }
  }

  /** What `strtol` makes of spaces, digits and anything after them. */
  lemma {:induction false} StrtolUnsigned(spaces: string, d: string, w: string)
    requires forall i :: 0 <= i < |spaces| ==> Space(spaces[i])
    requires d != "" && Digits(d) && (w != "" ==> !IsDigit(w[0]))
    ensures Nearest(Strtol(spaces + (d + w)), Number(d))
  {
    var s := spaces + (d + w);
    if spaces == "" {
      assert s == d + w && IsDigit(s[0]);
      LeadingDigitsAre(d, w);
    } else {
      assert s[1..] == spaces[1..] + (d + w);
      StrtolUnsigned(spaces[1..], d, w);
    }
  }

  /** ... of a number with a sign, which is zero when no digit follows the sign ... */
  lemma {:induction false} StrtolSigned(spaces: string, sign: char, d: string, w: string)
    requires forall i :: 0 <= i < |spaces| ==> Space(spaces[i])
    requires sign in {'+', '-'} && Digits(d) && (w != "" ==> !IsDigit(w[0]))
    ensures Nearest(Strtol(spaces + ([sign] + (d + w))), if sign == '-' then 0 - Number(d) else Number(d))
  {
    var s := spaces + ([sign] + (d + w));
    if spaces == "" {
      assert s[0] == sign && s[1..] == d + w;
      LeadingDigitsAre(d, w);
    } else {
      assert s[1..] == spaces[1..] + ([sign] + (d + w));
      StrtolSigned(spaces[1..], sign, d, w);
    }
  }

  /** ... and of a text that is no number. */
  lemma {:induction false} StrtolNothing(spaces: string, w: string)
    requires forall i :: 0 <= i < |spaces| ==> Space(spaces[i])
    requires w != "" ==> !IsDigit(w[0]) && !Space(w[0]) && w[0] !in {'+', '-'}
    ensures Strtol(spaces + w) == 0
  {
    var s := spaces + w;
    if spaces == "" {
      assert s == w && LeadingDigits(w) == "";
    } else {
      assert s[1..] == spaces[1..] + w;
      StrtolNothing(spaces[1..], w);
    }
  }

  /** A negative length announces no body. */
  lemma NegativeLength(before: string, a: string, n: nat, b: string, rest: string)
    requires Find(before + CONTENT_LENGTH, CONTENT_LENGTH) == Some(|before|)
    requires Blanks(a) && Blanks(b) && (rest == "" || END_OF_LINE <= rest)
    ensures Nearest(ContentLength(before + CONTENT_LENGTH + (a + ("-" + Decimal(n) + b) + rest)), 0 - n)
  {
    HeaderRead(before, CONTENT_LENGTH, a, "-" + Decimal(n), b, rest);
    StrtolSigned("", '-', Decimal(n), "");
    assert "" + (['-'] + (Decimal(n) + "")) == "-" + Decimal(n);
    DecimalRoundTrip(n);
  }

  lemma SliceOn(s: string, i: nat, n: nat)
    requires i + n <= |s|
    ensures s[i..][..n] == s[i..i + n] && s[i..][n..] == s[i + n..]
    ensures s[..i] + s[i..i + n] == s[..i + n] && s[..i + n] <= s && (i + n == |s| ==> s[..i + n] == s)
  {
  }

  lemma ChunkPrefix(base: string, s: string, i: nat, n: nat, got: string)
    requires i + n <= |s| && base + s[..i] <= got <= base + s[..i] + s[i..][..n]
    ensures base <= got <= base + s
  {
    SliceOn(s, i, n);
    assert base + s[..i] + s[i..][..n] == base + s[..i + n];
  }

  // ---------- Reading ----------

  /** Headers that are cut off, or end too late: a failure that announces nothing. Otherwise the length is
      the one announced before the first blank line; a body over the limit is refused without reading it,
      and any other has to be there. */
  ghost predicate Reads(stream: string, maxBody: int, o: Outcome) {
    match Find(stream, "\r\n\r\n")
    case None => !o.ok && o.contentLength == 0 && !o.oversize
    case Some(p) =>
      if 16380 < p then !o.ok && o.contentLength == 0 && !o.oversize
      else
        && o.contentLength == ContentLength(stream[..p])
        && (o.oversize <==> 0 < o.contentLength && maxBody < o.contentLength)
        && (o.ok <==> o.oversize || p + 4 + o.contentLength <= |stream|)
  }

  lemma ExpectedReads(stream: string, maxBody: int)
    ensures Reads(stream, maxBody, Expected(stream, maxBody, ContentLength))
  {
  }

  /** A request without a body: its headers fit and do not contain the key. */
  predicate Bodyless(stream: string) {
    var p := Find(stream, "\r\n\r\n");
    p.Some? && p.value <= 16380 && !Contains(stream[..p.value], "Content-Length:")
  }

  lemma BodylessExpected(stream: string, maxBody: int)
    requires Bodyless(stream)
    ensures Expected(stream, maxBody, ContentLength) == Outcome(true, 0, false)
  {
    NothingAnnounced(stream[..Find(stream, END_OF_HEADERS).value]);
  }

  /** A peer: the bytes it will still send before it stops, those it has been sent, and whether a send to
      it has failed. */
  class Peer {
    var pending: string
    var received: string
    var failed: bool

    constructor (stream: string)
      ensures pending == stream && received == "" && !failed
    {
      pending, received, failed := stream, "", false;
    }

    /** `recv`: at least one byte and at most `cap`, as the network pleases, until there are none. */
    method Recv(buf: array<char>, off: nat, cap: nat) returns (n: nat)
      requires 0 < cap && off + cap <= buf.Length
      modifies this`pending, buf
      ensures n <= cap && n <= |old(pending)| && (n == 0 <==> old(pending) == "")
      ensures pending == old(pending)[n..] && buf[off..off + n] == old(pending)[..n]
    {
      n := 0;
      if pending == "" {
        return;
      }
      var most := if cap < |pending| then cap else |pending|;
      n :| 1 <= n <= most;
      forall i | 0 <= i < n {
        buf[off + i] := pending[i];
      }
      pending := pending[n..];
    }

    /** `send`: takes some of the bytes, or fails. */
    method Send(data: string) returns (n: nat)
      requires data != ""
      modifies this`received, this`failed
      ensures n <= |data| && received == old(received) + data[..n]
      ensures failed == (old(failed) || n == 0)
    {
      n :| 0 <= n <= |data|;
      received, failed := received + data[..n], failed || n == 0;
    }
  }

  class GatewayConn {
    const buf: array<char>
    var readIdx: nat
    var request: string
    var contentLength: int
    var oversize: bool

    constructor ()
      ensures fresh(buf) && buf.Length == READ_BUFFER_SIZE
      ensures readIdx == 0 && request == "" && contentLength == 0 && !oversize
    {
      buf := new char[READ_BUFFER_SIZE];
      readIdx, request, contentLength, oversize := 0, "", 0, false;
    }

    /** One read after what the buffer holds. */
    method ReadMore(client: Peer) returns (n: nat)
      requires buf.Length == READ_BUFFER_SIZE && readIdx < READ_BUFFER_SIZE
      modifies this`readIdx, this`request, buf, client
      ensures request + client.pending == old(request + client.pending)
      ensures |request| == old(|request|) + n && readIdx == old(readIdx) + n <= READ_BUFFER_SIZE
      ensures (n == 0 <==> old(client.pending) == "") && (n == 0 ==> request == old(request))
      ensures |client.pending| == |old(client.pending)| - n
    {
      n := client.Recv(buf, readIdx, READ_BUFFER_SIZE - readIdx);
      readIdx := readIdx + n;
      request := request + buf[readIdx - n..readIdx];
    }

    /** Read until the headers are complete: they must end within the buffer. */
    method ReadHeaders(client: Peer) returns (ok: bool)
      requires buf.Length == READ_BUFFER_SIZE && readIdx == 0 && request == ""
      modifies this`readIdx, this`request, buf, client
      ensures request + client.pending == old(client.pending) && |request| == readIdx <= READ_BUFFER_SIZE
      ensures ok <==> HeadersFit(old(client.pending))
      ensures ok ==> Find(request, END_OF_HEADERS) == Find(old(client.pending), END_OF_HEADERS)
    {
      ghost var stream := client.pending;
      while Find(request, END_OF_HEADERS).None?
        invariant request + client.pending == stream && |request| == readIdx <= READ_BUFFER_SIZE
        decreases |client.pending|
      {
        if readIdx >= READ_BUFFER_SIZE {
          HeadersMissing(request, client.pending);
          return false;
        }
        var n := ReadMore(client);
        if n <= 0 {
          HeadersMissing(request, client.pending);
          return false;
        }
      }
      FindGrows(request, client.pending, END_OF_HEADERS);
      ok := true;
    }

    /** Read until the announced body is there. */
    method ReadBody(client: Peer, end: nat) returns (ok: bool)
      requires buf.Length == READ_BUFFER_SIZE && readIdx <= READ_BUFFER_SIZE && end <= |request|
      modifies this`readIdx, this`request, buf, client
      ensures request + client.pending == old(request + client.pending) && readIdx <= READ_BUFFER_SIZE
      ensures ok <==> end + contentLength <= |old(request + client.pending)|
      ensures old(request) <= request && (ok ==> end + contentLength <= |request|)
    {
      ghost var stream := request + client.pending;
      var have := |request| - end;
      while have < contentLength
        invariant request + client.pending == stream && have == |request| - end
        invariant readIdx <= READ_BUFFER_SIZE && old(request) <= request
        decreases |client.pending|
      {
        if readIdx >= READ_BUFFER_SIZE {
          readIdx := 0;
        }
        var n := client.Recv(buf, 0, READ_BUFFER_SIZE);
        if n <= 0 {
          return false;
        }
        request := request + buf[..n];
        have := have + n;
      }
      ok := true;
    }

    /** After the headers: refuse the body, or read it. */
    method ReadAnnounced(client: Peer, end: nat, length: int, maxBody: int) returns (ok: bool)
      requires buf.Length == READ_BUFFER_SIZE && readIdx <= READ_BUFFER_SIZE && end <= |request| && !oversize
      modifies this, buf, client
      ensures Outcome(ok, contentLength, oversize) == Body(|old(request + client.pending)|, end, length, maxBody)
      ensures request + client.pending == old(request + client.pending) && old(request) <= request
      ensures readIdx <= READ_BUFFER_SIZE
      ensures ok && !oversize && length > 0 ==> end + length <= |request|
    {
      contentLength := length;
      if contentLength > 0 && contentLength > maxBody {
        oversize := true;
        return true;
      }
      ok := true;
      if contentLength > 0 {
        ok := ReadBody(client, end);
      }
    }

    /** The result, the announced length and the oversize flag depend on the stream alone, not on how
        `recv` cuts it; what was read is a prefix of the stream with the end of the headers and, unless
        the body is refused, all of it; the buffer index stays within the buffer. */
    method ReadOnce(client: Peer, maxBody: int) returns (ok: bool)
      requires buf.Length == READ_BUFFER_SIZE
      requires readIdx == 0 && request == "" && contentLength == 0 && !oversize
      modifies this, buf, client
      ensures Outcome(ok, contentLength, oversize) == Expected(old(client.pending), maxBody, ContentLength)
      ensures Reads(old(client.pending), maxBody, Outcome(ok, contentLength, oversize))
      ensures Bodyless(old(client.pending)) ==> ok && contentLength == 0 && !oversize
      ensures request + client.pending == old(client.pending) && readIdx <= READ_BUFFER_SIZE
      ensures ok ==>
        var p := Find(request, END_OF_HEADERS);
        p.Some? && p == Find(old(client.pending), END_OF_HEADERS)
          && (!oversize && contentLength > 0 ==> p.value + 4 + contentLength <= |request|)
    {
      ExpectedReads(client.pending, maxBody);
      if Bodyless(client.pending) {
        BodylessExpected(client.pending, maxBody);
      }
      ok := ReadHeaders(client);
      if !ok {
        return;
      }
      assert |request| <= 64 * 1024;
      var p := Find(request, END_OF_HEADERS).value;
      HeadersSettle(request, client.pending, maxBody, ContentLength);
      ghost var headers := request;
      ok := ReadAnnounced(client, p + 4, ContentLength(request[..p]), maxBody);
      HeadersStay(headers, request);
    }

    /** Forward the request: all of it arrives, or a send fails and the upstream has a prefix. */
    method Forward(upstream: Peer, data: string) returns (ok: bool)
      modifies upstream
      ensures upstream.pending == old(upstream.pending)
      ensures old(upstream.received) <= upstream.received <= old(upstream.received) + data
      ensures ok <==> upstream.received == old(upstream.received) + data
      ensures upstream.failed == (old(upstream.failed) || !ok)
    {
      var sent := 0;
      assert data[..|data|] == data;
      while sent < |data|
        invariant sent <= |data| && upstream.received == old(upstream.received) + data[..sent]
        invariant upstream.pending == old(upstream.pending) && upstream.failed == old(upstream.failed)
      {
        var n := upstream.Send(data[sent..]);
        SliceOn(data, sent, n);
        sent := sent + n;
        if n <= 0 {
          return false;
        }
      }
      ok := true;
    }

    /** One bufferful of the response. */
    method RelayChunk(upstream: Peer, client: Peer, chunk: array<char>) returns (n: nat, ok: bool)
      requires upstream != client && 0 < chunk.Length
      modifies upstream, client, chunk
      ensures n <= |old(upstream.pending)| && upstream.pending == old(upstream.pending)[n..]
      ensures n == 0 <==> old(upstream.pending) == ""
      ensures client.pending == old(client.pending)
      ensures old(client.received) <= client.received <= old(client.received) + old(upstream.pending)[..n]
      ensures ok <==> client.received == old(client.received) + old(upstream.pending)[..n]
      ensures client.failed == (old(client.failed) || !ok) && (n == 0 ==> ok)
    {
      n := upstream.Recv(chunk, 0, chunk.Length);
      ok := Forward(client, chunk[..n]);
    }

    /** Relay the response through a buffer: the client gets the upstream's bytes in order, without loss
        or repetition, all of them unless a send fails. */
    method Relay(upstream: Peer, client: Peer) returns (ok: bool)
      requires upstream != client
      modifies upstream, client
      ensures client.pending == old(client.pending)
      ensures old(client.received) <= client.received <= old(client.received) + old(upstream.pending)
      ensures ok ==> upstream.pending == "" && client.received == old(client.received) + old(upstream.pending)
      ensures client.failed == (old(client.failed) || !ok)
    {
      var chunk := new char[4096];
      ghost var base, stream := client.received, upstream.pending;
      ghost var passed := 0;
      while true
        invariant passed <= |stream| && upstream.pending == stream[passed..]
        invariant client.received == base + stream[..passed] && client.pending == old(client.pending)
        invariant client.failed == old(client.failed)
        decreases |stream| - passed
      {
        var n;
        n, ok := RelayChunk(upstream, client, chunk);
        SliceOn(stream, passed, n);
        ChunkPrefix(base, stream, passed, n, client.received);
        if n <= 0 {
          break;
        }
        if !ok {
          return;
        }
        passed := passed + n;
      }
      ok := true;
    }
  }
}
