/** Strings of bytes: searching for a pattern and printing numbers. */
module Text {
  import opened Options

  predicate Bytes(s: string) {
    forall i :: 0 <= i < |s| ==> s[i] as int < 256
  }

  /** What follows the first occurrence of `pat`, as `find` and a step past the match give it. */
  function After(s: string, pat: string): (r: Option<string>)
    ensures r.Some? && pat != "" ==> |r.value| < |s|
  {
    if pat <= s then Some(s[|pat|..]) else if s == "" then None else After(s[1..], pat)
  }

  lemma {:induction false} AfterFits(s: string, pat: string)
    ensures var r := After(s, pat);
      r.Some? ==>
        && |pat| + |r.value| <= |s|
        && s[|s| - |r.value| - |pat|..] == pat + r.value && s[|s| - |r.value|..] == r.value
  {
    if !(pat <= s) && s != "" {
      AfterFits(s[1..], pat);
    }
  }

  /** The position of that occurrence. */
  function Find(s: string, pat: string): (p: Option<nat>)
    ensures p.Some? ==> p.value + |pat| <= |s| && pat <= s[p.value..] && After(s, pat) == Some(s[p.value + |pat|..])
  {
    AfterFits(s, pat);
    match After(s, pat) case None => None case Some(r) => Some(|s| - |r| - |pat|)
  }

  /** It is the first position at which the pattern stands. */
  lemma {:induction false} FindFirst(s: string, pat: string)
    ensures var p := Find(s, pat);
      && (p.None? <==> forall i :: 0 <= i <= |s| ==> !(pat <= s[i..]))
      && (p.Some? ==> pat <= s[p.value..] && forall i :: 0 <= i < p.value ==> !(pat <= s[i..]))
  {
    assert s[0..] == s;
    if !(pat <= s) && s != "" {
      FindFirst(s[1..], pat);
      forall i | 0 < i <= |s|
        ensures s[i..] == s[1..][i - 1..]
      {
      }
    }
  }

  predicate Contains(s: string, pat: string) {
    exists i :: 0 <= i <= |s| && pat <= s[i..]
  }

  lemma ContainsFound(s: string, pat: string)
    ensures After(s, pat).Some? <==> Contains(s, pat)
  {
    FindFirst(s, pat);
  }

  /** What precedes it, or all of the text. */
  function UpTo(s: string, pat: string): string {
    match Find(s, pat) case None => s case Some(p) => s[..p]
  }

  /** What precedes the first occurrence of the character `c`. */
  function Before(s: string, c: char): Option<string> {
    match Find(s, [c]) case None => None case Some(p) => Some(s[..p])
  }

  lemma {:induction false} AfterChar(u: string, c: char, w: string)
    requires c !in u
    ensures After(u + [c] + w, [c]) == Some(w)
    ensures Before(u + [c] + w, c) == Some(u)
  {
    var s := u + [c] + w;
    if u == "" {
      assert s[1..] == w;
    } else {
      assert s[1..] == u[1..] + [c] + w;
      AfterChar(u[1..], c, w);
    }
    assert After(s, [c]) == Some(w) && |[c]| == 1;
    assert Find(s, [c]).value == |s| - |w| - 1;
    assert s[..|u|] == u;
  }

  // ---------- Decimal numbers ----------

  predicate IsDigit(c: char) {
    '0' <= c <= '9'
  }

  predicate Digits(s: string) {
    forall i :: 0 <= i < |s| ==> IsDigit(s[i])
  }

  function Digit(n: nat): (c: char)
    requires n < 10
    ensures IsDigit(c) && c as int == '0' as int + n
  {
    ('0' as int + n) as char
  }

  /** The decimal text of a number, without leading zeros. */
  function Decimal(n: nat): (s: string)
    ensures Digits(s) && s != ""
  {
    if n < 10 then [Digit(n)] else Decimal(n / 10) + [Digit(n % 10)]
  }

  function Number(s: string): nat
    requires Digits(s)
  {
    if s == "" then 0 else 10 * Number(s[..|s| - 1]) + (s[|s| - 1] as int - '0' as int)
  }

  lemma {:induction false} DecimalRoundTrip(n: nat)
    ensures Number(Decimal(n)) == n
  {
    var s := Decimal(n);
    if n < 10 {
      assert s[..|s| - 1] == "";
    } else {
      DecimalRoundTrip(n / 10);
      assert s[..|s| - 1] == Decimal(n / 10);
    }
  }

  lemma DecimalInjective(m: nat, n: nat)
    requires Decimal(m) == Decimal(n)
    ensures m == n
  {
    DecimalRoundTrip(m);
    DecimalRoundTrip(n);
  }
}
