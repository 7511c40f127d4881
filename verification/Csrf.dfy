/**
 The form tokens: "expiry.signature", where the signature is a MAC of "expiry|actor". The MAC and
 base64url are parameters.
 */
module Csrf {
  import opened Text
  import opened YamlTree
  import opened UserFile

  /** The bytes of a signature. */
  type Digest = Bytes

  /** Four hours. */
  const TTL: nat := 14_400

  const NANOS: nat := 1_000_000_000

  const MAX_INT64: int := 0x7FFF_FFFF_FFFF_FFFF

  /** mac is the keyed hash; enc and dec are base64.RawURLEncoding. */
  datatype Crypto = Crypto(mac: string -> Digest, enc: Digest -> string, dec: string -> Option<Digest>)

  ghost predicate Sound(k: Crypto) {
    && (forall x, y :: k.mac(x) == k.mac(y) ==> x == y)
    && (forall d :: k.dec(k.enc(d)) == Some(d))
  }

  // ----- decimal numbers -----

  predicate IsDigit(c: char) {
    '0' <= c <= '9'
  }

  function DigitValue(c: char): nat
    requires IsDigit(c)
  {
    c as int - '0' as int
  }

  function DigitOf(n: nat): (c: char)
    requires n < 10
    ensures IsDigit(c) && DigitValue(c) == n
  {
    ('0' as int + n) as char
  }

  function PrintNat(n: nat): (s: string)
    ensures s != "" && forall i :: 0 <= i < |s| ==> IsDigit(s[i])
  {
    if n < 10 then [DigitOf(n)] else PrintNat(n / 10) + [DigitOf(n % 10)]
  }

  /** %d. */
  function PrintInt(n: int): string {
    if n < 0 then ['-'] + PrintNat(-n) else PrintNat(n)
  }

  function ParseNat(s: string): Option<nat> {
    if s == "" || !IsDigit(s[|s| - 1]) then None
    else if |s| == 1 then Some(DigitValue(s[0]))
    else
      var high := ParseNat(s[..|s| - 1]);
      if high.None? then None else Some(10 * high.value + DigitValue(s[|s| - 1]))
  }

  /** strconv.ParseInt(s, 10, 64): an optional sign, digits, and the range of an int64. */
  function ParseInt(s: string): Option<int> {
    if s == "" then None
    else
      var signed := s[0] == '-' || s[0] == '+';
      var n := ParseNat(if signed then s[1..] else s);
      if n.None? then None
      else
        var size: int := n.value;
        var v := if s[0] == '-' then -size else size;
        if -MAX_INT64 - 1 <= v <= MAX_INT64 then Some(v) else None
  }

  lemma {:induction false} ParseNatExactlyIf(s: string)
    ensures ParseNat(s).Some? <==> s != "" && forall c :: c in s ==> '0' <= c <= '9'
  {
    if |s| == 1 {
      assert s[0] in s && forall x :: x in s ==> x == s[0];
    } else if |s| > 1 {
      var t, c := s[..|s| - 1], s[|s| - 1];
      assert s == t + [c];
      ParseNatExactlyIf(t);
      assert c in s && forall x :: x in t ==> x in s;
      if ParseNat(s).Some? {
        assert forall x :: x in s ==> x in t || x == c;
      }
    }
  }

  /** What is parsed as a number: digits after an optional sign, if the number is an int64. */
  lemma ParseIntExactlyIf(sign: string, digits: string)
    requires sign in {"", "+", "-"} && (sign == "" && digits != "" ==> digits[0] !in "+-")
    ensures ParseNat(digits).Some? <==> digits != "" && forall c :: c in digits ==> '0' <= c <= '9'
    ensures ParseInt(sign + digits) ==
      if ParseNat(digits).None? then None
      else
        var size: int := ParseNat(digits).value;
        if sign == "-" && size <= 0x8000_0000_0000_0000 then Some(-size)
        else if sign != "-" && size <= 0x7FFF_FFFF_FFFF_FFFF then Some(size)
        else None
  {
    ParseNatExactlyIf(digits);
    var s := sign + digits;
    if sign != "" { assert s[1..] == digits; } else { assert s == digits; }
  }

  /** The value of a numeral, digit by digit. */
  lemma ParseNatMeaning(s: string, c: char)
    requires '0' <= c <= '9' && ParseNat(s).Some?
    ensures ParseNat(s + [c]) == Some(10 * ParseNat(s).value + (c as int - 48))
    ensures ParseNat([c]) == Some(c as int - 48)
  {
    assert (s + [c])[..|s|] == s;
  }

  lemma {:induction false} ParseNatUndoesPrint(n: nat)
    ensures ParseNat(PrintNat(n)) == Some(n)
  {
    if n >= 10 {
      ParseNatUndoesPrint(n / 10);
      var s := PrintNat(n);
      assert s[..|s| - 1] == PrintNat(n / 10);
    }
  }

  lemma ParseIntUndoesPrint(n: int)
    requires -MAX_INT64 - 1 <= n <= MAX_INT64
    ensures ParseInt(PrintInt(n)) == Some(n)
  {
    hide PrintNat, ParseNat;
    if n < 0 {
      ParseNatUndoesPrint(-n);
      assert PrintInt(n)[1..] == PrintNat(-n);
    } else {
      ParseNatUndoesPrint(n);
      assert IsDigit(PrintNat(n)[0]);
    }
  }

  lemma PrintIntPlain(n: int)
    ensures '.' !in PrintInt(n) && '|' !in PrintInt(n)
  {
    var s := PrintNat(if n < 0 then -n else n);
    assert forall i :: 0 <= i < |s| ==> IsDigit(s[i]) && s[i] != '.' && s[i] != '|';
  }

  lemma PrintIntInjective(m: int, n: int)
    requires -MAX_INT64 - 1 <= m <= MAX_INT64 && -MAX_INT64 - 1 <= n <= MAX_INT64
    requires PrintInt(m) == PrintInt(n)
    ensures m == n
  {
    ParseIntUndoesPrint(m);
    ParseIntUndoesPrint(n);
  }

  // ----- tokens -----

  /** What is signed. */
  function Payload(exp: int, actor: string): string {
    PrintInt(exp) + ['|'] + actor
  }

  /** Unix seconds of a time given in nanoseconds since 1970, rounded down. */
  function Unix(nanos: int): int {
    nanos / NANOS
  }

  function CsrfToken(k: Crypto, actor: string, now: int): string {
    var exp := Unix(now + TTL * NANOS);
    PrintInt(exp) + ['.'] + k.enc(k.mac(Payload(exp, actor)))
  }

  predicate CsrfValid(k: Crypto, actor: string, token: string, now: int) {
    var (expStr, sigStr, ok) := Cut(token, '.');
    && ok
    && var exp := ParseInt(expStr);
       && exp.Some? && Unix(now) <= exp.value
       && var sig := k.dec(sigStr);
          && sig.Some? && sig.value == k.mac(Payload(exp.value, actor))
  }

  /** A payload determines its expiry and its actor, even if the actor's name contains the separator. */
  lemma PayloadInjective(m: int, a: string, n: int, b: string)
    requires -MAX_INT64 - 1 <= m <= MAX_INT64 && -MAX_INT64 - 1 <= n <= MAX_INT64
    requires Payload(m, a) == Payload(n, b)
    ensures m == n && a == b
  {
    PrintIntPlain(m);
    PrintIntPlain(n);
    CutAtFirst(PrintInt(m), '|', a);
    CutAtFirst(PrintInt(n), '|', b);
    PrintIntInjective(m, n);
  }

  /** The times whose expiry is an int64, which are those the clock can show. */
  predicate Representable(now: int) {
    -MAX_INT64 - 1 <= Unix(now + TTL * NANOS) <= MAX_INT64
  }

  lemma ExpiryIsLater(now: int)
    ensures Unix(now + TTL * NANOS) == Unix(now) + TTL
  {
    assert (now + TTL * NANOS) / NANOS == now / NANOS + TTL;
  }

  /** A token is valid exactly for the actor it was minted for and until four hours later, to the second. */
  lemma TokenValidExactly(k: Crypto, actor: string, minted: int, other: string, now: int)
    requires Sound(k) && Representable(minted)
    ensures CsrfValid(k, other, CsrfToken(k, actor, minted), now) <==>
      other == actor && Unix(now) <= Unix(minted) + 4 * 60 * 60
  {
    var exp := Unix(minted + TTL * NANOS);
    var sig := k.enc(k.mac(Payload(exp, actor)));
    ExpiryIsLater(minted);
    PrintIntPlain(exp);
    CutAtFirst(PrintInt(exp), '.', sig);
    ParseIntUndoesPrint(exp);
    assert k.dec(sig) == Some(k.mac(Payload(exp, actor)));
    if k.mac(Payload(exp, actor)) == k.mac(Payload(exp, other)) { PayloadInjective(exp, actor, exp, other); }
  }

  /**
   Whatever token is accepted carries a signature of exactly the expiry written in it and this actor,
   and that expiry has not passed; so the part before the point cannot be changed.
   */
  lemma AcceptedTokenIsSigned(k: Crypto, actor: string, token: string, now: int)
    requires Sound(k) && CsrfValid(k, actor, token, now)
    ensures exists exp ::
      && -MAX_INT64 - 1 <= exp <= MAX_INT64 && Unix(now) <= exp
      && ParseInt(Cut(token, '.').0) == Some(exp)
      && k.dec(Cut(token, '.').1) == Some(k.mac(Payload(exp, actor)))
  {
    var exp := ParseInt(Cut(token, '.').0).value;
    assert -MAX_INT64 - 1 <= exp <= MAX_INT64;
  }

  /** The same signature never validates two actors or two expiries. */
  lemma SignatureBindsBoth(k: Crypto, a: string, b: string, s: string, t: string, now: int, later: int)
    requires Sound(k) && CsrfValid(k, a, s, now) && CsrfValid(k, b, t, later)
    requires Cut(s, '.').1 == Cut(t, '.').1
    ensures a == b && ParseInt(Cut(s, '.').0) == ParseInt(Cut(t, '.').0)
  {
    AcceptedTokenIsSigned(k, a, s, now);
    AcceptedTokenIsSigned(k, b, t, later);
    var m, n := ParseInt(Cut(s, '.').0).value, ParseInt(Cut(t, '.').0).value;
    PayloadInjective(m, a, n, b);
  }
}
