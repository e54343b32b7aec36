/** The hub's token text: base64url without padding, and HS256-style sign and verify. */
module Jwt {
  import opened Util
  import opened Bytes
  import opened Text

  // ----- Base64 -----

  function Digit(v: int): char
    requires 0 <= v < 64
  {
    if v < 26 then ('A' as int + v) as char
    else if v < 52 then ('a' as int + v - 26) as char
    else if v < 62 then ('0' as int + v - 52) as char
    else if v == 62 then '+'
    else '/'
  }

  /** Decoding takes either alphabet; other characters are skipped. */
  function ValueOf(c: char): Option<int> {
    if 'A' <= c <= 'Z' then Some(c as int - 'A' as int)
    else if 'a' <= c <= 'z' then Some(c as int - 'a' as int + 26)
    else if '0' <= c <= '9' then Some(c as int - '0' as int + 52)
    else if c == '+' || c == '-' then Some(62)
    else if c == '/' || c == '_' then Some(63)
    else None
  }

  lemma ValueOfDigit(v: int)
    requires 0 <= v < 64
    ensures ValueOf(Digit(v)) == Some(v) && Digit(v) != '=' && Digit(v) != '-' && Digit(v) != '_' && Digit(v) != '.'
  {
  }

  // How three bytes are cut into four groups of six bits, and put together again.
  function SixA(x: Byte): (r: int) ensures 0 <= r < 64 { x / 4 }
  function SixB(x: Byte, y: Byte): (r: int) ensures 0 <= r < 64 { x % 4 * 16 + y / 16 }
  function SixC(y: Byte, z: Byte): (r: int) ensures 0 <= r < 64 { y % 16 * 4 + z / 64 }
  function SixD(z: Byte): (r: int) ensures 0 <= r < 64 { z % 64 }
  predicate Six(v: int) { 0 <= v < 64 }
  function ByteA(p: int, q: int): Byte requires Six(p) && Six(q) { p * 4 + q / 16 }
  function ByteB(q: int, r: int): Byte requires Six(q) && Six(r) { q % 16 * 16 + r / 4 }
  function ByteC(r: int, t: int): Byte requires Six(r) && Six(t) { r % 4 * 64 + t }

  /** The six-bit groups of a byte string, the last one filled with zero bits. */
  function Sixes(b: seq<Byte>): (r: seq<int>)
    ensures forall i :: 0 <= i < |r| ==> 0 <= r[i] < 64
  {
    if b == [] then []
    else if |b| == 1 then [SixA(b[0]), SixB(b[0], 0)]
    else if |b| == 2 then [SixA(b[0]), SixB(b[0], b[1]), SixC(b[1], 0)]
    else [SixA(b[0]), SixB(b[0], b[1]), SixC(b[1], b[2]), SixD(b[2])] + Sixes(b[3..])
  }

  /** The bytes of six-bit groups; a last incomplete byte is dropped. */
  function Eights(v: seq<int>): seq<Byte>
    requires forall i :: 0 <= i < |v| ==> 0 <= v[i] < 64
  {
    if |v| < 2 then []
    else if |v| == 2 then [ByteA(v[0], v[1])]
    else if |v| == 3 then [ByteA(v[0], v[1]), ByteB(v[1], v[2])]
    else [ByteA(v[0], v[1]), ByteB(v[1], v[2]), ByteC(v[2], v[3])] + Eights(v[4..])
  }

  lemma GroupOfThree(x: Byte, y: Byte, z: Byte)
    ensures ByteA(SixA(x), SixB(x, y)) == x
    ensures ByteB(SixB(x, y), SixC(y, z)) == y
    ensures ByteC(SixC(y, z), SixD(z)) == z
  {
  }

  lemma EightsStep(p: int, q: int, r: int, t: int, rest: seq<int>, v: seq<int>)
    requires Six(p) && Six(q) && Six(r) && Six(t) && v == [p, q, r, t] + rest
    requires forall i :: 0 <= i < |rest| ==> 0 <= rest[i] < 64
    ensures forall i :: 0 <= i < |v| ==> 0 <= v[i] < 64
    ensures Eights(v) == [ByteA(p, q), ByteB(q, r), ByteC(r, t)] + Eights(rest)
  {
    assert v[0] == p && v[1] == q && v[2] == r && v[3] == t;
    assert v[4..] == rest;
  }

  lemma EightsOfPair(p: int, q: int)
    requires Six(p) && Six(q)
    ensures Eights([p, q]) == [ByteA(p, q)]
  {
  }

  lemma EightsOfOne(x: Byte)
    ensures Eights(Sixes([x])) == [x]
  {
    EightsOfPair(SixA(x), SixB(x, 0));
    GroupOfThree(x, 0, 0);
  }

  lemma EightsOfTwo(x: Byte, y: Byte)
    ensures Eights(Sixes([x, y])) == [x, y]
  {
    GroupOfThree(x, y, 0);
    var v := [SixA(x), SixB(x, y), SixC(y, 0)];
    assert Sixes([x, y]) == v;
    assert Eights(v) == [ByteA(SixA(x), SixB(x, y)), ByteB(SixB(x, y), SixC(y, 0))];
  }

  lemma {:induction false} EightsOfSixes(b: seq<Byte>)
    ensures Eights(Sixes(b)) == b
    decreases |b|
  {
    if |b| == 1 {
      EightsOfOne(b[0]);
      assert b == [b[0]];
    } else if |b| == 2 {
      EightsOfTwo(b[0], b[1]);
      assert b == [b[0], b[1]];
    } else if |b| > 2 {
      var x, y, z, rest := b[0], b[1], b[2], b[3..];
      EightsOfSixes(rest);
      GroupOfThree(x, y, z);
      EightsStep(SixA(x), SixB(x, y), SixC(y, z), SixD(z), Sixes(rest), Sixes(b));
      assert b == [x, y, z] + rest;
    }
  }

  lemma GroupLengths(bytes: nat, sixes: nat)
    ensures (bytes + 3) % 3 == bytes % 3 && (sixes + 4) % 4 == sixes % 4
  {
  }

  lemma SixesLengthStep(b: seq<Byte>)
    requires |b| >= 3
    ensures |Sixes(b)| == |Sixes(b[3..])| + 4
  {
  }

  lemma {:induction false} SixesLength(b: seq<Byte>)
    ensures |Sixes(b)| % 4 == if |b| % 3 == 0 then 0 else |b| % 3 + 1
    decreases |b|
  {
    if |b| >= 3 {
      SixesLengthStep(b);
      SixesLength(b[3..]);
      GroupLengths(|b| - 3, |Sixes(b[3..])|);
    }
  }

  function Digits(v: seq<int>): string
    requires forall i :: 0 <= i < |v| ==> 0 <= v[i] < 64
  {
    seq(|v|, i requires 0 <= i < |v| => Digit(v[i]))
  }

  function Equals(n: nat): (s: string)
    ensures |s| == n && forall i :: 0 <= i < n ==> s[i] == '='
  {
    seq(n, _ => '=')
  }

  /** buf.toString('base64'): padded to a multiple of four. */
  function Base64(b: seq<Byte>): string {
    Digits(Sixes(b)) + Equals(if |b| % 3 == 0 then 0 else 3 - |b| % 3)
  }

  function Values(s: string): (v: seq<int>)
    ensures forall i :: 0 <= i < |v| ==> 0 <= v[i] < 64
  {
    if s == [] then []
    else Values(s[..|s| - 1]) + (if ValueOf(s[|s| - 1]).Some? then [ValueOf(s[|s| - 1]).value] else [])
  }

  /** Buffer.from(s, 'base64') */
  function FromBase64(s: string): seq<Byte> { Eights(Values(s)) }

  // ----- The URL alphabet without padding -----

  function Replace(s: string, from: char, to: char): string {
    seq(|s|, i requires 0 <= i < |s| => if s[i] == from then to else s[i])
  }

  function StripEquals(s: string): string {
    if s != [] && s[|s| - 1] == '=' then StripEquals(s[..|s| - 1]) else s
  }

  function B64Url(b: seq<Byte>): string {
    StripEquals(Replace(Replace(Base64(b), '+', '-'), '/', '_'))
  }

  function B64UrlDecode(s: string): seq<Byte> {
    var pad := if |s| % 4 == 0 then "" else Equals(4 - |s| % 4);
    FromBase64(Replace(Replace(s, '-', '+'), '_', '/') + pad)
  }

  lemma {:induction false} StripPadding(s: string, n: nat)
    requires s == "" || s[|s| - 1] != '='
    ensures StripEquals(s + Equals(n)) == s
    decreases n
  {
    if n == 0 {
      assert s + Equals(0) == s;
    } else {
      assert (s + Equals(n))[..|s| + n - 1] == s + Equals(n - 1);
      StripPadding(s, n - 1);
    }
  }

  /** The URL form is the digits of the six-bit groups, in the URL alphabet. */
  lemma B64UrlIs(b: seq<Byte>)
    ensures B64Url(b) == Replace(Replace(Digits(Sixes(b)), '+', '-'), '/', '_')
    ensures forall i :: 0 <= i < |B64Url(b)| ==> B64Url(b)[i] !in {'+', '/', '=', '.'}
  {
    var digits := Digits(Sixes(b));
    var n := if |b| % 3 == 0 then 0 else 3 - |b| % 3;
    var u := Replace(Replace(digits, '+', '-'), '/', '_');
    forall i | 0 <= i < |u| ensures u[i] !in {'+', '/', '=', '.'} { ValueOfDigit(Sixes(b)[i]); }
    assert Replace(Replace(digits + Equals(n), '+', '-'), '/', '_') == u + Equals(n);
    StripPadding(u, n);
  }

  lemma ValuesSnoc(s: string, c: char)
    ensures Values(s + [c]) == Values(s) + (if ValueOf(c).Some? then [ValueOf(c).value] else [])
  {
    assert (s + [c])[..|s|] == s;
  }

  lemma {:induction false} ValuesOfPadded(s: string, n: nat)
    ensures Values(s + Equals(n)) == Values(s)
  {
    if n == 0 {
      assert s + Equals(0) == s;
    } else {
      assert s + Equals(n) == (s + Equals(n - 1)) + ['='];
      ValuesSnoc(s + Equals(n - 1), '=');
      ValuesOfPadded(s, n - 1);
    }
  }

  lemma DigitsSnoc(front: seq<int>, last: int)
    requires Six(last) && forall i :: 0 <= i < |front| ==> 0 <= front[i] < 64
    ensures Digits(front + [last]) == Digits(front) + [Digit(last)]
  {
  }

  lemma ValuesOfDigitsStep(front: seq<int>, last: int)
    requires Six(last) && forall i :: 0 <= i < |front| ==> 0 <= front[i] < 64
    requires Values(Digits(front)) == front
    ensures Values(Digits(front + [last])) == front + [last]
  {
    DigitsSnoc(front, last);
    ValueOfDigit(last);
    ValuesSnoc(Digits(front), Digit(last));
  }

  lemma {:induction false} ValuesOfDigits(v: seq<int>)
    requires forall i :: 0 <= i < |v| ==> 0 <= v[i] < 64
    ensures Values(Digits(v)) == v
    decreases |v|
  {
    if v != [] {
      var front, last := v[..|v| - 1], v[|v| - 1];
      assert v == front + [last];
      ValuesOfDigits(front);
      ValuesOfDigitsStep(front, last);
    }
  }

  /** Padding removed is padding recovered: every byte string survives. */
  lemma B64UrlRoundTrip(b: seq<Byte>)
    ensures B64UrlDecode(B64Url(b)) == b
  {
    var v := Sixes(b);
    var u := B64Url(b);
    B64UrlIs(b);
    var digits := Digits(v);
    forall i | 0 <= i < |v| ensures digits[i] != '-' && digits[i] != '_' { ValueOfDigit(v[i]); }
    assert Replace(Replace(u, '-', '+'), '_', '/') == digits;
    SixesLength(b);
    ValuesOfDigits(v);
    if |u| % 4 == 0 {
      assert digits + "" == digits;
    } else {
      ValuesOfPadded(digits, 4 - |u| % 4);
    }
    EightsOfSixes(b);
  }

  lemma B64UrlInjective(a: seq<Byte>, b: seq<Byte>)
    requires B64Url(a) == B64Url(b)
    ensures a == b
  {
    B64UrlRoundTrip(a);
    B64UrlRoundTrip(b);
  }

  // ----- Sign and verify -----

  datatype Claims = Claims(iss: string, ws: string, sub: string, exp: int, role: string, jti: string)

  /** A parsed body: a field that is absent or of another type is None. */
  datatype Body = Body(iss: Option<string>, ws: Option<string>, sub: Option<string>, role: Option<string>,
                       jti: Option<string>, iat: Option<int>, exp: Option<int>)

  const SEVEN_DAYS_S := 7 * 24 * 60 * 60

  /** JSON text as bytes, and the keyed hash; what they compute is not modelled. */
  datatype Codec = Codec(header: seq<Byte>, encode: Body -> seq<Byte>, decode: seq<Byte> -> Option<Body>,
                         mac: string -> seq<Byte>)

  ghost predicate RoundTrips(codec: Codec) {
    forall b: Body :: codec.decode(codec.encode(b)) == Some(b)
  }

  /** Instants are milliseconds, as Date.now() gives them. */
  function Seconds(ms: int): int { ms / 1000 }

  datatype SignInput = SignInput(ws: string, sub: string, role: string, iss: Option<string>)

  function BodyOf(p: SignInput, jti: string, nowMs: int): Body {
    Body(Some(if p.iss.Some? then p.iss.value else "hub"), Some(p.ws), Some(p.sub), Some(p.role), Some(jti),
         Some(Seconds(nowMs)), Some(Seconds(nowMs) + SEVEN_DAYS_S))
  }

  function ClaimsOf(p: SignInput, jti: string, nowMs: int): Claims {
    Claims(if p.iss.Some? then p.iss.value else "hub", p.ws, p.sub, Seconds(nowMs) + SEVEN_DAYS_S, p.role, jti)
  }

  function Sign(codec: Codec, p: SignInput, jti: string, nowMs: int): string {
    var signing := B64Url(codec.header) + "." + B64Url(codec.encode(BodyOf(p, jti, nowMs)));
    signing + "." + B64Url(codec.mac(signing))
  }

  /** The checks on a parsed body. An exp of zero is no expiry to the first check. */
  function CheckBody(b: Body, nowMs: int): Option<Claims> {
    if b.exp.Some? && b.exp.value != 0 && b.exp.value < Seconds(nowMs) then None
    else if b.iss.None? || b.ws.None? || b.sub.None? || b.exp.None? || b.role.None? || b.jti.None? then None
    else Some(Claims(b.iss.value, b.ws.value, b.sub.value, b.exp.value, b.role.value, b.jti.value))
  }

  function VerifyParts(codec: Codec, header: string, body: string, sig: string, nowMs: int): Option<Claims> {
    if sig != B64Url(codec.mac(header + "." + body)) then None
    else
      match codec.decode(B64UrlDecode(body))
      case None => None
      case Some(b) => CheckBody(b, nowMs)
  }

  function Verify(codec: Codec, token: string, nowMs: int): Option<Claims> {
    var parts := Split(token, '.');
    if |parts| != 3 then None else VerifyParts(codec, parts[0], parts[1], parts[2], nowMs)
  }

  lemma NoDot(b: seq<Byte>)
    ensures '.' !in B64Url(b)
  {
    B64UrlIs(b);
  }

  lemma ThreeParts(a: string, b: string, c: string)
    requires '.' !in a && '.' !in b && '.' !in c
    ensures Split(a + "." + b + "." + c, '.') == [a, b, c]
  {
    var parts := [a, b, c];
    assert parts[..2][..1] == [a] && parts[..2] == [a, b];
    assert Join([a, b], '.') == a + "." + b;
    assert Join(parts, '.') == a + "." + b + "." + c;
    SplitOfJoin(parts, '.');
  }

  lemma VerifyJoined(codec: Codec, header: string, body: string, sig: string, nowMs: int)
    requires '.' !in header && '.' !in body && '.' !in sig
    ensures Verify(codec, header + "." + body + "." + sig, nowMs) == VerifyParts(codec, header, body, sig, nowMs)
  {
    ThreeParts(header, body, sig);
  }

  lemma CheckedBody(p: SignInput, jti: string, signedMs: nat, nowMs: int)
    ensures CheckBody(BodyOf(p, jti, signedMs), nowMs)
            == if Seconds(nowMs) <= Seconds(signedMs) + SEVEN_DAYS_S then Some(ClaimsOf(p, jti, signedMs)) else None
  {
  }

  /** A signed token verifies to its claims exactly until its expiry, whole seconds counted. */
  lemma SignedVerifiesUntilExpiry(codec: Codec, p: SignInput, jti: string, signedMs: nat, nowMs: int)
    requires RoundTrips(codec)
    ensures Verify(codec, Sign(codec, p, jti, signedMs), nowMs)
            == if Seconds(nowMs) <= Seconds(signedMs) + SEVEN_DAYS_S then Some(ClaimsOf(p, jti, signedMs)) else None
  {
    var body := BodyOf(p, jti, signedMs);
    var bytes := codec.encode(body);
    var h, b := B64Url(codec.header), B64Url(bytes);
    var mac := codec.mac(h + "." + b);
    NoDot(codec.header);
    NoDot(bytes);
    NoDot(mac);
    VerifyJoined(codec, h, b, B64Url(mac), nowMs);
    B64UrlRoundTrip(bytes);
    assert codec.decode(bytes) == Some(body);
    CheckedBody(p, jti, signedMs, nowMs);
  }

  /** What verifies carries a matching hash over its first two parts and an unexpired body whose
      fields are the claims. */
  lemma VerifiedIsSigned(codec: Codec, token: string, nowMs: int)
    requires Verify(codec, token, nowMs).Some?
    ensures exists h, b :: SignedText(codec, token, h, b, nowMs, Verify(codec, token, nowMs).value)
  {
    var parts := Split(token, '.');
    JoinThree(token);
    assert SignedText(codec, token, parts[0], parts[1], nowMs, Verify(codec, token, nowMs).value);
  }

  /** The token is these two parts, without dots, and the hash over them. */
  ghost predicate SignedBy(codec: Codec, token: string, h: string, b: string) {
    '.' !in h && '.' !in b && token == h + "." + b + "." + B64Url(codec.mac(h + "." + b))
  }

  /** The body has every claim, and an expiry of zero or one not yet past. */
  predicate Vouches(body: Body, nowMs: int, c: Claims) {
    && body.iss == Some(c.iss) && body.ws == Some(c.ws) && body.sub == Some(c.sub)
    && body.exp == Some(c.exp) && body.role == Some(c.role) && body.jti == Some(c.jti)
    && (c.exp == 0 || nowMs / 1000 <= c.exp)
  }

  ghost predicate SignedFor(codec: Codec, token: string, h: string, b: string, nowMs: int, c: Claims) {
    && SignedBy(codec, token, h, b)
    && codec.decode(B64UrlDecode(b)).Some? && Vouches(codec.decode(B64UrlDecode(b)).value, nowMs, c)
  }

  /** A token verifies to claims exactly if it is two parts and the hash over them, and the second
      decodes to a body with those claims that has not expired. */
  lemma VerifiesIff(codec: Codec, token: string, nowMs: int, c: Claims)
    ensures Verify(codec, token, nowMs) == Some(c) <==> exists h, b :: SignedFor(codec, token, h, b, nowMs, c)
  {
    if Verify(codec, token, nowMs) == Some(c) {
      var parts := Split(token, '.');
      VerifiedIsSigned(codec, token, nowMs);
      SplitPartsClean(token, '.');
      JoinThree(token);
      assert SignedFor(codec, token, parts[0], parts[1], nowMs, c);
    }
    if h, b :| SignedFor(codec, token, h, b, nowMs, c) {
      NoDot(codec.mac(h + "." + b));
      VerifyJoined(codec, h, b, B64Url(codec.mac(h + "." + b)), nowMs);
    }
  }

  lemma JoinThree(token: string)
    requires |Split(token, '.')| == 3
    ensures var parts := Split(token, '.'); token == parts[0] + "." + parts[1] + "." + parts[2]
  {
    var parts := Split(token, '.');
    JoinOfSplit(token, '.');
    assert parts[..2][..1] == [parts[0]] && parts == [parts[0], parts[1], parts[2]];
    assert Join(parts[..2], '.') == parts[0] + "." + parts[1];
  }

  ghost predicate SignedText(codec: Codec, token: string, h: string, b: string, nowMs: int, claims: Claims) {
    && token == h + "." + b + "." + B64Url(codec.mac(h + "." + b))
    && var body := codec.decode(B64UrlDecode(b));
       body.Some? && CheckBody(body.value, nowMs) == Some(claims)
       && (claims.exp == 0 || Seconds(nowMs) <= claims.exp)
  }
}
