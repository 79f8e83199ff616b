/**
 Compact tokens: issuing, splitting and verifying.  The digest and the JSON codec are
 functions the service is given.
 */
module Jwts {
  import opened Common
  import opened Base64Urls
  import opened Texts

  /** What `exp` is in a parsed payload: `int(payload.get("exp", 0))`, or a value `int` refuses. */
  datatype Expiry = Seconds(value: int) | Refused

  datatype Json =
    | Claims(sub: string, scopes: seq<string>, iat: int, exp: int, tokenType: string)
    | OtherObject(text: string, expiry: Expiry)
    | NotAnObject(text: string)

  datatype Service = Service(sign: string -> seq<Byte>, dumps: Json -> seq<Byte>, loads: seq<Byte> -> Option<Json>,
                             header: seq<Byte>, ttl: int)

  datatype Verdict = Accepted(payload: Json) | InvalidToken | ExpiredToken | Crash

  function ClaimsAt(s: Service, sub: string, scopes: seq<string>, ttl: Option<int>, tokenType: string, now: int): Json {
    Claims(sub, scopes, now, now + (match ttl case Some(t) => t case None => s.ttl), tokenType)
  }

  function Segment(s: Service, payload: Json): string {
    Encode(s.header) + "." + Encode(s.dumps(payload))
  }

  function Signature(s: Service, input: string): string {
    Encode(s.sign(input))
  }

  function Issue(s: Service, sub: string, scopes: seq<string>, ttl: Option<int>, tokenType: string, now: int): string {
    var seg := Segment(s, ClaimsAt(s, sub, scopes, ttl, tokenType, now));
    seg + "." + Signature(s, seg)
  }

  function ExpiryOf(payload: Json): Option<int> {
    match payload
    case Claims(_, _, _, exp, _) => Some(exp)
    case OtherObject(_, Seconds(v)) => Some(v)
    case OtherObject(_, Refused) => None
    case NotAnObject(_) => None
  }

  /** A signature that is not ASCII makes the comparison raise; so does a payload without a usable `exp`. */
  function Verify(s: Service, token: string, clock: real): Verdict {
    var parts := Split(token, '.');
    if |parts| != 3 then InvalidToken
    else if !Ascii(parts[2]) then Crash
    else if Signature(s, parts[0] + "." + parts[1]) != parts[2] then InvalidToken
    else
      match Decode(parts[1])
      case None => InvalidToken
      case Some(raw) =>
        match s.loads(raw)
        case None => InvalidToken
        case Some(payload) =>
          match ExpiryOf(payload)
          case None => Crash
          case Some(exp) => if (exp as real) < clock then ExpiredToken else Accepted(payload)
  }

  // ------------------------------------------------------------------ splitting

  lemma {:induction false} SplitThree(a: string, b: string, c: string)
    requires '.' !in a && '.' !in b && '.' !in c
    ensures Split(a + "." + b + "." + c, '.') == [a, b, c]
  {
    assert a + "." + b + "." + c == a + "." + (b + "." + c);
    SplitFirst(a, '.', b + "." + c);
    SplitFirst(b, '.', c);
    SplitWhole(c, '.');
  }

  lemma {:induction false} SafeIsAscii(s: string)
    requires UrlSafe(s)
    ensures Ascii(s)
  {
    forall i | 0 <= i < |s|
      ensures s[i] < 128 as char
    {
      assert InAlphabet(s[i]);
    }
  }

  // ------------------------------------------------------------------ the round trip

  /** The lifetime that was asked for, or the service's own. */
  function Lifetime(s: Service, ttl: Option<int>): int {
    match ttl
    case Some(asked) => asked
    case None => s.ttl
  }

  /** An issued token has exactly three segments: header, claims and signature. */
  lemma {:induction false} IssuedHasThreeParts(s: Service, sub: string, scopes: seq<string>, ttl: Option<int>,
                                               tokenType: string, now: int)
    ensures
      var claims := Claims(sub, scopes, now, now + Lifetime(s, ttl), tokenType);
      var parts := Split(Issue(s, sub, scopes, ttl, tokenType, now), '.');
      && |parts| == 3 && parts[2] == Encode(s.sign(parts[0] + "." + parts[1]))
      && Decode(parts[0]) == Some(s.header) && Decode(parts[1]) == Some(s.dumps(claims))
      && Decode(parts[2]) == Some(s.sign(parts[0] + "." + parts[1]))
  {
    var claims := ClaimsAt(s, sub, scopes, ttl, tokenType, now);
    var a, b, c := Encode(s.header), Encode(s.dumps(claims)), Signature(s, Segment(s, claims));
    EncodingIsUrlSafe(s.header);
    EncodingIsUrlSafe(s.dumps(claims));
    EncodingIsUrlSafe(s.sign(Segment(s, claims)));
    SplitThree(a, b, c);
    RoundTrip(s.header);
    RoundTrip(s.dumps(claims));
    RoundTrip(s.sign(Segment(s, claims)));
  }

  /**
   Verifying what was issued gives the issued claims as long as the clock is at most
   `exp`, and an expiry after that; nothing else can happen.
   */
  lemma {:induction false} VerifyIssued(s: Service, sub: string, scopes: seq<string>, ttl: Option<int>,
                                        tokenType: string, now: int, clock: real)
    requires
      var claims := Claims(sub, scopes, now, now + Lifetime(s, ttl), tokenType);
      s.loads(s.dumps(claims)) == Some(claims)
    ensures
      var claims := Claims(sub, scopes, now, now + Lifetime(s, ttl), tokenType);
      Verify(s, Issue(s, sub, scopes, ttl, tokenType, now), clock) ==
      if clock <= (now + Lifetime(s, ttl)) as real then Accepted(claims) else ExpiredToken
  {
    var claims := ClaimsAt(s, sub, scopes, ttl, tokenType, now);
    assert claims == Claims(sub, scopes, now, now + Lifetime(s, ttl), tokenType);
    IssuedHasThreeParts(s, sub, scopes, ttl, tokenType, now);
    assert Segment(s, claims) == Encode(s.header) + "." + Encode(s.dumps(claims));
    EncodingIsUrlSafe(s.sign(Segment(s, claims)));
    SafeIsAscii(Signature(s, Segment(s, claims)));
  }

  // ------------------------------------------------------------------ what acceptance means

  /** The two segments that are signed. */
  function Signed(a: string, b: string): string {
    a + "." + b
  }

  /**
   A token is accepted exactly when it is two dot-free segments followed by their own
   signature, the second one carries a payload, and the payload has not expired.
   */
  lemma {:induction false} AcceptedExactlyWhen(s: Service, token: string, clock: real, payload: Json)
    ensures Verify(s, token, clock) == Accepted(payload) <==>
            exists a: string, b: string ::
              && '.' !in a && '.' !in b && token == a + "." + b + "." + Encode(s.sign(a + "." + b))
              && Carries(s, b, payload) && Fresh(payload, clock)
  {
    if Verify(s, token, clock) == Accepted(payload) {
      var parts := Split(token, '.');
      PartsLackSeparator(token, '.');
      JoinOfSplit(token, '.');
      JoinThree(parts[0], parts[1], parts[2]);
      assert parts == [parts[0], parts[1], parts[2]];
      assert token ==
             parts[0] + "." + parts[1] + "." + Encode(s.sign(parts[0] + "." + parts[1]));
    }
    forall a: string, b: string |
      && '.' !in a && '.' !in b && token == a + "." + b + "." + Encode(s.sign(a + "." + b))
      && Carries(s, b, payload) && Fresh(payload, clock)
      ensures Verify(s, token, clock) == Accepted(payload)
    {
      var c := Signature(s, Signed(a, b));
      EncodingIsUrlSafe(s.sign(Signed(a, b)));
      SafeIsAscii(c);
      SplitThree(a, b, c);
    }
  }

  predicate Carries(s: Service, b: string, payload: Json) {
    match Decode(b)
    case None => false
    case Some(raw) => s.loads(raw) == Some(payload)
  }

  predicate Fresh(payload: Json, clock: real) {
    match payload
    case Claims(_, _, _, exp, _) => clock <= exp as real
    case OtherObject(_, Seconds(exp)) => clock <= exp as real
    case OtherObject(_, Refused) => false
    case NotAnObject(_) => false
  }

  lemma {:induction false} JoinThree(a: string, b: string, c: string)
    ensures Join([a, b, c], ".") == Signed(a, b) + "." + c
  {
    assert [a, b, c][1..] == [b, c] && [b, c][1..] == [c];
    assert Join([b, c], ".") == b + "." + c;
    assert Join([a, b, c], ".") == a + "." + (b + "." + c);
    assert a + "." + (b + "." + c) == a + "." + b + "." + c;
  }

  /** Two accepted tokens that agree on the signed segments are the same token. */
  lemma {:induction false} SignatureIsDetermined(s: Service, t: string, u: string, clock: real, later: real)
    requires Verify(s, t, clock).Accepted? && Verify(s, u, later).Accepted?
    requires Split(t, '.')[..2] == Split(u, '.')[..2]
    ensures t == u
  {
    var p, q := Split(t, '.'), Split(u, '.');
    assert p[0] == p[..2][0] && q[0] == q[..2][0] && p[1] == p[..2][1] && q[1] == q[..2][1];
    assert p == q;
    JoinOfSplit(t, '.');
    JoinOfSplit(u, '.');
  }

  // ------------------------------------------------------------------ what rejection means

  /** A token that the service signed. */
  ghost predicate Authentic(s: Service, token: string, a: string, b: string) {
    '.' !in a && '.' !in b && token == a + "." + b + "." + Encode(s.sign(a + "." + b))
  }

  lemma {:induction false} AuthenticParts(s: Service, token: string, a: string, b: string)
    requires Authentic(s, token, a, b)
    ensures Split(token, '.') == [a, b, Encode(s.sign(a + "." + b))] && Ascii(Encode(s.sign(a + "." + b)))
  {
    EncodingIsUrlSafe(s.sign(a + "." + b));
    SafeIsAscii(Encode(s.sign(a + "." + b)));
    SplitThree(a, b, Encode(s.sign(a + "." + b)));
  }

  lemma {:induction false} ThreeParts(token: string) returns (a: string, b: string, c: string)
    requires |Split(token, '.')| == 3
    ensures Split(token, '.') == [a, b, c] && '.' !in a && '.' !in b && '.' !in c && token == a + "." + b + "." + c
  {
    var parts := Split(token, '.');
    a, b, c := parts[0], parts[1], parts[2];
    PartsLackSeparator(token, '.');
    JoinOfSplit(token, '.');
    JoinThree(a, b, c);
    assert parts == [a, b, c];
  }

  /** A token is reported expired if and only if the service signed it and its payload's expiry is past. */
  lemma {:induction false} ExpiredExactlyWhen(s: Service, token: string, clock: real)
    ensures Verify(s, token, clock) == ExpiredToken <==>
            exists a: string, b: string, payload ::
              Authentic(s, token, a, b) && Carries(s, b, payload)
              && ExpiryOf(payload).Some? && (ExpiryOf(payload).value as real) < clock
  {
    if Verify(s, token, clock) == ExpiredToken {
      var a, b, c := ThreeParts(token);
      assert Authentic(s, token, a, b);
      assert Carries(s, b, s.loads(Decode(b).value).value);
    }
    forall a: string, b: string, payload |
      Authentic(s, token, a, b) && Carries(s, b, payload)
      && ExpiryOf(payload).Some? && (ExpiryOf(payload).value as real) < clock
      ensures Verify(s, token, clock) == ExpiredToken
    {
      AuthenticParts(s, token, a, b);
    }
  }

  /**
   Checking a token fails with an error of another kind if and only if its third part is
   not ASCII, or the service signed it and its payload has no usable expiry.
   */
  lemma {:induction false} CrashesExactlyWhen(s: Service, token: string, clock: real)
    ensures Verify(s, token, clock) == Crash <==>
            || (|Split(token, '.')| == 3
                && exists i :: 0 <= i < |Split(token, '.')[2]| && Split(token, '.')[2][i] as int >= 128)
            || (exists a: string, b: string, payload ::
                  Authentic(s, token, a, b) && Carries(s, b, payload) && ExpiryOf(payload) == None)
  {
    if Verify(s, token, clock) == Crash {
      var a, b, c := ThreeParts(token);
      if Ascii(c) {
        assert Authentic(s, token, a, b);
        assert Carries(s, b, s.loads(Decode(b).value).value);
      }
    }
    forall a: string, b: string, payload |
      Authentic(s, token, a, b) && Carries(s, b, payload) && ExpiryOf(payload) == None
      ensures Verify(s, token, clock) == Crash
    {
      AuthenticParts(s, token, a, b);
    }
  }
}
