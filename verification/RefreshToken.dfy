/** GenerateRefreshToken and ValidateRefreshToken of backend/auth.go, on byte strings. */
module RefreshToken {
  import opened Common

  type Byte = n: nat | n < 256

  const COLON: Byte := 58
  const PAD: Byte := 61
  const MAX_REFRESH_TOKEN_LENGTH := 512
  const SECRET_LENGTH := 32

  /** The longest session token whose refresh token stays within the limit. */
  const MAX_SESSION_TOKEN_LENGTH := 339

  /** Letter v of the base64 alphabet. */
  function Letter(v: nat): (c: Byte)
    requires v < 64
    ensures c != PAD && c != 10 && c != 13
  {
    if v < 26 then v + 65 else if v < 52 then v + 71 else if v < 62 then v - 4
    else if v == 62 then 43 else 47
  }

  function Value(c: Byte): (v: Option<nat>)
    ensures v.Some? ==> v.value < 64
  {
    if 65 <= c <= 90 then Some(c - 65)
    else if 97 <= c <= 122 then Some(c - 71)
    else if 48 <= c <= 57 then Some(c + 4)
    else if c == 43 then Some(62) else if c == 47 then Some(63) else None
  }

  /** The four six-bit groups of three bytes. */
  function Group0(b0: Byte): (v: nat) ensures v < 64 { b0 / 4 }
  function Group1(b0: Byte, b1: Byte): (v: nat) ensures v < 64 { b0 % 4 * 16 + b1 / 16 }
  function Group2(b1: Byte, b2: Byte): (v: nat) ensures v < 64 { b1 % 16 * 4 + b2 / 64 }
  function Group3(b2: Byte): (v: nat) ensures v < 64 { b2 % 64 }

  /** The three bytes of four six-bit groups. */
  function Byte0(v0: nat, v1: nat): Byte requires v0 < 64 && v1 < 64 { v0 * 4 + v1 / 16 }
  function Byte1(v1: nat, v2: nat): Byte requires v1 < 64 && v2 < 64 { v1 % 16 * 16 + v2 / 4 }
  function Byte2(v2: nat, v3: nat): Byte requires v2 < 64 && v3 < 64 { v2 % 4 * 64 + v3 }

  /** base64.StdEncoding.EncodeToString. */
  function Encode(b: seq<Byte>): seq<Byte> {
    if |b| == 0 then []
    else if |b| == 1 then [Letter(Group0(b[0])), Letter(Group1(b[0], 0)), PAD, PAD]
    else if |b| == 2 then [Letter(Group0(b[0])), Letter(Group1(b[0], b[1])), Letter(Group2(b[1], 0)), PAD]
    else
      [Letter(Group0(b[0])), Letter(Group1(b[0], b[1])), Letter(Group2(b[1], b[2])), Letter(Group3(b[2]))]
      + Encode(b[3..])
  }

  /** Line breaks are skipped by the decoder. */
  function DropLineBreaks(s: seq<Byte>): seq<Byte> {
    if s == [] then [] else (if s[0] == 10 || s[0] == 13 then [] else [s[0]]) + DropLineBreaks(s[1..])
  }

  function DecodeQuanta(s: seq<Byte>): Option<seq<Byte>> {
    if s == [] then Some([])
    else if |s| < 4 then None
    else
      var v0, v1, v2, v3 := Value(s[0]), Value(s[1]), Value(s[2]), Value(s[3]);
      if v0.None? || v1.None? then None
      else if s[2] == PAD then
        if s[3] == PAD && |s| == 4 then Some([Byte0(v0.value, v1.value)]) else None
      else if v2.None? then None
      else if s[3] == PAD then
        if |s| == 4 then Some([Byte0(v0.value, v1.value), Byte1(v1.value, v2.value)]) else None
      else if v3.None? then None
      else
        var rest := DecodeQuanta(s[4..]);
        if rest.None? then None
        else Some([Byte0(v0.value, v1.value), Byte1(v1.value, v2.value), Byte2(v2.value, v3.value)] + rest.value)
  }

  /** base64.StdEncoding.DecodeString; None stands for its error. */
  function Decode(s: seq<Byte>): Option<seq<Byte>> {
    DecodeQuanta(DropLineBreaks(s))
  }

  function IndexOf(s: seq<Byte>, c: Byte): (i: nat)
    ensures i <= |s|
    ensures i < |s| ==> s[i] == c
    ensures forall k :: 0 <= k < i ==> s[k] != c
  {
    if s == [] || s[0] == c then 0 else 1 + IndexOf(s[1..], c)
  }

  datatype TokenError = TooLong | BadEncoding | BadFormat | EmptySessionToken | BadSecretEncoding

  datatype Parsed = Parsed(sessionToken: seq<Byte>, secret: seq<Byte>)

  function GenerateRefreshToken(sessionToken: seq<Byte>, secret: seq<Byte>): seq<Byte> {
    Encode(sessionToken + [COLON] + Encode(secret))
  }

  function ValidateRefreshToken(token: seq<Byte>): Result<Parsed, TokenError> {
    if |token| > MAX_REFRESH_TOKEN_LENGTH then Err(TooLong)
    else
      var decoded := Decode(token);
      if decoded.None? then Err(BadEncoding)
      else
        var i := IndexOf(decoded.value, COLON);
        if i == |decoded.value| then Err(BadFormat)
        else if i == 0 then Err(EmptySessionToken)
        else
          var secret := Decode(decoded.value[i + 1..]);
          if secret.None? then Err(BadSecretEncoding)
          else Ok(Parsed(decoded.value[..i], secret.value))
  }

  lemma {:induction false} ValueOfLetter(v: nat)
    requires v < 64
    ensures Value(Letter(v)) == Some(v)
  {
  }

  lemma {:induction false} EncodeShape(b: seq<Byte>)
    ensures |Encode(b)| == (|b| + 2) / 3 * 4
    ensures DropLineBreaks(Encode(b)) == Encode(b)
    decreases |b|
  {
    hide DropLineBreaks, Letter, Group0, Group1, Group2, Group3;
    if |b| == 0 {
      DropNothing();
    } else if |b| <= 2 {
      DropFour(Encode(b), []);
    } else {
      EncodeShape(b[3..]);
      DropFour(Encode(b)[..4], Encode(b[3..]));
      assert Encode(b) == Encode(b)[..4] + Encode(b[3..]);
    }
  }

  lemma {:induction false} DropNothing()
    ensures DropLineBreaks([]) == []
  {
  }

  lemma {:induction false} DropFour(q: seq<Byte>, rest: seq<Byte>)
    requires |q| == 4 && forall k :: 0 <= k < 4 ==> q[k] != 10 && q[k] != 13
    ensures DropLineBreaks(q + rest) == q + DropLineBreaks(rest)
    ensures rest == [] ==> DropLineBreaks(q) == q
  {
    var s := q + rest;
    assert s[1..] == q[1..] + rest && s[2..] == q[2..] + rest && s[3..] == q[3..] + rest && s[4..] == rest;
    assert DropLineBreaks(s) == [q[0]] + DropLineBreaks(s[1..]);
    assert s[1..][1..] == s[2..] && s[2..][1..] == s[3..] && s[3..][1..] == s[4..];
    assert DropLineBreaks(s[1..]) == [q[1]] + DropLineBreaks(s[2..]);
    assert DropLineBreaks(s[2..]) == [q[2]] + DropLineBreaks(s[3..]);
    assert DropLineBreaks(s[3..]) == [q[3]] + DropLineBreaks(s[4..]);
    if rest == [] {
      assert s == q;
    }
  }

  /** Four groups give back the three bytes they were made of. */
  lemma {:induction false} QuantumRoundTrip(b0: Byte, b1: Byte, b2: Byte)
    ensures Byte0(Group0(b0), Group1(b0, b1)) == b0
    ensures Byte1(Group1(b0, b1), Group2(b1, b2)) == b1
    ensures Byte2(Group2(b1, b2), Group3(b2)) == b2
  {
  }

  lemma {:induction false} QuantaRoundTrip(b: seq<Byte>)
    ensures DecodeQuanta(Encode(b)) == Some(b)
    decreases |b|
  {
    if 0 < |b| < 3 {
      LastQuantumRoundTrip(b);
    } else if |b| >= 3 {
      QuantaRoundTrip(b[3..]);
      FirstQuantum(b);
    }
  }

  /** Four letters in front of text that decodes add their three bytes in front. */
  lemma {:induction false} DecodeStep(v0: nat, v1: nat, v2: nat, v3: nat, rest: seq<Byte>, out: seq<Byte>)
    requires v0 < 64 && v1 < 64 && v2 < 64 && v3 < 64
    requires DecodeQuanta(rest) == Some(out)
    ensures DecodeQuanta([Letter(v0), Letter(v1), Letter(v2), Letter(v3)] + rest)
            == Some([Byte0(v0, v1), Byte1(v1, v2), Byte2(v2, v3)] + out)
  {
    hide Letter, Value, Byte0, Byte1, Byte2;
    var s := [Letter(v0), Letter(v1), Letter(v2), Letter(v3)] + rest;
    assert s[4..] == rest;
    ValueOfLetter(v0);
    ValueOfLetter(v1);
    ValueOfLetter(v2);
    ValueOfLetter(v3);
  }

  lemma {:induction false} LastQuantumRoundTrip(b: seq<Byte>)
    requires 0 < |b| < 3
    ensures DecodeQuanta(Encode(b)) == Some(b)
  {
    hide DecodeQuanta, Letter, Value, Group0, Group1, Group2, Group3, Byte0, Byte1, Byte2;
    var b1 := if |b| == 1 then 0 else b[1];
    QuantumRoundTrip(b[0], b1, 0);
    DecodeLast(Group0(b[0]), Group1(b[0], b1), Group2(b1, 0));
    assert b == if |b| == 1 then [b[0]] else [b[0], b[1]];
  }

  lemma {:induction false} DecodeLast(v0: nat, v1: nat, v2: nat)
    requires v0 < 64 && v1 < 64 && v2 < 64
    ensures DecodeQuanta([Letter(v0), Letter(v1), PAD, PAD]) == Some([Byte0(v0, v1)])
    ensures DecodeQuanta([Letter(v0), Letter(v1), Letter(v2), PAD]) == Some([Byte0(v0, v1), Byte1(v1, v2)])
  {
    hide Letter, Value, Byte0, Byte1, Byte2;
    ValueOfLetter(v0);
    ValueOfLetter(v1);
    ValueOfLetter(v2);
  }

  lemma {:induction false} FrontThree(b: seq<Byte>)
    requires |b| >= 3
    ensures b == [b[0], b[1], b[2]] + b[3..]
  {
  }

  lemma {:induction false} FirstQuantum(b: seq<Byte>)
    requires |b| >= 3 && DecodeQuanta(Encode(b[3..])) == Some(b[3..])
    ensures DecodeQuanta(Encode(b)) == Some(b)
  {
    hide DecodeQuanta, Letter, Value, Group0, Group1, Group2, Group3, Byte0, Byte1, Byte2;
    QuantumRoundTrip(b[0], b[1], b[2]);
    DecodeStep(Group0(b[0]), Group1(b[0], b[1]), Group2(b[1], b[2]), Group3(b[2]), Encode(b[3..]), b[3..]);
    FrontThree(b);
  }

  /** Decoding undoes encoding for every byte string. */
  lemma {:induction false} Base64RoundTrip(b: seq<Byte>)
    ensures Decode(Encode(b)) == Some(b)
  {
    EncodeShape(b);
    QuantaRoundTrip(b);
  }

  lemma {:induction false} FirstColon(a: seq<Byte>, b: seq<Byte>)
    requires COLON !in a
    ensures IndexOf(a + [COLON] + b, COLON) == |a|
  {
    var s := a + [COLON] + b;
    assert s[|a|] == COLON;
    forall k | 0 <= k < |a| ensures s[k] != COLON {
      assert a[k] in a;
    }
  }

  /** Only session tokens of more than 339 bytes exceed the length limit. */
  lemma {:induction false} TokenLength(sessionToken: seq<Byte>, secret: seq<Byte>)
    requires |secret| == SECRET_LENGTH
    ensures |GenerateRefreshToken(sessionToken, secret)| > MAX_REFRESH_TOKEN_LENGTH
            <==> |sessionToken| > MAX_SESSION_TOKEN_LENGTH
  {
    hide Encode;
    var encoded := Encode(secret);
    EncodeShape(secret);
    assert |encoded| == 44;
    EncodeShape(sessionToken + [COLON] + encoded);
  }

  lemma {:induction false} GoodTokenRoundTrip(sessionToken: seq<Byte>, secret: seq<Byte>)
    requires |secret| == SECRET_LENGTH
    requires 0 < |sessionToken| <= MAX_SESSION_TOKEN_LENGTH && COLON !in sessionToken
    ensures ValidateRefreshToken(GenerateRefreshToken(sessionToken, secret)) == Ok(Parsed(sessionToken, secret))
  {
    var plain := sessionToken + [COLON] + Encode(secret);
    TokenLength(sessionToken, secret);
    Base64RoundTrip(plain);
    FirstColon(sessionToken, Encode(secret));
    assert plain[..|sessionToken|] == sessionToken && plain[|sessionToken| + 1..] == Encode(secret);
    Base64RoundTrip(secret);
  }

  /** A session token that validation accepts is non-empty and has no colon. */
  lemma {:induction false} ParsedTokenShape(token: seq<Byte>)
    requires ValidateRefreshToken(token).Ok?
    ensures ValidateRefreshToken(token).value.sessionToken != []
    ensures COLON !in ValidateRefreshToken(token).value.sessionToken
  {
  }

  /**
   * For the 32-byte secrets the server issues, validating a generated token gives back the session
   * token and the secret exactly if the session token is non-empty, has no colon and has at most
   * 339 bytes.
   */
  lemma {:induction false} TokenRoundTrip(sessionToken: seq<Byte>, secret: seq<Byte>)
    requires |secret| == SECRET_LENGTH
    ensures ValidateRefreshToken(GenerateRefreshToken(sessionToken, secret)) == Ok(Parsed(sessionToken, secret))
            <==> 0 < |sessionToken| <= MAX_SESSION_TOKEN_LENGTH && COLON !in sessionToken
  {
    TokenLength(sessionToken, secret);
    var r := ValidateRefreshToken(GenerateRefreshToken(sessionToken, secret));
    if r == Ok(Parsed(sessionToken, secret)) {
      ParsedTokenShape(GenerateRefreshToken(sessionToken, secret));
    }
    if 0 < |sessionToken| <= MAX_SESSION_TOKEN_LENGTH && COLON !in sessionToken {
      GoodTokenRoundTrip(sessionToken, secret);
    }
  }
}
