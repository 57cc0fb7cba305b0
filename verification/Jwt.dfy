// middleware: JWTs in compact form (section 7.1 of RFC 7515) over base64url
// without padding (section 5 of RFC 4648). HMAC and JSON are arbitrary
// functions.
module Jwt {
  import opened Text

  newtype Byte = b: int | 0 <= b < 256

  type Bytes = seq<Byte>

  // ----- base64url -----

  // Three bytes are cut into four values of six bits, and put together again.
  newtype Six = n: int | 0 <= n < 64

  function Char64(n: Six): (c: char)
    ensures Value64(c) == Some(n)
    ensures c != '.' && c != '\n' && c != '\r'
  {
    if n < 26 then ('A' as int + n as int) as char
    else if n < 52 then ('a' as int + n as int - 26) as char
    else if n < 62 then ('0' as int + n as int - 52) as char
    else if n == 62 then '-' else '_'
  }

  function Value64(c: char): Option<Six>
  {
    if 'A' <= c <= 'Z' then Some((c as int - 'A' as int) as Six)
    else if 'a' <= c <= 'z' then Some((c as int - 'a' as int + 26) as Six)
    else if '0' <= c <= '9' then Some((c as int - '0' as int + 52) as Six)
    else if c == '-' then Some(62)
    else if c == '_' then Some(63)
    else None
  }

  function Cut0(b0: Byte): Six { (b0 / 4) as Six }
  function Cut1(b0: Byte, b1: Byte): Six { (b0 % 4 * 16 + b1 / 16) as Six }
  function Cut2(b1: Byte, b2: Byte): Six { (b1 % 16 * 4 + b2 / 64) as Six }
  function Cut3(b2: Byte): Six { (b2 % 64) as Six }

  function Byte0(n0: Six, n1: Six): Byte { n0 as Byte * 4 + n1 as Byte / 16 }
  function Byte1(n1: Six, n2: Six): Byte { n1 as Byte % 16 * 16 + n2 as Byte / 4 }
  function Byte2(n2: Six, n3: Six): Byte { n2 as Byte % 4 * 64 + n3 as Byte }

  lemma CutsRejoin(b0: Byte, b1: Byte, b2: Byte)
    ensures Byte0(Cut0(b0), Cut1(b0, b1)) == b0
    ensures Byte1(Cut1(b0, b1), Cut2(b1, b2)) == b1
    ensures Byte2(Cut2(b1, b2), Cut3(b2)) == b2
  {
  }

  // base64.RawURLEncoding.EncodeToString
  function Encode(bs: Bytes): (s: string)
    decreases |bs|
  {
    if |bs| == 0 then ""
    else if |bs| == 1 then [Char64(Cut0(bs[0])), Char64(Cut1(bs[0], 0))]
    else if |bs| == 2 then [Char64(Cut0(bs[0])), Char64(Cut1(bs[0], bs[1])), Char64(Cut2(bs[1], 0))]
    else
      [Char64(Cut0(bs[0])), Char64(Cut1(bs[0], bs[1])), Char64(Cut2(bs[1], bs[2])), Char64(Cut3(bs[2]))]
      + Encode(bs[3..])
  }

  predicate In64(s: string) { forall c :: c in s ==> c != '.' && c != '\n' && c != '\r' }

  function WithoutLineBreaks(s: string): string {
    if s == "" then ""
    else if s[0] == '\n' || s[0] == '\r' then WithoutLineBreaks(s[1..])
    else [s[0]] + WithoutLineBreaks(s[1..])
  }

  // base64.RawURLEncoding.DecodeString: line breaks are skipped, the spare bits
  // of a short last group are ignored, a group of one is an error.
  function Decode(s: string): Option<Bytes> { DecodeGroups(WithoutLineBreaks(s)) }

  function DecodeGroups(s: string): Option<Bytes>
    decreases |s|
  {
    if |s| == 0 then Some([])
    else if |s| == 1 then None
    else
      var v0, v1 := Value64(s[0]), Value64(s[1]);
      if v0.None? || v1.None? then None
      else if |s| == 2 then Some([Byte0(v0.value, v1.value)])
      else
        var v2 := Value64(s[2]);
        if v2.None? then None
        else if |s| == 3 then Some([Byte0(v0.value, v1.value), Byte1(v1.value, v2.value)])
        else
          var v3, rest := Value64(s[3]), DecodeGroups(s[4..]);
          if v3.None? || rest.None? then None
          else Some([Byte0(v0.value, v1.value), Byte1(v1.value, v2.value), Byte2(v2.value, v3.value)] + rest.value)
  }

  lemma {:induction false} EncodedIsIn64(bs: Bytes)
    ensures In64(Encode(bs))
    decreases |bs|
  {
    if |bs| >= 3 {
      EncodedIsIn64(bs[3..]);
    }
  }

  lemma {:induction false} NoLineBreaks(s: string)
    requires In64(s)
    ensures WithoutLineBreaks(s) == s
    decreases |s|
  {
    if s != "" {
      assert s[0] in s && forall c :: c in s[1..] ==> c in s;
      NoLineBreaks(s[1..]);
      assert s == [s[0]] + s[1..];
    }
  }

  lemma FullGroup(n0: Six, n1: Six, n2: Six, n3: Six, rest: string)
    requires DecodeGroups(rest).Some?
    ensures DecodeGroups([Char64(n0), Char64(n1), Char64(n2), Char64(n3)] + rest)
         == Some([Byte0(n0, n1), Byte1(n1, n2), Byte2(n2, n3)] + DecodeGroups(rest).value)
  {
    hide Char64, Value64, Byte0, Byte1, Byte2;
    var s := [Char64(n0), Char64(n1), Char64(n2), Char64(n3)] + rest;
    assert s[0] == Char64(n0) && s[1] == Char64(n1) && s[2] == Char64(n2) && s[3] == Char64(n3);
    assert s[4..] == rest;
  }

  lemma GroupOfTwo(n0: Six, n1: Six)
    ensures DecodeGroups([Char64(n0), Char64(n1)]) == Some([Byte0(n0, n1)])
  {
    hide Char64, Value64, Byte0;
  }

  lemma GroupOfThree(n0: Six, n1: Six, n2: Six)
    ensures DecodeGroups([Char64(n0), Char64(n1), Char64(n2)]) == Some([Byte0(n0, n1), Byte1(n1, n2)])
  {
    hide Char64, Value64, Byte0, Byte1;
  }

  lemma NoBytes()
    ensures DecodeGroups(Encode([])) == Some([])
  {
    assert Encode([]) == "";
  }

  lemma OneByte(b0: Byte)
    ensures DecodeGroups(Encode([b0])) == Some([b0])
  {
    assert Encode([b0]) == [Char64(Cut0(b0)), Char64(Cut1(b0, 0))];
    hide *;
    CutsRejoin(b0, 0, 0);
    GroupOfTwo(Cut0(b0), Cut1(b0, 0));
  }

  lemma TwoBytes(b0: Byte, b1: Byte)
    ensures DecodeGroups(Encode([b0, b1])) == Some([b0, b1])
  {
    assert Encode([b0, b1]) == [Char64(Cut0(b0)), Char64(Cut1(b0, b1)), Char64(Cut2(b1, 0))];
    hide *;
    CutsRejoin(b0, b1, 0);
    GroupOfThree(Cut0(b0), Cut1(b0, b1), Cut2(b1, 0));
  }

  lemma ThreeBytes(b0: Byte, b1: Byte, b2: Byte, rest: Bytes)
    requires DecodeGroups(Encode(rest)) == Some(rest)
    ensures DecodeGroups(Encode([b0, b1, b2] + rest)) == Some([b0, b1, b2] + rest)
  {
    var bs := [b0, b1, b2] + rest;
    assert bs[3..] == rest;
    assert Encode(bs) == [Char64(Cut0(b0)), Char64(Cut1(b0, b1)), Char64(Cut2(b1, b2)), Char64(Cut3(b2))] + Encode(rest);
    hide *;
    CutsRejoin(b0, b1, b2);
    FullGroup(Cut0(b0), Cut1(b0, b1), Cut2(b1, b2), Cut3(b2), Encode(rest));
  }

  lemma {:induction false} GroupsRoundTrip(bs: Bytes)
    ensures DecodeGroups(Encode(bs)) == Some(bs)
    decreases |bs|
  {
    hide *;
    if |bs| == 0 {
      NoBytes();
    } else if |bs| == 1 {
      OneByte(bs[0]);
      assert bs == [bs[0]];
    } else if |bs| == 2 {
      TwoBytes(bs[0], bs[1]);
      assert bs == [bs[0], bs[1]];
    } else {
      var rest := bs[3..];
      GroupsRoundTrip(rest);
      ThreeBytes(bs[0], bs[1], bs[2], rest);
      assert bs == [bs[0], bs[1], bs[2]] + rest;
    }
  }

  // Decoding undoes encoding, so the encoding loses nothing.
  lemma Base64RoundTrip(bs: Bytes)
    ensures Decode(Encode(bs)) == Some(bs)
  {
    EncodedIsIn64(bs);
    NoLineBreaks(Encode(bs));
    GroupsRoundTrip(bs);
  }

  lemma EncodeIsInjective(a: Bytes, b: Bytes)
    ensures Encode(a) == Encode(b) <==> a == b
  {
    Base64RoundTrip(a);
    Base64RoundTrip(b);
  }

  // ----- what the characters say -----

  // A character stands for its position in the alphabet (table 2 of RFC 4648).
  lemma AlphabetIs(n: Six)
    ensures n < 26 ==> Char64(n) == UPPER[n as int]
    ensures 26 <= n < 52 ==> Char64(n) == LOWER[n as int - 26]
    ensures 52 <= n < 62 ==> Char64(n) == "0123456789"[n as int - 52]
    ensures Char64(62) == '-' && Char64(63) == '_'
  {
  }

  // No other character stands for anything.
  lemma OnlyTheAlphabet(c: char)
    ensures Value64(c).Some? <==> exists n: Six :: Char64(n) == c
    ensures Value64(c).Some? ==> Char64(Value64(c).value) == c
  {
    if Value64(c).Some? {
      assert Char64(Value64(c).value) == c;
    }
  }

  // Bytes read in base 256 behind the number `n`, and characters in base 64.
  function Base256(n: nat, bs: Bytes): nat
    decreases |bs|
  {
    if bs == [] then n else Base256(n * 256 + bs[0] as nat, bs[1..])
  }

  function Base64(n: nat, s: string): Option<nat>
    decreases |s|
  {
    if s == "" then Some(n)
    else if Value64(s[0]).None? then None
    else Base64(n * 64 + Value64(s[0]).value as nat, s[1..])
  }

  lemma CutsKeepTheNumber(n: nat, b0: Byte, b1: Byte, b2: Byte)
    ensures (((n * 64 + Cut0(b0) as nat) * 64 + Cut1(b0, b1) as nat) * 64 + Cut2(b1, b2) as nat) * 64 + Cut3(b2) as nat
         == ((n * 256 + b0 as nat) * 256 + b1 as nat) * 256 + b2 as nat
  {
  }

  lemma OneDigit(n: nat, d: Six, s: string)
    ensures Base64(n, [Char64(d)] + s) == Base64(n * 64 + d as nat, s)
  {
  }

  lemma TwoDigits(n: nat, d0: Six, d1: Six, s: string)
    ensures Base64(n, [Char64(d0), Char64(d1)] + s) == Base64((n * 64 + d0 as nat) * 64 + d1 as nat, s)
  {
    OneDigit(n, d0, [Char64(d1)] + s);
    OneDigit(n * 64 + d0 as nat, d1, s);
    assert [Char64(d0)] + ([Char64(d1)] + s) == [Char64(d0), Char64(d1)] + s;
    hide *;
  }

  lemma LastByte(n: nat, b0: Byte)
    ensures Base64(n, Encode([b0])) == Some(Base256(n, [b0]) * 16)
  {
    var s := [Char64(Cut0(b0)), Char64(Cut1(b0, 0))];
    assert Encode([b0]) == s && s + "" == s;
    TwoDigits(n, Cut0(b0), Cut1(b0, 0), "");
    CutsKeepTheNumber(n, b0, 0, 0);
  }

  lemma ThreeDigits(n: nat, d0: Six, d1: Six, d2: Six)
    ensures Base64(n, [Char64(d0), Char64(d1), Char64(d2)]) ==
            Some(((n * 64 + d0 as nat) * 64 + d1 as nat) * 64 + d2 as nat)
  {
    hide *;
    TwoDigits(n, d0, d1, [Char64(d2)]);
    OneDigit((n * 64 + d0 as nat) * 64 + d1 as nat, d2, "");
    assert [Char64(d2)] + "" == [Char64(d2)];
    assert [Char64(d0), Char64(d1)] + [Char64(d2)] == [Char64(d0), Char64(d1), Char64(d2)];
    NoDigits(((n * 64 + d0 as nat) * 64 + d1 as nat) * 64 + d2 as nat);
  }

  lemma NoDigits(n: nat)
    ensures Base64(n, "") == Some(n)
  {
  }

  lemma LastBytes(n: nat, b0: Byte, b1: Byte)
    ensures Base64(n, Encode([b0, b1])) == Some(Base256(n, [b0, b1]) * 4)
  {
    hide *;
    TwoBytesEncoded(b0, b1);
    ThreeDigits(n, Cut0(b0), Cut1(b0, b1), Cut2(b1, 0));
    CutsKeepTheNumber(n, b0, b1, 0);
    NumberOfTwo(n, b0, b1);
  }

  lemma TwoBytesEncoded(b0: Byte, b1: Byte)
    ensures Encode([b0, b1]) == [Char64(Cut0(b0)), Char64(Cut1(b0, b1)), Char64(Cut2(b1, 0))]
    ensures Cut3(0) == 0
  {
    hide Char64, Cut0, Cut1, Cut2;
  }

  lemma NumberOfTwo(n: nat, b0: Byte, b1: Byte)
    ensures Base256(n, [b0, b1]) == (n * 256 + b0 as nat) * 256 + b1 as nat
  {
    var bs := [b0, b1];
    assert bs[1..] == [b1] && bs[1..][1..] == [];
    assert Base256(n, bs) == Base256(n * 256 + bs[0] as nat, bs[1..]);
  }

  lemma ShortGroup(n: nat, bs: Bytes)
    requires |bs| <= 2
    ensures Base64(n, Encode(bs)) ==
            Some(Base256(n, bs) * if |bs| % 3 == 0 then 1 else if |bs| % 3 == 2 then 4 else 16)
  {
    if |bs| == 1 {
      LastByte(n, bs[0]);
      assert bs == [bs[0]];
    } else if |bs| == 2 {
      LastBytes(n, bs[0], bs[1]);
      assert bs == [bs[0], bs[1]];
    }
  }

  // The characters are the digits in base 64 of the number whose digits in
  // base 256 are the bytes; the spare bits of a short last group are zeros.
  lemma {:induction false} EncodedIsTheNumber(n: nat, bs: Bytes)
    ensures Base64(n, Encode(bs)) ==
            Some(Base256(n, bs) * if |bs| % 3 == 0 then 1 else if |bs| % 3 == 2 then 4 else 16)
    decreases |bs|
  {
    hide *;
    if |bs| <= 2 {
      ShortGroup(n, bs);
    } else {
      EncodedGroup(n, bs);
      EncodedIsTheNumber(((n * 256 + bs[0] as nat) * 256 + bs[1] as nat) * 256 + bs[2] as nat, bs[3..]);
      BytesOfGroup(n, bs);
    }
  }

  lemma EncodedGroup(n: nat, bs: Bytes)
    requires |bs| >= 3
    ensures Base64(n, Encode(bs)) ==
            Base64(((n * 256 + bs[0] as nat) * 256 + bs[1] as nat) * 256 + bs[2] as nat, Encode(bs[3..]))
  {
    var c0, c1, c2, c3 := Cut0(bs[0]), Cut1(bs[0], bs[1]), Cut2(bs[1], bs[2]), Cut3(bs[2]);
    var rest := Encode(bs[3..]);
    assert Encode(bs) == [Char64(c0), Char64(c1)] + ([Char64(c2), Char64(c3)] + rest);
    hide *;
    TwoDigits(n, c0, c1, [Char64(c2), Char64(c3)] + rest);
    TwoDigits((n * 64 + c0 as nat) * 64 + c1 as nat, c2, c3, rest);
    CutsKeepTheNumber(n, bs[0], bs[1], bs[2]);
  }

  lemma BytesOfGroup(n: nat, bs: Bytes)
    requires |bs| >= 3
    ensures Base256(n, bs) == Base256(((n * 256 + bs[0] as nat) * 256 + bs[1] as nat) * 256 + bs[2] as nat, bs[3..])
  {
    var m := n * 256 + bs[0] as nat;
    assert bs[1..][1..] == bs[2..] && bs[2..][1..] == bs[3..];
    assert Base256(m, bs[1..]) == Base256(m * 256 + bs[1] as nat, bs[2..]);
  }

  // The encoding is not the only text that decodes to given bytes: a line
  // feed or carriage return may stand anywhere in it.
  lemma {:induction false} LineBreaksAreSkipped(x: string, c: char, y: string)
    requires c == '\n' || c == '\r'
    ensures WithoutLineBreaks(x + [c] + y) == WithoutLineBreaks(x + y)
    ensures Decode(x + [c] + y) == Decode(x + y)
    decreases |x|
  {
    if x == "" {
      assert (x + [c] + y)[1..] == y && x + y == y;
    } else {
      LineBreaksAreSkipped(x[1..], c, y);
      assert (x + [c] + y)[1..] == x[1..] + [c] + y;
      assert (x + y)[1..] == x[1..] + y;
    }
  }

  // ----- tokens -----

  datatype Claims = Claims(
    userID: string, tenantID: string, role: string, isServiceAcct: bool, apiKeyID: string, scopes: seq<string>,
    exp: int, iat: int)

  datatype Codec = Codec(
    headerJSON: Bytes, marshal: Claims -> Option<Bytes>, unmarshal: Bytes -> Option<Claims>,
    mac: (string, string) -> Bytes)

  datatype Error = MarshalFailed | Malformed | BadSignature | BadPayload | BadClaims | Expired

  function Sign(cd: Codec, input: string, secret: string): string { Encode(cd.mac(input, secret)) }

  function GenerateToken(cd: Codec, claims: Claims, secret: string): Result<string, Error> {
    match cd.marshal(claims)
    case None => Err(MarshalFailed)
    case Some(payloadJSON) =>
      var input := Encode(cd.headerJSON) + "." + Encode(payloadJSON);
      Ok(input + "." + Sign(cd, input, secret))
  }

  function VerifyToken(cd: Codec, token: string, secret: string, now: int): Result<Claims, Error> {
    var parts := Split(token, '.');
    if |parts| != 3 then Err(Malformed)
    else if Sign(cd, parts[0] + "." + parts[1], secret) != parts[2] then Err(BadSignature)
    else CheckPayload(cd, parts[1], now)
  }

  function CheckPayload(cd: Codec, payload: string, now: int): Result<Claims, Error> {
    match Decode(payload)
    case None => Err(BadPayload)
    case Some(payloadJSON) =>
      match cd.unmarshal(payloadJSON)
      case None => Err(BadClaims)
      case Some(claims) => if claims.exp > 0 && now > claims.exp then Err(Expired) else Ok(claims)
  }

  lemma ThreeParts(a: string, b: string, c: string)
    requires '.' !in a && '.' !in b && '.' !in c
    ensures Split(a + "." + b + "." + c, '.') == [a, b, c]
  {
    assert a + "." + b + "." + c == a + ['.'] + (b + ['.'] + c);
    SplitHead(a, '.', b + ['.'] + c);
    SplitHead(b, '.', c);
    SplitPartsLackSep(c, '.');
  }

  lemma SignedParts(cd: Codec, h: string, p: string, s: string, secret: string, now: int)
    requires '.' !in h && '.' !in p && '.' !in s
    ensures VerifyToken(cd, h + "." + p + "." + s, secret, now) ==
            if Sign(cd, h + "." + p, secret) != s then Err(BadSignature) else CheckPayload(cd, p, now)
  {
    ThreeParts(h, p, s);
  }

  // A generated token verifies to the claims it was made from exactly as long
  // as they are not expired, whatever the claims and the secret.
  lemma TokenRoundTrip(cd: Codec, claims: Claims, secret: string, now: int)
    requires cd.marshal(claims).Some? && cd.unmarshal(cd.marshal(claims).value) == Some(claims)
    ensures var token := GenerateToken(cd, claims, secret).value;
            && (VerifyToken(cd, token, secret, now) == Ok(claims) <==> claims.exp <= 0 || now <= claims.exp)
            && (VerifyToken(cd, token, secret, now) == Err(Expired) <==> 0 < claims.exp < now)
            && token == Encode(cd.headerJSON) + "." + Encode(cd.marshal(claims).value) + "."
                        + Encode(cd.mac(Encode(cd.headerJSON) + "." + Encode(cd.marshal(claims).value), secret))
  {
    var payloadJSON := cd.marshal(claims).value;
    var h, p := Encode(cd.headerJSON), Encode(payloadJSON);
    EncodedIsIn64(cd.headerJSON);
    EncodedIsIn64(payloadJSON);
    EncodedIsIn64(cd.mac(h + "." + p, secret));
    Base64RoundTrip(payloadJSON);
    SignedParts(cd, h, p, Sign(cd, h + "." + p, secret), secret, now);
  }

  // Under another secret a generated token is refused unless the two secrets
  // give its signed part the same MAC.
  lemma OtherSecret(cd: Codec, claims: Claims, secret: string, other: string, now: int)
    requires cd.marshal(claims).Some?
    ensures var token := GenerateToken(cd, claims, secret).value;
            var input := Encode(cd.headerJSON) + "." + Encode(cd.marshal(claims).value);
            VerifyToken(cd, token, other, now) == Err(BadSignature) <==> cd.mac(input, other) != cd.mac(input, secret)
  {
    var payloadJSON := cd.marshal(claims).value;
    var h, p := Encode(cd.headerJSON), Encode(payloadJSON);
    EncodedIsIn64(cd.headerJSON);
    EncodedIsIn64(payloadJSON);
    EncodedIsIn64(cd.mac(h + "." + p, secret));
    SignedParts(cd, h, p, Sign(cd, h + "." + p, secret), other, now);
    EncodeIsInjective(cd.mac(h + "." + p, other), cd.mac(h + "." + p, secret));
  }

  // A text is a token for the claims: two dot-free parts followed by their
  // signature, the second one decoding to the claims.
  ghost predicate IsTokenFor(cd: Codec, token: string, secret: string, claims: Claims, h: string, p: string) {
    && '.' !in h && '.' !in p
    && token == h + "." + p + "." + Sign(cd, h + "." + p, secret)
    && Decode(p).Some? && cd.unmarshal(Decode(p).value) == Some(claims)
  }

  lemma AcceptedIsToken(cd: Codec, token: string, secret: string, now: int, claims: Claims)
    requires VerifyToken(cd, token, secret, now) == Ok(claims)
    ensures claims.exp <= 0 || now <= claims.exp
    ensures exists h, p :: IsTokenFor(cd, token, secret, claims, h, p)
  {
    var parts := Split(token, '.');
    assert |parts| == 3;
    var h, p, sig := parts[0], parts[1], parts[2];
    assert sig == Sign(cd, h + "." + p, secret) && CheckPayload(cd, p, now) == Ok(claims);
    assert Decode(p).Some? && cd.unmarshal(Decode(p).value) == Some(claims);
    assert claims.exp <= 0 || now <= claims.exp;
    assert IsTokenFor(cd, token, secret, claims, h, p) by {
      hide Encode, Decode, Split, VerifyToken, Sign, CheckPayload;
      SplitPartsLackSep(token, '.');
      JoinSplit(token, '.');
      assert h in parts && p in parts && parts == [h, p, sig];
      JoinOfThree(h, p, sig);
    }
  }

  // Nothing but such a text, unexpired, is ever accepted, and all of them are.
  lemma AcceptedExactlyWhen(cd: Codec, token: string, secret: string, now: int, claims: Claims)
    ensures VerifyToken(cd, token, secret, now) == Ok(claims) <==>
            (claims.exp <= 0 || now <= claims.exp) && exists h, p :: IsTokenFor(cd, token, secret, claims, h, p)
  {
    if VerifyToken(cd, token, secret, now) == Ok(claims) {
      AcceptedIsToken(cd, token, secret, now, claims);
    }
    if exists h, p :: IsTokenFor(cd, token, secret, claims, h, p) {
      var h, p :| IsTokenFor(cd, token, secret, claims, h, p);
      EncodedIsIn64(cd.mac(h + "." + p, secret));
      SignedParts(cd, h, p, Sign(cd, h + "." + p, secret), secret, now);
      hide Encode, Decode, VerifyToken;
    }
  }

  lemma JoinOfThree(a: string, b: string, c: string)
    ensures Join([a, b, c], ".") == a + "." + b + "." + c
  {
    JoinCons(a, [b, c], ".");
    JoinCons(b, [c], ".");
    assert [a] + [b, c] == [a, b, c] && [b] + [c] == [b, c];
    assert a + "." + (b + "." + c) == a + "." + b + "." + c;
  }
}
