/**
  The token of Token.go: a header and a payload, both string-to-string maps,
  signed with HMAC-SHA256 into the compact form `header.payload.signature`,
  each segment base64 with the standard padded alphabet.

  HMAC-SHA256 is not modelled: it is the parameter `mac`, applied to the key and
  the signing input. The clock is the parameter `now`, in Unix seconds.
 */
module Jwt {
  import opened Wrappers
  import opened GoStrings
  import Base64
  import Json
  import Decimal

  type Claims = map<GoString, GoString>

  /** The keyed hash `mac(key, message)`: HMAC-SHA256 in the source. */
  type Mac = (GoString, GoString) -> seq<byte>

  /**
    The kinds of error the decoding and checking steps report. `NilMapWrite`
    is no error value of Go's: there the write to a nil map panics, and the
    model ends the call with this error in place of the panic.
   */
  datatype Error =
    | MalformedToken   // not three segments
    | CorruptBase64    // a segment is not valid base64
    | BadJson          // decoded bytes are neither `null` nor a JSON object of strings
    | BadExpiry        // `exp` is not a decimal 64-bit integer
    | NilMapWrite      // a write to a nil map: a run-time panic in Go

  const Exp: GoString := Ascii("exp")
  const Typ: GoString := Ascii("typ")
  const Alg: GoString := Ascii("alg")
  const JwtType: GoString := Ascii("JWT")
  const HS256: GoString := Ascii("HS256")

  /** Lifetime given to a payload signed without `exp`: one hour. */
  const DefaultLifetime: int := 3600
  /** Lifetime `BasicToken` gives: two hours. */
  const BasicLifetime: int := 7200

  // ---------------------------------------------------------------------------
  // Signing, as values

  /** A map as a token segment: JSON (`null` for a nil map), then padded standard base64. */
  function Segment(m: GoMap): GoString {
    Base64.StdEncode(Json.MarshalMap(m))
  }

  /**
    What is signed: the header segment, a dot, the payload segment. The header
    may be nil; the payload never is, since signing writes `exp` into it.
   */
  function SigningInput(header: GoMap, payload: Claims): GoString {
    Segment(header) + [Dot] + Segment(Map(payload))
  }

  function SignatureSegment(header: GoMap, payload: Claims, key: GoString, mac: Mac): GoString {
    Base64.StdEncode(mac(key, SigningInput(header, payload)))
  }

  /** The compact token: signing input, a dot, the signature segment. */
  function Compact(header: GoMap, payload: Claims, key: GoString, mac: Mac): GoString {
    SigningInput(header, payload) + [Dot] + SignatureSegment(header, payload, key, mac)
  }

  /**
    The payload `JwtGenerator` signs: an absent or empty `exp` becomes `now`
    plus one hour, anything else is left alone.
   */
  function WithDefaultExp(payload: Claims, now: int): (r: Claims)
    ensures Lookup(r, Exp) != []
    ensures Lookup(payload, Exp) != [] ==> r == payload
    ensures forall k :: k != Exp ==> (k in r <==> k in payload)
    ensures forall k :: k != Exp && k in payload ==> r[k] == payload[k]
  {
    if Lookup(payload, Exp) == [] then payload[Exp := Decimal.FormatInt(now + DefaultLifetime)] else payload
  }

  // ---------------------------------------------------------------------------
  // Decoding

  /** The three segments with the first two base64-decoded, before any JSON decoding. */
  datatype RawParts = RawParts(payload: seq<byte>, header: seq<byte>, signature: GoString)

  /** The decoded payload and header (either may be nil), and the signature segment as it was. */
  datatype Parts = Parts(payload: GoMap, header: GoMap, signature: GoString)

  /**
    `DecodeCom`: split into three segments and base64-decode the payload and
    then the header segment. It succeeds exactly when there are three segments
    and both decode without error, and then returns what they decode to.
   */
  function DecodeCom(jwt: GoString): (r: Result<RawParts, Error>)
    ensures r == Failure(MalformedToken) <==> |Split(jwt, Dot)| != 3
    ensures var parts := Split(jwt, Dot);
      r == Failure(CorruptBase64) <==>
        |parts| == 3 && (!Base64.StdDecodeString(parts[1]).ok || !Base64.StdDecodeString(parts[0]).ok)
    ensures r.Failure? ==> r.error == MalformedToken || r.error == CorruptBase64
    ensures var parts := Split(jwt, Dot);
      r.Success? ==>
        r.value == RawParts(Base64.StdDecodeString(parts[1]).bytes, Base64.StdDecodeString(parts[0]).bytes, parts[2])
  {
    var parts := Split(jwt, Dot);
    if |parts| != 3 then Failure(MalformedToken)
    else
      var payload := Base64.StdDecodeString(parts[1]);
      if !payload.ok then Failure(CorruptBase64)
      else
        var header := Base64.StdDecodeString(parts[0]);
        if !header.ok then Failure(CorruptBase64)
        else Success(RawParts(payload.bytes, header.bytes, parts[2]))
  }

  /**
    `Decode`, as written: the payload's base64 error is overwritten by the
    header's before it is checked, so only the header segment's error is
    reported, and whatever bytes the payload decoding produced before failing
    go on to the JSON decoder. A segment that decodes to `null` gives a nil map.
   */
  function Decode(jwt: GoString): (r: Result<Parts, Error>)
    ensures r == Failure(MalformedToken) <==> |Split(jwt, Dot)| != 3
    ensures var parts := Split(jwt, Dot);
      r == Failure(CorruptBase64) <==> |parts| == 3 && !Base64.StdDecodeString(parts[0]).ok
    ensures var parts := Split(jwt, Dot);
      r == Failure(BadJson) <==>
        |parts| == 3 && Base64.StdDecodeString(parts[0]).ok &&
        (Json.UnmarshalMap(Base64.StdDecodeString(parts[1]).bytes).None? ||
         Json.UnmarshalMap(Base64.StdDecodeString(parts[0]).bytes).None?)
    ensures r.Failure? ==> r.error == MalformedToken || r.error == CorruptBase64 || r.error == BadJson
    ensures var parts := Split(jwt, Dot);
      r.Success? ==>
        r.value == Parts(Json.UnmarshalMap(Base64.StdDecodeString(parts[1]).bytes).value,
                         Json.UnmarshalMap(Base64.StdDecodeString(parts[0]).bytes).value, parts[2])
  {
    var parts := Split(jwt, Dot);
    if |parts| != 3 then Failure(MalformedToken)
    else
      var payload := Base64.StdDecodeString(parts[1]);
      var header := Base64.StdDecodeString(parts[0]);
      if !header.ok then Failure(CorruptBase64)
      else
        var p := Json.UnmarshalMap(payload.bytes);
        if p.None? then Failure(BadJson)
        else
          var h := Json.UnmarshalMap(header.bytes);
          if h.None? then Failure(BadJson)
          else Success(Parts(p.value, h.value, parts[2]))
  }

  /**
    `Decode` with each error checked: the payload's base64 error, as `DecodeCom`
    checks it, and a payload that is `null` rather than an object. It fails
    unless both segments are valid base64 and the payload is a map, and
    otherwise agrees with `Decode`.
   */
  function DecodeChecked(jwt: GoString): (r: Result<Parts, Error>)
    ensures r.Success? ==>
      var parts := Split(jwt, Dot);
      |parts| == 3 && Base64.StdDecodeString(parts[0]).ok && Base64.StdDecodeString(parts[1]).ok &&
      r.value.payload.Map?
    ensures |Split(jwt, Dot)| != 3 ==> r == Failure(MalformedToken)
    ensures |Split(jwt, Dot)| == 3 && !Base64.StdDecodeString(Split(jwt, Dot)[1]).ok ==> r == Failure(CorruptBase64)
    ensures |Split(jwt, Dot)| == 3 && Base64.StdDecodeString(Split(jwt, Dot)[1]).ok ==>
      r == if Decode(jwt).Success? && Decode(jwt).value.payload.Nil? then Failure(BadJson) else Decode(jwt)
  {
    match DecodeCom(jwt)
    case Failure(e) => Failure(e)
    case Success(raw) =>
      var p := Json.UnmarshalMap(raw.payload);
      if p.None? || p.value.Nil? then Failure(BadJson)
      else
        var h := Json.UnmarshalMap(raw.header);
        if h.None? then Failure(BadJson)
        else Success(Parts(p.value, h.value, raw.signature))
  }

  /**
    `DecodeL` up to its JSON step: the segments decoded with the unpadded
    alphabet, the payload's error lost in the same way as in `Decode`. The
    result holds the bytes that would go to the JSON decoder.
   */
  function DecodeL(jwt: GoString): (r: Result<RawParts, Error>)
    ensures r == Failure(MalformedToken) <==> |Split(jwt, Dot)| != 3
    ensures var parts := Split(jwt, Dot);
      r == Failure(CorruptBase64) <==> |parts| == 3 && !Base64.RawStdDecodeString(parts[0]).ok
    ensures r.Failure? ==> r.error == MalformedToken || r.error == CorruptBase64
    ensures var parts := Split(jwt, Dot);
      r.Success? ==>
        r.value == RawParts(Base64.RawStdDecodeString(parts[1]).bytes, Base64.RawStdDecodeString(parts[0]).bytes, parts[2])
  {
    var parts := Split(jwt, Dot);
    if |parts| != 3 then Failure(MalformedToken)
    else
      var payload := Base64.RawStdDecodeString(parts[1]);
      var header := Base64.RawStdDecodeString(parts[0]);
      if !header.ok then Failure(CorruptBase64)
      else Success(RawParts(payload.bytes, header.bytes, parts[2]))
  }

  // ---------------------------------------------------------------------------
  // Checking

  /** The `(bool, error)` pair `IsLegal` returns. */
  datatype Verdict = Verdict(legal: bool, err: Option<Error>)

  /** The expiry step: no `exp` passes; otherwise it must parse and not lie before `now`. */
  function ExpiryVerdict(expiry: GoString, now: int): (v: Verdict)
    ensures v.err == None || v.err == Some(BadExpiry)
    ensures v.legal ==> v.err == None
  {
    if expiry == [] then Verdict(true, None)
    else
      match Decimal.ParseInt(expiry)
      case None => Verdict(false, Some(BadExpiry))
      case Some(e) => if e < now then Verdict(false, None) else Verdict(true, None)
  }

  /**
    What `IsLegal` answers: decode, re-sign the decoded maps (the payload
    gaining a default `exp` if it has none, since the token's map is the
    decoded one), compare the signature segments as strings, then check `exp`.
    A nil payload cannot take the default `exp`: Go panics there.
   */
  function Legality(jwt: GoString, secretKey: GoString, now: int, mac: Mac): (v: Verdict)
    ensures Decode(jwt).Failure? ==> v == Verdict(false, Some(Decode(jwt).error))
    ensures v.legal ==> v.err == None && Decode(jwt).Success? && Decode(jwt).value.payload.Map?
    ensures v.err == Some(NilMapWrite) <==> Decode(jwt).Success? && Decode(jwt).value.payload.Nil?
  {
    match Decode(jwt)
    case Failure(e) => Verdict(false, Some(e))
    case Success(d) => Judge(d, secretKey, now, mac)
  }

  /** The steps after decoding: re-sign, compare, check `exp`. */
  function Judge(d: Parts, secretKey: GoString, now: int, mac: Mac): (v: Verdict)
    ensures v.err == Some(NilMapWrite) <==> d.payload.Nil?
    ensures v.legal ==> v.err == None && d.payload.Map?
  {
    match d.payload
    case Nil => Verdict(false, Some(NilMapWrite))
    case Map(entries) =>
      var payload := WithDefaultExp(entries, now);
      if SignatureSegment(d.header, payload, secretKey, mac) != d.signature then Verdict(false, None)
      else ExpiryVerdict(Lookup(payload, Exp), now)
  }

  /**
    `Legality` over `DecodeChecked`: a token whose payload segment is not valid
    base64 is refused with `CorruptBase64`, and one whose payload is `null`
    with `BadJson`, so no input reaches a write to a nil map; every other token
    gets the same verdict.
   */
  function LegalityChecked(jwt: GoString, secretKey: GoString, now: int, mac: Mac): (v: Verdict)
    ensures DecodeChecked(jwt).Failure? ==> v == Verdict(false, Some(DecodeChecked(jwt).error))
    ensures v.err != Some(NilMapWrite)
    ensures
      |Split(jwt, Dot)| == 3 && Base64.StdDecodeString(Split(jwt, Dot)[1]).ok &&
      !(Decode(jwt).Success? && Decode(jwt).value.payload.Nil?)
      ==> v == Legality(jwt, secretKey, now, mac)
  {
    match DecodeChecked(jwt)
    case Failure(e) => Verdict(false, Some(e))
    case Success(d) => Judge(d, secretKey, now, mac)
  }

  // ---------------------------------------------------------------------------
  // The token object

  class Token {
    var payLoad: GoMap
    var header: GoMap

    /** `GetToken`: a token with empty payload and header maps (a `Token{}` has nil ones). */
    constructor GetToken()
      ensures payLoad == Map(map[]) && header == Map(map[])
    {
      payLoad := Map(map[]);
      header := Map(map[]);
    }

    /** Set one payload entry, replacing any earlier value; returns the same token for chaining. */
    method AddPayLoad(key: GoString, value: GoString) returns (t: Token)
      requires payLoad.Map?  // Go panics on a write to a nil map
      modifies this
      ensures t == this
      ensures payLoad == Map(old(payLoad).entries[key := value]) && header == old(header)
    {
      payLoad := Map(payLoad.entries[key := value]);
      t := this;
    }

    /** Set one header entry, replacing any earlier value; returns the same token for chaining. */
    method AddHeader(key: GoString, value: GoString) returns (t: Token)
      requires header.Map?  // Go panics on a write to a nil map
      modifies this
      ensures t == this
      ensures header == Map(old(header).entries[key := value]) && payLoad == old(payLoad)
    {
      header := Map(header.entries[key := value]);
      t := this;
    }

    /**
      `JwtGenerator`: give the payload a default `exp` when it has none (in the
      token itself), then sign. Returns the compact token and its signature
      segment. A nil payload has no `exp`, so the write would panic; a nil
      header is signed as `null`.
     */
    method JwtGenerator(secretKey: GoString, now: int, mac: Mac) returns (jwt: GoString, hs256: GoString)
      requires payLoad.Map?
      modifies this
      ensures header == old(header)
      ensures payLoad == Map(WithDefaultExp(old(payLoad).entries, now))
      ensures hs256 == SignatureSegment(header, payLoad.entries, secretKey, mac)
      ensures jwt == SigningInput(header, payLoad.entries) + [Dot] + hs256
    {
      if Lookup(payLoad.entries, Exp) == [] {
        var _ := AddPayLoad(Exp, Decimal.FormatInt(now + DefaultLifetime));
      }
      var payLoadBase64 := Base64.StdEncode(Json.MarshalMap(payLoad));
      var headerBase64 := Base64.StdEncode(Json.MarshalMap(header));
      var signature := headerBase64 + [Dot] + payLoadBase64;
      hs256 := Base64.StdEncode(mac(secretKey, signature));
      jwt := signature + [Dot] + hs256;
    }

    /**
      `IsLegal`: decode the token into this object's maps, re-sign them with
      `secretKey`, compare with the token's signature segment, then check `exp`
      against `now`. A payload that decoded to nil stops it at the write of the
      default `exp`, with the decoded maps already in the token.
     */
    method IsLegal(jwt: GoString, secretKey: GoString, now: int, mac: Mac) returns (legal: bool, err: Option<Error>)
      modifies this
      ensures Verdict(legal, err) == Legality(jwt, secretKey, now, mac)
      ensures Decode(jwt).Failure? ==> header == old(header) && payLoad == old(payLoad)
      ensures Decode(jwt).Success? ==>
        var d := Decode(jwt).value;
        header == d.header &&
        payLoad == if d.payload.Nil? then Nil else Map(WithDefaultExp(d.payload.entries, now))
    {
      var d := Decode(jwt);
      if d.Failure? {
        return false, Some(d.error);
      }
      var p, h, hs := d.value.payload, d.value.header, d.value.signature;
      header := h;
      payLoad := p;
      if payLoad.Nil? {
        // JwtGenerator finds no exp in the nil map and writes one: a panic in Go
        return false, Some(NilMapWrite);
      }
      var _, hs256 := JwtGenerator(secretKey, now, mac);
      if hs256 != hs {
        return false, None;
      }
      // p and the token's payload are one map, so this reads the exp JwtGenerator may have added
      var expiredTimeStr := Lookup(payLoad.entries, Exp);
      if expiredTimeStr != [] {
        var expiredTime := Decimal.ParseInt(expiredTimeStr);
        if expiredTime.None? {
          return false, Some(BadExpiry);
        }
        if expiredTime.value < now {
          return false, None;
        }
      }
      return true, None;
    }

    /** `BasicToken`: set `typ` and `alg`, set `exp` to two hours from `now`, then sign. */
    method BasicToken(secret: GoString, now: int, mac: Mac) returns (jwt: GoString)
      requires header.Map? && payLoad.Map?  // Go panics on a write to a nil map
      modifies this
      ensures header == Map(old(header).entries[Typ := JwtType][Alg := HS256])
      ensures payLoad == Map(old(payLoad).entries[Exp := Decimal.FormatInt(now + BasicLifetime)])
      ensures jwt == Compact(header, payLoad.entries, secret, mac)
    {
      var t := AddHeader(Typ, JwtType);
      t := t.AddHeader(Alg, HS256);
      t := AddPayLoad(Exp, Decimal.FormatInt(now + BasicLifetime));
      var hs256;
      jwt, hs256 := JwtGenerator(secret, now, mac);
    }
  }
}
