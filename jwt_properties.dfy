/** What signing, decoding and checking a token guarantee, and where they fall short. */
module TokenProperties {
  import opened Wrappers
  import opened GoStrings
  import opened Jwt
  import Base64
  import Json
  import Decimal

  /** A segment decodes back to the JSON of its map, and that JSON to the map, a nil map included. */
  lemma SegmentRoundTrip(m: GoMap)
    ensures Base64.StdDecodeString(Segment(m)) == Base64.Decoding(Json.MarshalMap(m), true)
    ensures Json.UnmarshalMap(Json.MarshalMap(m)) == Some(m)
  {
    Base64.StdRoundTrip(Json.MarshalMap(m));
    Json.MarshalMapRoundTrip(m);
  }

  /** A signed token splits back into exactly its three segments. */
  lemma SplitCompact(h: GoMap, p: Claims, key: GoString, mac: Mac)
    ensures Split(Compact(h, p, key, mac), Dot) == [Segment(h), Segment(Map(p)), SignatureSegment(h, p, key, mac)]
  {
    Base64.EncodedHasNoSeparators(Json.MarshalMap(h));
    Base64.EncodedHasNoSeparators(Json.MarshalMap(Map(p)));
    Base64.EncodedHasNoSeparators(mac(key, SigningInput(h, p)));
    SplitThree(Segment(h), Segment(Map(p)), SignatureSegment(h, p, key, mac), Dot);
  }

  /** `DecodeCom` of a signed token yields the JSON of both maps and the signature segment. */
  lemma DecodeComOfCompact(h: GoMap, p: Claims, key: GoString, mac: Mac)
    ensures DecodeCom(Compact(h, p, key, mac))
         == Success(RawParts(Json.Marshal(p), Json.MarshalMap(h), SignatureSegment(h, p, key, mac)))
  {
    SplitCompact(h, p, key, mac);
    SegmentRoundTrip(h);
    SegmentRoundTrip(Map(p));
  }

  /** `Decode` and `DecodeChecked` of a signed token give back both maps and the signature segment. */
  lemma DecodeOfCompact(h: GoMap, p: Claims, key: GoString, mac: Mac)
    ensures Decode(Compact(h, p, key, mac)) == Success(Parts(Map(p), h, SignatureSegment(h, p, key, mac)))
    ensures DecodeChecked(Compact(h, p, key, mac)) == Success(Parts(Map(p), h, SignatureSegment(h, p, key, mac)))
  {
    SplitCompact(h, p, key, mac);
    SegmentRoundTrip(h);
    SegmentRoundTrip(Map(p));
  }

  /**
    `DecodeL` reads segments as unpadded base64, so it gets past base64 on a
    signed token exactly when the header's JSON is a whole number of 3-byte
    groups. The payload's error is lost, and the payload's JSON is handed on
    cut to its whole groups: intact exactly when its length is a multiple of 3,
    and otherwise short of its last one or two bytes, the closing brace among them.
   */
  lemma DecodeLOfCompact(h: GoMap, p: Claims, key: GoString, mac: Mac)
    ensures DecodeL(Compact(h, p, key, mac)).Success? <==> |Json.MarshalMap(h)| % 3 == 0
    ensures var m := Json.Marshal(p);
      DecodeL(Compact(h, p, key, mac)).Success? ==>
        DecodeL(Compact(h, p, key, mac)).value.header == Json.MarshalMap(h) &&
        DecodeL(Compact(h, p, key, mac)).value.signature == SignatureSegment(h, p, key, mac) &&
        DecodeL(Compact(h, p, key, mac)).value.payload == m[..|m| / 3 * 3] &&
        (DecodeL(Compact(h, p, key, mac)).value.payload == m <==> |m| % 3 == 0)
  {
    DecodeLSegments(h, p, key, mac);
    Base64.RawDecodePrefix(Json.Marshal(p));
  }

  /** What `DecodeL` makes of the three segments of a signed token. */
  lemma DecodeLSegments(h: GoMap, p: Claims, key: GoString, mac: Mac)
    ensures DecodeL(Compact(h, p, key, mac))
         == if |Json.MarshalMap(h)| % 3 == 0
            then Success(RawParts(Base64.RawStdDecodeString(Segment(Map(p))).bytes, Json.MarshalMap(h), SignatureSegment(h, p, key, mac)))
            else Failure(CorruptBase64)
  {
    SplitCompact(h, p, key, mac);
    Base64.RawDecodeOfStdEncode(Json.MarshalMap(h));
  }

  /** A payload signed without `exp` is given one that reads back as an hour after signing. */
  lemma DefaultExpiry(p: Claims, now: int)
    requires Lookup(p, Exp) == []
    requires Decimal.MinInt64 <= now + DefaultLifetime <= Decimal.MaxInt64
    ensures Decimal.ParseInt(Lookup(WithDefaultExp(p, now), Exp)) == Some(now + DefaultLifetime)
  {
    Decimal.ParseFormat(now + DefaultLifetime);
  }

  /**
    Every verdict `IsLegal` can give. A legal token carries no error; a token
    that decodes to a nil payload ends at the write of the default `exp`; any
    other token that decodes is judged on the payload with its default `exp`
    filled in, so a missing `exp` never counts as "no expiry".
   */
  lemma LegalityVerdicts(jwt: GoString, key: GoString, now: int, mac: Mac)
    ensures var v := Legality(jwt, key, now, mac);
      (v.legal ==> v.err == None) &&
      (Decode(jwt).Failure? ==> v == Verdict(false, Some(Decode(jwt).error))) &&
      (Decode(jwt).Success? && Decode(jwt).value.payload.Nil? ==> v == Verdict(false, Some(NilMapWrite))) &&
      (Decode(jwt).Success? && Decode(jwt).value.payload.Map? ==>
        var d := Decode(jwt).value;
        var payload := WithDefaultExp(d.payload.entries, now);
        var signed := SignatureSegment(d.header, payload, key, mac) == d.signature;
        var exp := Decimal.ParseInt(Lookup(payload, Exp));
        (v.legal <==> signed && exp.Some? && now <= exp.value) &&
        (v.err.Some? <==> signed && exp.None?) &&
        (v.err.Some? ==> v.err == Some(BadExpiry)))
  {
  }

  /** A token signed over a payload with an `exp` is legal exactly until `exp` passes. */
  lemma SignedTokenVerdict(h: GoMap, p: Claims, key: GoString, mac: Mac, now: int)
    requires Lookup(p, Exp) != []
    ensures Legality(Compact(h, p, key, mac), key, now, mac) == ExpiryVerdict(p[Exp], now)
  {
    DecodeOfCompact(h, p, key, mac);
  }

  /** What `JwtGenerator` signs for a payload without `exp` is legal up to one hour after signing, and no later. */
  lemma GeneratedTokenLifetime(h: GoMap, p: Claims, key: GoString, mac: Mac, issuedAt: int, now: int)
    requires Lookup(p, Exp) == []
    requires Decimal.MinInt64 <= issuedAt + DefaultLifetime <= Decimal.MaxInt64
    ensures Legality(Compact(h, WithDefaultExp(p, issuedAt), key, mac), key, now, mac)
         == Verdict(now <= issuedAt + DefaultLifetime, None)
  {
    SignedTokenVerdict(h, WithDefaultExp(p, issuedAt), key, mac, now);
    DefaultExpiry(p, issuedAt);
  }

  /** What `BasicToken` returns is legal up to two hours after it was made, and no later. */
  lemma BasicTokenLifetime(h: Claims, p: Claims, key: GoString, mac: Mac, issuedAt: int, now: int)
    requires Decimal.MinInt64 <= issuedAt + BasicLifetime <= Decimal.MaxInt64
    ensures Legality(Compact(Map(h[Typ := JwtType][Alg := HS256]), p[Exp := Decimal.FormatInt(issuedAt + BasicLifetime)], key, mac), key, now, mac)
         == Verdict(now <= issuedAt + BasicLifetime, None)
  {
    var payload := p[Exp := Decimal.FormatInt(issuedAt + BasicLifetime)];
    assert Lookup(payload, Exp) == Decimal.FormatInt(issuedAt + BasicLifetime);
    SignedTokenVerdict(Map(h[Typ := JwtType][Alg := HS256]), payload, key, mac, now);
    Decimal.ParseFormat(issuedAt + BasicLifetime);
  }

  /**
    A token whose payload has no `exp` is legal exactly when its signature is
    the one for that payload with an `exp` of an hour from the time of
    checking, not the one for the payload it actually carries (unless `mac`
    gives the two the same value).
   */
  lemma MissingExpResigned(jwt: GoString, key: GoString, now: int, mac: Mac)
    requires Decode(jwt).Success? && Decode(jwt).value.payload.Map?
    requires Lookup(Decode(jwt).value.payload.entries, Exp) == []
    requires Decimal.MinInt64 <= now + DefaultLifetime <= Decimal.MaxInt64
    ensures var d := Decode(jwt).value;
      Legality(jwt, key, now, mac).legal <==>
        d.signature == SignatureSegment(d.header, d.payload.entries[Exp := Decimal.FormatInt(now + DefaultLifetime)], key, mac)
  {
    DefaultExpiry(Decode(jwt).value.payload.entries, now);
  }

  // ---------------------------------------------------------------------------
  // The payload segment's base64 error is lost

  /** A signed token with one stray byte appended to its payload segment. */
  function Tampered(h: GoMap, p: Claims, key: GoString, mac: Mac, c: byte): GoString {
    Segment(h) + [Dot] + (Segment(Map(p)) + [c]) + [Dot] + SignatureSegment(h, p, key, mac)
  }

  /** The stray byte keeps the token in three segments. */
  lemma SplitTampered(h: GoMap, p: Claims, key: GoString, mac: Mac, c: byte)
    requires c != Dot
    ensures Split(Tampered(h, p, key, mac, c), Dot) == [Segment(h), Segment(Map(p)) + [c], SignatureSegment(h, p, key, mac)]
  {
    Base64.EncodedHasNoSeparators(Json.MarshalMap(h));
    Base64.EncodedHasNoSeparators(Json.Marshal(p));
    Base64.EncodedHasNoSeparators(mac(key, SigningInput(h, p)));
    SplitThree(Segment(h), Segment(Map(p)) + [c], SignatureSegment(h, p, key, mac), Dot);
  }

  /**
    As written: a byte outside the base64 alphabet appended to the payload
    segment makes that segment invalid base64, yet `Decode` returns the same
    maps and `IsLegal` the same verdict as for the untouched token.
   */
  lemma TamperedTokenAccepted(h: GoMap, p: Claims, key: GoString, mac: Mac, c: byte, now: int)
    requires !Base64.IsAlphabet(c) && c != Base64.Pad && c != Dot && c != 10 && c != 13
    ensures Tampered(h, p, key, mac, c) != Compact(h, p, key, mac)
    ensures !Base64.StdDecodeString(Split(Tampered(h, p, key, mac, c), Dot)[1]).ok
    ensures Decode(Tampered(h, p, key, mac, c)) == Decode(Compact(h, p, key, mac))
    ensures Legality(Tampered(h, p, key, mac, c), key, now, mac) == Legality(Compact(h, p, key, mac), key, now, mac)
  {
    assert |Tampered(h, p, key, mac, c)| == |Compact(h, p, key, mac)| + 1;
    SplitTampered(h, p, key, mac, c);
    Base64.AppendedJunkKeepsBytes(Json.Marshal(p), c);
    TamperedDecodes(h, p, key, mac, c);
    DecodeOfCompact(h, p, key, mac);
  }

  /** The tampered token decodes to the maps of the original. */
  lemma TamperedDecodes(h: GoMap, p: Claims, key: GoString, mac: Mac, c: byte)
    requires !Base64.IsAlphabet(c) && c != Base64.Pad && c != Dot && c != 10 && c != 13
    ensures Decode(Tampered(h, p, key, mac, c)) == Success(Parts(Map(p), h, SignatureSegment(h, p, key, mac)))
  {
    SplitTampered(h, p, key, mac, c);
    Base64.AppendedJunkKeepsBytes(Json.Marshal(p), c);
    SegmentRoundTrip(h);
    SegmentRoundTrip(Map(p));
  }

  /** Corrected: `DecodeChecked` and `LegalityChecked` refuse the same token as corrupt base64. */
  lemma TamperedTokenRefused(h: GoMap, p: Claims, key: GoString, mac: Mac, c: byte, now: int)
    requires !Base64.IsAlphabet(c) && c != Base64.Pad && c != Dot && c != 10 && c != 13
    ensures DecodeChecked(Tampered(h, p, key, mac, c)) == Failure(CorruptBase64)
    ensures LegalityChecked(Tampered(h, p, key, mac, c), key, now, mac) == Verdict(false, Some(CorruptBase64))
  {
    SplitTampered(h, p, key, mac, c);
    Base64.AppendedJunkKeepsBytes(Json.Marshal(p), c);
  }

  /** Corrected: `LegalityChecked` gives a signed token the same verdict as `IsLegal`. */
  lemma CheckedAgreesOnSignedTokens(h: GoMap, p: Claims, key: GoString, mac: Mac, now: int)
    ensures LegalityChecked(Compact(h, p, key, mac), key, now, mac) == Legality(Compact(h, p, key, mac), key, now, mac)
  {
    SplitCompact(h, p, key, mac);
    SegmentRoundTrip(Map(p));
  }

  // ---------------------------------------------------------------------------
  // A `null` payload leaves a nil map that the check then writes to

  /** A token whose payload segment is the encoding of `null`, whatever its header and signature. */
  function NullPayloadToken(h: GoMap, signature: GoString): GoString {
    Segment(h) + [Dot] + Segment(Nil) + [Dot] + signature
  }

  /** The null payload keeps the token in three segments. */
  lemma SplitNullPayload(h: GoMap, signature: GoString)
    requires Dot !in signature
    ensures Split(NullPayloadToken(h, signature), Dot) == [Segment(h), Segment(Nil), signature]
  {
    Base64.EncodedHasNoSeparators(Json.MarshalMap(h));
    Base64.EncodedHasNoSeparators(Json.Null);
    SplitThree(Segment(h), Segment(Nil), signature, Dot);
  }

  /** The null payload decodes, without error, to a nil map. */
  lemma NullPayloadDecodes(h: GoMap, signature: GoString)
    requires Dot !in signature
    ensures Decode(NullPayloadToken(h, signature)) == Success(Parts(Nil, h, signature))
  {
    SplitNullPayload(h, signature);
    SegmentRoundTrip(h);
    SegmentRoundTrip(Nil);
  }

  /**
    As written: a payload of `null` passes decoding as a nil map, and the check
    then writes the default `exp` into it, which panics in Go before any
    signature is compared, whatever the key, the clock and the signature.
   */
  lemma NullPayloadPanics(h: GoMap, signature: GoString, key: GoString, now: int, mac: Mac)
    requires Dot !in signature
    ensures Legality(NullPayloadToken(h, signature), key, now, mac) == Verdict(false, Some(NilMapWrite))
  {
    NullPayloadDecodes(h, signature);
  }

  /** Corrected: the checked decoding refuses a `null` payload as bad JSON, and the check never writes to a nil map. */
  lemma NullPayloadRefused(h: GoMap, signature: GoString, key: GoString, now: int, mac: Mac)
    requires Dot !in signature
    ensures DecodeChecked(NullPayloadToken(h, signature)) == Failure(BadJson)
    ensures LegalityChecked(NullPayloadToken(h, signature), key, now, mac) == Verdict(false, Some(BadJson))
  {
    SplitNullPayload(h, signature);
    SegmentRoundTrip(Nil);
    NullPayloadDecodes(h, signature);
  }
}
