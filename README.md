# A Dafny model of the hbrallen/jwt token

`Token.go` holds a small HS256 JSON Web Token: an object with a header map and
a payload map, both from strings to strings. Its methods do the following:

- `AddHeader` and `AddPayLoad` set entries and return the token for chaining.
- `JwtGenerator` gives the payload a default `exp` of one hour from now if it has
  none. It then writes each map as JSON and as padded standard base64, and signs
  `header.payload` with HMAC-SHA256 into the compact form
  `header.payload.signature`.
- `DecodeCom`, `Decode` and `DecodeL` split a compact token and decode it.
- `IsLegal` decodes a token into the object, signs it again with the secret, compares
  the signature segments and checks `exp` against the clock.
- `BasicToken` sets `typ`, `alg` and a two-hour `exp`, then signs.

The model has these parts:

- `go_strings.dfy`: Go strings as byte sequences, and `map[string]string` values
  that may be nil (`GoMap`). It models `strings.Split` on one separator byte and
  proves that splitting and joining are inverse.
- `base64.dfy`: `encoding/base64` with the standard alphabet. Encoding pads.
  `DecodeString` follows Go's decoder: line breaks are skipped, unused low bits
  are ignored, and the bytes decoded before an error are still returned along
  with it. The padded and the unpadded (`RawStdEncoding`) decoders are both
  modelled.
- `decimal.dfy`: `strconv.FormatInt` and `strconv.ParseInt(s, 10, 64)`.
- `json.dfy`: `encoding/json` for `map[string]string`. Keys are written in byte
  order, a nil map is written as `null`, `null` is read back as a nil map, and
  the round trip is proved.
- `jwt.dfy`: the `Token` class and its methods. Its two maps may be nil, as the
  Go fields may. It also holds the pure decoding functions and the
  specification of what `IsLegal` answers (`Legality`).
- `jwt_properties.dfy`: what signing and checking guarantee.

HMAC-SHA256 is the parameter `mac(key, message)`. The clock `time.Now().Unix()`
is the parameter `now`.

Four behaviours of the code are easy to miss:

- A token without `exp` is not treated as never expiring. `IsLegal` stores the
  decoded payload map in the token before `JwtGenerator` runs, so
  `JwtGenerator` writes a default `exp` into that same map. The expiry check
  then reads that `exp` (`LegalityVerdicts`, `MissingExpResigned`).
- Not every decoding failure is reported. `Decode` loses the payload's base64
  error; see Findings.
- `DecodeL` decodes with the unpadded alphabet while the other paths use the
  padded one. On a token `JwtGenerator` made, the model's `DecodeL` gets past
  base64 exactly when the header's JSON length is a multiple of three. The
  payload's base64 error is lost, as in `Decode`, and its JSON reaches
  `json.Unmarshal` cut short by one or two bytes, the closing brace among them,
  unless its length is a multiple of three too (`DecodeLOfCompact`). So Go's
  `DecodeL` accepts such a token only when both lengths are multiples of three.
- A segment holding the JSON `null` decodes to a nil map without error. A nil
  header is signed again as `null`. A nil payload makes `IsLegal` write the
  default `exp` into a nil map, which panics; see Findings.

## Model

| member | source | states |
|---|---|---|
| Jwt.Token.GetToken | Token.go:22-27 | a new token has an empty, non-nil payload and header |
| Jwt.Token.AddPayLoad | Token.go:31-34 | on a non-nil payload, sets one entry, replacing any earlier value, leaves the header alone and returns the same token |
| Jwt.Token.AddHeader | Token.go:37-40 | on a non-nil header, sets one entry, replacing any earlier value, leaves the payload alone and returns the same token |
| Jwt.WithDefaultExp | Token.go:47-50 | after signing the payload has a non-empty `exp`; a payload that already had one is unchanged; every other claim is kept |
| TokenProperties.DefaultExpiry | Token.go:47-50 | the default `exp` reads back through `ParseInt` as the signing time plus 3600 seconds |
| Jwt.Token.JwtGenerator | Token.go:45-85 | on a non-nil payload: the payload gains the default `exp`; the header, nil or not, is unchanged; the second result is the base64 MAC of `header.payload`, and the first is `header.payload.signature` |
| Jwt.DecodeCom | Token.go:88-106 | MalformedToken exactly when there are not three segments; CorruptBase64 exactly when there are three and either the payload or the header segment is not valid padded base64; otherwise success with both decoded byte strings and the signature segment |
| TokenProperties.DecodeComOfCompact | Token.go:88-106 | on a signed token, `DecodeCom` returns the JSON of the payload, the JSON of the header and the signature segment |
| Jwt.Decode | Token.go:139-164 | MalformedToken exactly when there are not three segments; CorruptBase64 exactly when there are three and the header segment is not valid base64, whatever the payload segment holds; BadJson exactly when either decoded byte string, the payload's taken even after its base64 error, is neither `null` nor an object of strings; otherwise success with both maps, `null` giving a nil map |
| TokenProperties.DecodeOfCompact | Token.go:139-164 | decoding a signed token gives back exactly the payload map, the header map and the signature segment |
| Jwt.DecodeL | Token.go:109-136 | MalformedToken exactly when there are not three segments; CorruptBase64 exactly when there are three and the header segment is not valid unpadded base64, whatever the payload segment holds; otherwise success with the bytes both segments decode to and the signature segment |
| TokenProperties.DecodeLOfCompact | Token.go:109-136 | on a signed token, `DecodeL` gets past base64 exactly when the header's JSON length is a multiple of 3; it then returns the header's JSON, the signature segment, and the payload's JSON cut to its whole 3-byte groups, which is the whole JSON exactly when its length is a multiple of 3 |
| TokenProperties.SplitCompact | Token.go:71-82 | a signed token splits on `.` into exactly its header, payload and signature segments |
| Jwt.Token.IsLegal | Token.go:168-201 | the verdict is `Legality`. If decoding fails, the token is unchanged. Otherwise it holds the decoded header and either the decoded payload with its default `exp`, or, when the payload is nil, that nil map |
| Jwt.Legality | Token.go:168-201 | a decoding error is returned as it is; a legal verdict carries no error and needs a decoded, non-nil payload; the verdict is NilMapWrite exactly when the payload decoded to a nil map |
| TokenProperties.LegalityVerdicts | Token.go:168-201 | a decoding error is returned as it is; a nil payload ends in NilMapWrite; otherwise the token is legal exactly when the re-made signature matches and the (possibly defaulted) `exp` parses and is not before now; the only other error is BadExpiry, given exactly when the signature matches and `exp` does not parse; a legal verdict carries no error |
| TokenProperties.SignedTokenVerdict | Token.go:182-200 | a token signed over a payload with an `exp` is legal exactly while `exp` is not before now, and an unparsable `exp` is BadExpiry |
| TokenProperties.MissingExpResigned | Token.go:175-187 | a decoded token without `exp` is legal exactly when its signature is that of its payload plus an `exp` one hour after the check |
| TokenProperties.GeneratedTokenLifetime | Token.go:45-50 | a token signed from a payload without `exp` is legal with no error exactly up to one hour after signing |
| Jwt.Token.BasicToken | Token.go:204-213 | on non-nil maps: sets `typ` to `JWT` and `alg` to `HS256` in the header, sets `exp` to now plus two hours, and returns the signed token |
| TokenProperties.BasicTokenLifetime | Token.go:204-213 | the token `BasicToken` makes is legal with no error exactly up to two hours after it was made |
| TokenProperties.TamperedTokenAccepted | Token.go:149-151 | appending a non-base64 byte to a signed token's payload segment makes that segment invalid, yet `Decode` and `IsLegal` answer exactly as for the original |
| Jwt.DecodeChecked | Token.go:149-157 | success implies three segments, both valid base64, and a non-nil payload; MalformedToken without three segments; CorruptBase64 when the payload segment is invalid; otherwise `Decode`'s result, except that a nil payload is BadJson |
| Jwt.LegalityChecked | Token.go:168-176 | a DecodeChecked failure is returned as an error; the verdict is never NilMapWrite; wherever the payload segment is valid and does not decode to nil, the verdict equals `Legality` |
| TokenProperties.TamperedTokenRefused | Token.go:149-151 | with the payload error checked, the tampered token is refused with CorruptBase64 |
| TokenProperties.CheckedAgreesOnSignedTokens | Token.go:168-201 | with the payload error and `null` checked, every signed token gets the same verdict as before |
| TokenProperties.NullPayloadDecodes | Token.go:149-163 | a token whose payload segment encodes `null` decodes without error to a nil payload |
| TokenProperties.NullPayloadPanics | Token.go:176-178 | for every header, signature, key and clock, that token ends in NilMapWrite, the panic, before any signature is compared |
| TokenProperties.NullPayloadRefused | Token.go:155-157 | with `null` checked, that token is refused with BadJson |
| GoStrings.Split | Token.go:89 | splitting gives at least one part, no part contains the separator, and joining the parts gives back the input |
| GoStrings.SplitJoin | Token.go:89 | splitting the join of separator-free parts gives back those parts |
| Base64.StdEncode | Token.go:57 | (also lines 67 and 78) four symbols for every started group of three bytes; `StdRoundTrip` is its inverse |
| Base64.StdDecodeString | Token.go:149-150 | (also lines 97 and 101) at most three bytes for every four input bytes; without error only on whole quanta of four symbols, line breaks aside |
| Base64.RawStdDecodeString | Token.go:119-120 | at most three bytes for every four input bytes; without error only when the input does not end in a lone symbol |
| Base64.StdRoundTrip | Token.go:57 | padded decoding of an encoding gives back the bytes with no error |
| Base64.RawDecodeOfStdEncode | Token.go:119-120 | unpadded decoding of a padded encoding succeeds exactly when the input length is a multiple of 3, and then gives the bytes back |
| Base64.RawDecodePrefix | Token.go:119-120 | unpadded decoding of a padded encoding returns the bytes of its whole 3-byte groups, so all of them exactly when the length is a multiple of 3 |
| Base64.AppendedJunkKeepsBytes | Token.go:149 | an encoding followed by one byte outside the alphabet fails to decode, but the decoder still returns all the original bytes |
| Decimal.FormatInt | Token.go:49 | (also line 207) at least one byte, starting with a minus sign exactly when the number is negative; `ParseFormat` is its inverse |
| Decimal.ParseFormat | Token.go:49 | `ParseInt` reads back what `FormatInt` wrote, for every 64-bit integer |
| Decimal.ParseInt | Token.go:190 | a result is always in the 64-bit range, and the empty string does not parse |
| Json.SortedKeys | Token.go:52 | the keys in strictly increasing byte order, each key of the map exactly once |
| Json.Marshal | Token.go:52 | (also line 62) an object: the output starts with `{` and ends with `}` |
| Json.MarshalMap | Token.go:62 | `null` exactly for a nil map |
| Json.UnmarshalMap | Token.go:157-160 | a nil map exactly for the input `null`; any other map read only from input starting with `{` |
| Json.MarshalRoundTrip | Token.go:52 | unmarshalling the JSON of a string map gives back the same map |
| Json.MarshalMapRoundTrip | Token.go:62 | unmarshalling the JSON of a map that may be nil gives back the same map, nil included |

## Left out

- HMAC-SHA256 (Token.go:75-78) is not modelled. It is the parameter `mac`, so the
  model proves nothing about the hash itself, such as that it resists forgery.
- `time.Now()` (Token.go:48, 194, 206) is the parameter `now`. `IsLegal` uses one
  instant both for the default `exp` it writes and for the expiry comparison,
  where the code reads the clock twice.
- Jwt.Token.JwtGenerator: has no error result. `json.Marshal` of a
  `map[string]string` cannot fail, so the branches at Token.go:53-56 and 63-66
  cannot be taken.
- Jwt.Token.BasicToken: has no error result, for the same reason (Token.go:209-211).
- Jwt.Token.IsLegal: has no branch for an error from `JwtGenerator`
  (Token.go:179-181), for the same reason.
- Jwt.WithDefaultExp: `now + 3600` and `now + 7200` are unbounded integers. The
  int64 overflow of `Unix()` plus a lifetime is not modelled. The lemmas that
  read `exp` back require the sum to fit in 64 bits.
- Jwt.DecodeL: stops at the bytes it hands to `json.Unmarshal`. Decoding into
  `map[string]interface{}` (numbers, booleans, nested values) is not modelled,
  so the model does not show that the cut-short payload JSON fails to parse.
- A run-time panic is modelled as the verdict `(false, NilMapWrite)`. Go
  returns nothing there and unwinds instead.
- Printing to standard output (Token.go:54, 64, 121-124, 152) is left out.
- Error values carry a kind (`Error`) rather than Go's error text.
- Json.MarshalRoundTrip covers a stand-in for `encoding/json`. Bytes at or above
  0x80 are written unchanged: Go's replacement of invalid UTF-8 by U+FFFD and its
  escaping of U+2028 and U+2029 are not modelled.
- Json.UnmarshalMap does not accept whitespace or non-string values, and
  accepts `\u` escapes only below 0x80. Real JSON produced elsewhere may
  therefore be refused with BadJson where Go would accept it. `Marshal` never
  produces any of these.
- The signature segments are compared with ordinary equality, as the code does.
  Timing is not modelled.
- Jwt.Token.AddPayLoad, Jwt.Token.AddHeader, Jwt.Token.JwtGenerator and
  Jwt.Token.BasicToken require the maps they write to be non-nil. Go panics
  there instead, for example on a `Token{}` made without `GetToken`, or after
  `IsLegal` has stored a `null` header or payload.

## Findings

| source | as written | input that shows it | evidently intended | confidence | as-written member | corrected member |
|---|---|---|---|---|---|---|
| Token.go:149-151 | the header decoding's `err` overwrites the payload decoding's before it is checked. So a payload segment that is not valid base64 is accepted, and the bytes decoded before the bad byte go to `json.Unmarshal` | any token `JwtGenerator` made, with one byte such as `!` appended to its payload segment: `Decode` and `IsLegal` answer exactly as for the original token | check each decoding's error, as `DecodeCom` (Token.go:97-104) does, so that the altered token is refused | high; not executed | TokenProperties.TamperedTokenAccepted | Jwt.DecodeChecked, Jwt.LegalityChecked, TokenProperties.TamperedTokenRefused |
| Token.go:155-178 | `json.Unmarshal` of `null` sets the fresh payload map to nil without error. `IsLegal` stores it in the token, and `JwtGenerator` then writes the default `exp` into it, which panics | the token `e30=.bnVsbA==.x`, or any token whose payload segment encodes `null`: `IsLegal` panics before any signature is compared | refuse a payload that is not a JSON object as a decoding error, as a payload that is not JSON at all is refused | high; not executed | TokenProperties.NullPayloadPanics | Jwt.DecodeChecked, Jwt.LegalityChecked, TokenProperties.NullPayloadRefused |
