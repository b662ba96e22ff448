/** The client-side expiry check of a bearer token (`isTokenExpired`).

    A token is `header.payload.signature`; only the payload segment is read.
    Decoding it (`atob` then `JSON.parse`) is a parameter `decode` of the model,
    reduced to what the check reads from it: the `exp` claim. */
module TokenClock {
  import opened Wrappers
  import opened Text

  /** What `JSON.parse(atob(segment)).exp` yields.
      `Undecodable`: `atob` or `JSON.parse` throws, or the payload is `null`.
      `NotANumber`: the payload parses but `exp` is missing or not convertible
      to a number (`undefined`, an object, a non-numeric string), so
      `exp * 1000` is `NaN`.
      `Exp(seconds)`: a claim that converts to a number, seconds since the
      epoch; besides numbers this covers `null`, `""` and `[]` (0), booleans
      (0 or 1) and numeric strings. */
  datatype ExpClaim = Undecodable | NotANumber | Exp(seconds: int)

  /** `const [, payloadBase64] = token.split(".")`: the second segment, absent
      when the token has no dot. */
  function PayloadSegment(token: string): (seg: Option<string>)
    ensures seg.Some? <==> '.' in token
  {
    var parts := Split(token, '.');
    SplitHasTwoPiecesIffSeparator(token, '.');
    if |parts| >= 2 then Some(parts[1]) else None
  }

  /** The claim a token carries; with no payload segment, `atob(undefined)`
      throws. */
  function Claim(token: string, decode: string -> ExpClaim): (claim: ExpClaim)
    ensures '.' !in token ==> claim == Undecodable
    ensures PayloadSegment(token).Some? ==> claim == decode(PayloadSegment(token).value)
  {
    match PayloadSegment(token)
    case None => Undecodable
    case Some(seg) => decode(seg)
  }

  /** `isTokenExpired(token)` at wall-clock time `now` (milliseconds).
      `None` is a token missing from storage. */
  function IsTokenExpired(token: Option<string>, now: int, decode: string -> ExpClaim): (expired: bool)
    // a missing or empty token is expired
    ensures token == None || token == Some("") ==> expired
    // fail closed: an undecodable payload counts as expired
    ensures token.Some? && Claim(token.value, decode) == Undecodable ==> expired
    // a valid claim: expired strictly after exp * 1000
    ensures token.Some? && token.value != "" && Claim(token.value, decode).Exp? ==>
              (expired <==> now > Claim(token.value, decode).seconds * 1000)
  {
    if token == None || token.value == "" then true
    else
      match Claim(token.value, decode)
      case Undecodable => true
      // `Date.now() > NaN` is false
      case NotANumber => false
      case Exp(seconds) => now > seconds * 1000
  }

  /** At exactly `exp * 1000` the token is still valid; one millisecond later it is not. */
  lemma ExpiryBoundaryIsStrict(token: string, decode: string -> ExpClaim, seconds: int)
    requires Claim(token, decode) == Exp(seconds)
    ensures !IsTokenExpired(Some(token), seconds * 1000, decode)
    ensures IsTokenExpired(Some(token), seconds * 1000 + 1, decode)
  {
    assert token != "" by { assert PayloadSegment(token).Some?; }
  }

  /** Once expired, a token stays expired. */
  lemma ExpiryIsMonotone(token: Option<string>, decode: string -> ExpClaim, t: int, t': int)
    requires t <= t' && IsTokenExpired(token, t, decode)
    ensures IsTokenExpired(token, t', decode)
  {
  }

  /** A payload whose `exp` is missing or not convertible to a number never
      expires: the comparison with `NaN` is false at every time. */
  lemma NonNumericClaimNeverExpires(token: string, decode: string -> ExpClaim, now: int)
    requires Claim(token, decode) == NotANumber
    ensures !IsTokenExpired(Some(token), now, decode)
  {
    assert token != "" by { assert PayloadSegment(token).Some?; }
  }

  lemma {:induction false} PayloadSegmentOf(header: string, payload: string, rest: string)
    requires '.' !in header && '.' !in payload
    requires rest == "" || rest[0] == '.'
    ensures PayloadSegment(header + "." + payload + rest) == Some(payload)
  {
    var token := header + "." + payload + rest;
    assert token == header + ['.'] + (payload + rest);
    SplitAtSeparator(header, payload + rest, '.');
    SplitWithoutSeparator(header, '.');
    if rest == "" {
      assert payload + rest == payload;
      SplitWithoutSeparator(payload, '.');
    } else {
      assert payload + rest == payload + ['.'] + rest[1..];
      SplitAtSeparator(payload, rest[1..], '.');
      SplitWithoutSeparator(payload, '.');
    }
  }

  /** Only the payload segment is consulted: tokens that differ in their
      header and in whatever follows the payload get the same verdict. */
  lemma OnlyPayloadSegmentMatters(h1: string, h2: string, payload: string, r1: string, r2: string,
                                  now: int, decode: string -> ExpClaim)
    requires '.' !in h1 && '.' !in h2 && '.' !in payload
    requires (r1 == "" || r1[0] == '.') && (r2 == "" || r2[0] == '.')
    ensures IsTokenExpired(Some(h1 + "." + payload + r1), now, decode)
         == IsTokenExpired(Some(h2 + "." + payload + r2), now, decode)
  {
    PayloadSegmentOf(h1, payload, r1);
    PayloadSegmentOf(h2, payload, r2);
    assert (h1 + "." + payload + r1) != "" && (h2 + "." + payload + r2) != "" by {
      assert |h1 + "." + payload + r1| > 0 && |h2 + "." + payload + r2| > 0;
    }
  }
}
