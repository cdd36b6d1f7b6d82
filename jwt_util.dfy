/** JwtUtil: the "Bearer " prefix createToken adds and getTokenFromHeader
    strips, and the token's lifetime. Signing and verification (jjwt, HS256)
    are a parameter: `sign` maps the claims to the compact token. */
module JwtUtil {
  import opened Wrappers
  import opened JavaStrings

  const BearerPrefix: string := "Bearer "

  /** TOKEN_TIME: sixty minutes, in milliseconds. */
  const TokenTime: int := 60 * 60 * 1000

  /** The claims createToken signs; times are epoch milliseconds. */
  datatype Claims = Claims(subject: string, issuedAt: int, expiration: int)

  /** createToken, issued at `now`: the prefix, then the signed claims. */
  function CreateToken(username: string, now: int, sign: Claims -> string): (token: string)
    ensures StartsWith(token, BearerPrefix)
  {
    var token := BearerPrefix + sign(Claims(username, now, now + TokenTime));
    assert token[..|BearerPrefix|] == BearerPrefix;
    token
  }

  /** getTokenFromHeader: what follows the first seven characters of a header
      that has text and starts with "Bearer ", and null otherwise. Starting
      with the prefix already implies having text. */
  function GetTokenFromHeader(header: Option<string>): (token: Option<string>)
    ensures token.Some? <==> header.Some? && StartsWith(header.value, BearerPrefix)
    ensures token.Some? ==> header.value == BearerPrefix + token.value
  {
    if header.Some? && HasText(header.value) && StartsWith(header.value, BearerPrefix) then
      Some(header.value[7..])
    else
      if header.Some? then PrefixedHasText(header.value); None else None
  }

  /** A text starting with "Bearer " has text: its first character is 'B'. */
  lemma PrefixedHasText(h: string)
    ensures StartsWith(h, BearerPrefix) ==> HasText(h)
  {
    if StartsWith(h, BearerPrefix) {
      assert h[0] == 'B';
    }
  }

  /** A header carrying createToken's output yields the signed claims, with
      the expiry one hour after issue. */
  lemma HeaderRoundTrip(username: string, now: int, sign: Claims -> string)
    ensures GetTokenFromHeader(Some(CreateToken(username, now, sign)))
            == Some(sign(Claims(username, now, now + 3600000)))
  {
    var token := CreateToken(username, now, sign);
    assert token[7..] == sign(Claims(username, now, now + TokenTime));
  }
}
