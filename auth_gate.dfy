/**
 * The bearer-token middleware: the token taken from the Authorization
 * header, and the two handlers that verify it. `authenticateToken` ends in
 * exactly one of a 401, a 403 or a call of `next`; `optionalAuth` always
 * calls `next` and attaches the user only for a token that verifies. Token
 * verification is the function `verify`, which yields the payload of a valid
 * token and nothing otherwise.
 */
module AuthGate {
  import opened Wrappers
  import opened Text
  import opened Http

  const TokenMissing: string := "访问令牌缺失"
  const TokenInvalid: string := "访问令牌无效"

  /** `authHeader && authHeader.split(' ')[1]`, kept only when the result is truthy. */
  function BearerToken(header: Option<string>): (r: Option<string>)
    ensures r.None? <==> header.None? || |Split(header.value, ' ')| < 2 || Split(header.value, ' ')[1] == ""
    ensures r.Some? ==> r.value == Split(header.value, ' ')[1]
  {
    if header.None? then None
    else
      var fields := Split(header.value, ' ');
      if |fields| < 2 || fields[1] == "" then None else Some(fields[1])
  }

  /** A token never holds a space, however the header is written. */
  lemma TokenHasNoSpace(header: Option<string>)
    ensures BearerToken(header).Some? ==> ' ' !in BearerToken(header).value
  {
    if header.Some? {
      SplitJoin(header.value, ' ');
    }
  }

  /** `"<scheme> <token>"`, optionally followed by further space-separated words, yields the token. */
  lemma BearerRoundTrip(scheme: string, token: string, tail: string)
    requires ' ' !in scheme && ' ' !in token && token != ""
    requires tail == [] || tail[0] == ' '
    ensures BearerToken(Some(scheme + " " + token + tail)) == Some(token)
  {
    assert scheme + " " + token + tail == scheme + [' '] + (token + tail);
    SplitFirstField(scheme, ' ', token + tail);
    if tail == [] {
      assert token + tail == token;
      SplitNoSeparator(token, ' ');
    } else {
      assert token + tail == token + [' '] + tail[1..];
      SplitFirstField(token, ' ', tail[1..]);
    }
  }

  /** A header with no space in it carries no token. */
  lemma OneWordHeader(header: string)
    requires ' ' !in header
    ensures BearerToken(Some(header)) == None
  {
    SplitNoSeparator(header, ' ');
  }

  /** The three ways `authenticateToken` can end. */
  datatype Outcome = Missing | Invalid | Verified(claims: Claims)

  function Authenticate(header: Option<string>, verify: string -> Option<Claims>): (r: Outcome)
    ensures r == Missing <==> BearerToken(header).None?
    ensures r == Invalid <==> BearerToken(header).Some? && verify(BearerToken(header).value).None?
    ensures r.Verified? <==> BearerToken(header).Some? && verify(BearerToken(header).value).Some?
    ensures r.Verified? ==> Some(r.claims) == verify(BearerToken(header).value)
  {
    var token := BearerToken(header);
    if token.None? then Missing
    else
      var decoded := verify(token.value);
      if decoded.None? then Invalid else Verified(decoded.value)
  }

  /**
   * `authenticateToken`: a missing token answers 401, a token that does not
   * verify answers 403, and only a verified token attaches its payload and
   * calls `next`, once.
   */
  method AuthenticateToken(ex: Exchange, header: Option<string>, verify: string -> Option<Claims>)
    modifies ex
    ensures Authenticate(header, verify) == Missing ==>
      ex.response == Some(Response(StatusUnauthorized, TokenMissing, None)) &&
      ex.nextCalls == old(ex.nextCalls) && ex.user == old(ex.user)
    ensures Authenticate(header, verify) == Invalid ==>
      ex.response == Some(Response(StatusForbidden, TokenInvalid, None)) &&
      ex.nextCalls == old(ex.nextCalls) && ex.user == old(ex.user)
    ensures Authenticate(header, verify).Verified? ==>
      ex.user == Some(Authenticate(header, verify).claims) &&
      ex.nextCalls == old(ex.nextCalls) + 1 && ex.response == old(ex.response)
  {
    var token := BearerToken(header);
    if token.None? {
      ex.response := Some(Response(StatusUnauthorized, TokenMissing, None));
      return;
    }
    var decoded := verify(token.value);
    if decoded.None? {
      ex.response := Some(Response(StatusForbidden, TokenInvalid, None));
      return;
    }
    ex.user := decoded;
    ex.nextCalls := ex.nextCalls + 1;
  }

  /**
   * `optionalAuth`: `next` is called exactly once; the payload of a token
   * that verifies is attached, and anything else leaves `req.user` as it was.
   */
  method OptionalAuth(ex: Exchange, header: Option<string>, verify: string -> Option<Claims>)
    modifies ex
    ensures ex.nextCalls == old(ex.nextCalls) + 1 && ex.response == old(ex.response)
    ensures Authenticate(header, verify).Verified? ==> ex.user == Some(Authenticate(header, verify).claims)
    ensures !Authenticate(header, verify).Verified? ==> ex.user == old(ex.user)
  {
    var token := BearerToken(header);
    if token.Some? {
      var decoded := verify(token.value);
      if decoded.Some? {
        ex.user := decoded;
      }
    }
    ex.nextCalls := ex.nextCalls + 1;
  }
}
