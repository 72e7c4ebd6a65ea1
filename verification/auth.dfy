/** Parsing of the `Authorization` header in backend/server.py (`verify_token`). Decoding and
    checking the JWT is a library call and is passed in as a function. */
module Auth {
  import opened Wrappers
  import opened Strings

  /** The claims of a token that the routes read; the `exp` claim is checked by the decoder. */
  datatype Payload = Payload(tenantId: string, email: string)

  /** The three outcomes of `jwt.decode`. */
  datatype Decoded = Valid(payload: Payload) | ExpiredSignature | InvalidToken

  const BearerPrefix: string := "Bearer "

  const MissingHeader: HttpError := HttpError(401, "Missing or invalid authorization header")

  /** A header without the `Bearer ` prefix is refused; otherwise the token is
      `authorization.split(' ')[1]`: the text after the first space, up to the next space. */
  function BearerToken(authorization: Option<string>): (r: Result<string, HttpError>)
    ensures r.Err? <==> authorization.None? || !StartsWith(authorization.value, BearerPrefix)
    ensures r.Err? ==> r.error == MissingHeader
    ensures r.Ok? ==> ' ' !in r.value && StartsWith(authorization.value, BearerPrefix + r.value)
    ensures r.Ok? ==> var rest := authorization.value[|BearerPrefix + r.value|..];
      rest == [] || rest[0] == ' '
  {
    if authorization.None? || authorization.value == [] || !StartsWith(authorization.value, BearerPrefix) then
      Err(MissingHeader)
    else
      var h := authorization.value;
      assert h == "Bearer" + [' '] + h[7..];
      SplitAfterWord("Bearer", ' ', h[7..]);
      var token := Split(h, ' ')[1];
      assert token == TakeUntil(h[7..], ' ');
      assert h[..|BearerPrefix + token|] == BearerPrefix + token by {
        assert h[..7] == BearerPrefix;
        assert h[7..][..|token|] == token;
      }
      Ok(token)
  }

  /** `verify_token`: the header check, then the decoder's verdict; every failure is a 401. */
  function VerifyToken(authorization: Option<string>, decode: string -> Decoded): (r: Result<Payload, HttpError>)
    ensures r.Err? ==> r.error.status == 401
    ensures r.Ok? <==> BearerToken(authorization).Ok? && decode(BearerToken(authorization).value).Valid?
    ensures r.Ok? ==> r.value == decode(BearerToken(authorization).value).payload
    ensures BearerToken(authorization).Err? ==> r == Err(MissingHeader)
    ensures BearerToken(authorization).Ok? && decode(BearerToken(authorization).value).ExpiredSignature? ==>
      r == Err(HttpError(401, "Token expired"))
    ensures BearerToken(authorization).Ok? && decode(BearerToken(authorization).value).InvalidToken? ==>
      r == Err(HttpError(401, "Invalid token"))
  {
    match BearerToken(authorization)
    case Err(e) => Err(e)
    case Ok(token) =>
      match decode(token)
      case Valid(payload) => Ok(payload)
      case ExpiredSignature => Err(HttpError(401, "Token expired"))
      case InvalidToken => Err(HttpError(401, "Invalid token"))
  }

  /** A header built as `f'Bearer {token}'`, possibly followed by more space-separated text,
      gives back exactly that token. */
  lemma BearerRoundTrip(token: string, more: string)
    requires ' ' !in token
    requires more == [] || more[0] == ' '
    ensures BearerToken(Some(BearerPrefix + token + more)) == Ok(token)
  {
    var h := BearerPrefix + token + more;
    assert h[..|BearerPrefix|] == BearerPrefix;
    var r := BearerToken(Some(h));
    assert StartsWith(h, BearerPrefix + r.value);
    TokensAgree(r.value, token, h[7..]);
  }

  /** Two space-free tokens that both begin `s` and are both followed by a space or the end of
      `s` are the same token. */
  lemma {:induction false} TokensAgree(a: string, b: string, s: string)
    requires ' ' !in a && ' ' !in b
    requires StartsWith(s, a) && StartsWith(s, b)
    requires |a| == |s| || s[|a|] == ' '
    requires |b| == |s| || s[|b|] == ' '
    ensures a == b
  {
    assert a == s[..|a|] && b == s[..|b|];
  }
}
