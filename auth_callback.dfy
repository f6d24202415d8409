/** `GET /api/auth/callback`: the redirect endpoint of GitHub's
    authorization-code grant (section 4.1 of RFC 6749). It checks the error
    response, the code, its own client credentials, the token request and the
    `access_token` of the token response, in that order, and redirects to the
    login page with either an error or the token in the query. */
module AuthCallback {
  import opened Wrappers
  import opened Text
  import Js
  import Uri

  /** The environment: `GITHUB_CLIENT_ID`, `NEXT_PUBLIC_CLIENT_ID` and
      `GITHUB_CLIENT_SECRET`, each `None` when unset. */
  datatype Env = Env(githubClientId: Option<string>, publicClientId: Option<string>, clientSecret: Option<string>)

  /** What the POST to GitHub's token endpoint produced. */
  datatype TokenReply = Unreachable | Responded(status: int, body: Js.Value)

  /** A redirect (to a location relative to the request's origin), or the
      error the framework reports when the token request rejects. */
  datatype CallbackResponse = Redirect(location: string) | InternalError

  const LoginError := "/login?error="
  const LoginToken := "/login?token="

  predicate Ok(status: int) {
    200 <= status <= 299
  }

  /** `GITHUB_CLIENT_ID ?? NEXT_PUBLIC_CLIENT_ID ?? ""`: `??` falls back only
      when a variable is unset, never when it is set to the empty string. */
  function ClientId(env: Env): (id: string)
    ensures env.githubClientId.Some? ==> id == env.githubClientId.value
    ensures env.githubClientId.None? && env.publicClientId.Some? ==> id == env.publicClientId.value
    ensures env.githubClientId.None? && env.publicClientId.None? ==> id == ""
  {
    match env.githubClientId
    case Some(v) => v
    case None => env.publicClientId.GetOr("")
  }

  /** `params.get(name)` is truthy: present and not empty. */
  predicate Given(p: Option<string>) {
    p.Some? && p.value != ""
  }

  /** The callback. `exchange(clientId, clientSecret, code)` is the token
      endpoint's reply to the request the handler sends. */
  function Callback(error: Option<string>, code: Option<string>, env: Env,
                    exchange: (string, string, string) -> TokenReply): (r: CallbackResponse)
    ensures Given(error) ==> r == Redirect(LoginError + Uri.Encode(error.value))
    ensures !Given(error) && !Given(code) ==> r == Redirect(LoginError + "missing_code")
    ensures !Given(error) && Given(code) && (ClientId(env) == "" || env.clientSecret.GetOr("") == "") ==>
              r == Redirect(LoginError + "missing_oauth_env")
    ensures !Given(error) && Given(code) && ClientId(env) != "" && env.clientSecret.GetOr("") != "" ==>
              match exchange(ClientId(env), env.clientSecret.value, code.value)
              case Unreachable => r == InternalError
              case Responded(status, body) =>
                if !Ok(status) then r == Redirect(LoginError + "token_request_failed")
                else if Js.StringOr(Js.Field(body, "access_token"), "") == "" then r == Redirect(LoginError + "missing_access_token")
                else r == Redirect(LoginToken + Uri.Encode(Js.Field(body, "access_token").s))
  {
    if Given(error) then Redirect(LoginError + Uri.Encode(error.value))
    else if !Given(code) then Redirect(LoginError + "missing_code")
    else
      var clientId := ClientId(env);
      var clientSecret := env.clientSecret.GetOr("");
      if clientId == "" || clientSecret == "" then Redirect(LoginError + "missing_oauth_env")
      else
        match exchange(clientId, clientSecret, code.value)
        case Unreachable => InternalError
        case Responded(status, data) =>
          if !Ok(status) then Redirect(LoginError + "token_request_failed")
          else
            var token := Js.StringOr(Js.Field(data, "access_token"), "");
            if token == "" then Redirect(LoginError + "missing_access_token")
            else Redirect(LoginToken + Uri.Encode(token))
  }

  /** The token the handler issues: GitHub's `access_token`, when every check
      before it passes. */
  function IssuedToken(error: Option<string>, code: Option<string>, env: Env,
                       exchange: (string, string, string) -> TokenReply): Option<string>
  {
    if Given(error) || !Given(code) || ClientId(env) == "" || env.clientSecret.GetOr("") == "" then None
    else
      match exchange(ClientId(env), env.clientSecret.GetOr(""), code.GetOr(""))
      case Unreachable => None
      case Responded(status, data) =>
        var token := Js.StringOr(Js.Field(data, "access_token"), "");
        if !Ok(status) || token == "" then None else Some(token)
  }

  /** What a client reading the query value of a redirect sees: its
      characters need no escaping and it decodes to `decoded`. */
  predicate QueryValueOf(value: string, decoded: string) {
    && (forall i :: 0 <= i < |value| ==> Uri.Unreserved(value[i]) || value[i] == '%')
    && Uri.Decode(value) == Some(decoded)
  }

  lemma EncodedValue(s: string)
    ensures QueryValueOf(Uri.Encode(s), s)
  {
    Uri.DecodeEncode(s);
  }

  /** The fixed error codes are plain lower-case words joined by `_`. */
  lemma FixedCode(c: string)
    requires forall i :: 0 <= i < |c| ==> 'a' <= c[i] <= 'z' || c[i] == '_'
    ensures QueryValueOf(c, c)
  {
    Uri.DecodeWithoutEscapes(c);
  }

  /** A redirect to the login page with a fixed error code carries that code
      as its query value. */
  lemma FixedRedirect(r: CallbackResponse, c: string)
    requires forall i :: 0 <= i < |c| ==> 'a' <= c[i] <= 'z' || c[i] == '_'
    requires r == Redirect(LoginError + c)
    ensures r.location[|LoginError|..] == c && QueryValueOf(c, c)
  {
    FixedCode(c);
  }

  /** Every redirect goes to the login page and carries one query parameter,
      `token` exactly when a token was issued and `error` otherwise; its value
      is made of unreserved characters and percent escapes only, and decoding
      it gives back the error GitHub sent or the token it issued. */
  lemma CallbackQueryDecodes(error: Option<string>, code: Option<string>, env: Env,
                             exchange: (string, string, string) -> TokenReply)
    ensures var r := Callback(error, code, env, exchange);
            var token := IssuedToken(error, code, env, exchange);
            r.Redirect? ==>
              && |LoginError| == |LoginToken|
              && r.location[..|LoginError|] == (if token.Some? then LoginToken else LoginError)
              && var value := r.location[|LoginError|..];
                 && (forall i :: 0 <= i < |value| ==> Uri.Unreserved(value[i]) || value[i] == '%')
                 && Uri.Decode(value).Some?
                 && (Given(error) ==> QueryValueOf(value, error.value))
                 && (token.Some? ==> QueryValueOf(value, token.value))
  {
    var r := Callback(error, code, env, exchange);
    var token := IssuedToken(error, code, env, exchange);
    var n := |LoginError|;
    if Given(error) {
      EncodedValue(error.value);
      assert r.location[n..] == Uri.Encode(error.value);
    } else if token.Some? {
      EncodedValue(token.value);
      assert r.location == LoginToken + Uri.Encode(token.value);
      assert r.location[n..] == Uri.Encode(token.value);
    } else if !Given(code) {
      FixedRedirect(r, "missing_code");
    } else if ClientId(env) == "" || env.clientSecret.GetOr("") == "" {
      FixedRedirect(r, "missing_oauth_env");
    } else {
      match exchange(ClientId(env), env.clientSecret.value, code.value)
      case Unreachable =>
      case Responded(status, _) =>
        if !Ok(status) {
          FixedRedirect(r, "token_request_failed");
        } else {
          FixedRedirect(r, "missing_access_token");
        }
    }
  }
}
