/** `GET /api/auth/me`: reads a GitHub access token from the `Authorization`
    header (the `Bearer` scheme of section 2.1 of RFC 6750, or GitHub's own
    `token` prefix), asks GitHub for the user and reshapes the answer. */
module AuthMe {
  import opened Wrappers
  import opened Text
  import Js

  /** What `fetch("https://api.github.com/user")` produced: no answer at all
      (the promise rejects), or a status and the parsed body (`null` when the
      body is not JSON). */
  datatype Upstream = Unreachable | Responded(status: int, body: Js.Value)

  datatype MeResponse =
    | MissingToken                       // 401 missing_token
    | InvalidToken                       // 401 invalid_token
    | GithubRequestFailed(status: int)   // 502 github_request_failed
    | InvalidUser                        // 502 invalid_user
    | Profile(login: string, name: Option<string>, avatarUrl: string)
    | InternalError                      // the fetch rejected

  const BearerPrefix := "Bearer "
  const TokenPrefix := "token "

  /** `Response.ok`. */
  predicate Ok(status: int) {
    200 <= status <= 299
  }

  /** The token in an `Authorization` header: what follows `Bearer ` or else
      `token ` (case-sensitive), trimmed; the empty string for any other
      header. */
  function ExtractToken(rawAuth: string): (t: string)
    ensures StartsWith(rawAuth, BearerPrefix) ==> t == Trim(rawAuth[|BearerPrefix|..])
    ensures !StartsWith(rawAuth, BearerPrefix) && StartsWith(rawAuth, TokenPrefix) ==> t == Trim(rawAuth[|TokenPrefix|..])
    ensures !StartsWith(rawAuth, BearerPrefix) && !StartsWith(rawAuth, TokenPrefix) ==> t == ""
    ensures t == [] || (!IsSpace(t[0]) && !IsSpace(t[|t| - 1]))
  {
    if StartsWith(rawAuth, BearerPrefix) then Trim(rawAuth[|BearerPrefix|..])
    else if StartsWith(rawAuth, TokenPrefix) then Trim(rawAuth[|TokenPrefix|..])
    else ""
  }

  /** The header the handler sends to GitHub for a token. */
  function ForwardedAuth(token: string): string {
    BearerPrefix + token
  }

  /** The header forwarded to GitHub carries exactly the token the handler
      read: reading it back gives the same token. */
  lemma {:induction false} ForwardedTokenReadsBack(rawAuth: string)
    ensures ExtractToken(ForwardedAuth(ExtractToken(rawAuth))) == ExtractToken(rawAuth)
  {
    var t := ExtractToken(rawAuth);
    var h := ForwardedAuth(t);
    assert StartsWith(h, BearerPrefix);
    assert h[|BearerPrefix|..] == t;
    if t != [] {
      assert SkipSpaces(t, 0) == 0;
      assert SkipSpacesBack(t, 0, |t|) == |t|;
    }
  }

  /** The handler; `authorization` is the request header (`None` when absent)
      and `github` gives GitHub's answer for the token sent to it. */
  function Me(authorization: Option<string>, github: string -> Upstream): (r: MeResponse)
    ensures var token := ExtractToken(authorization.GetOr(""));
            && (r == MissingToken <==> token == "")
            && (token != "" ==>
                  match github(token)
                  case Unreachable => r == InternalError
                  case Responded(status, body) =>
                    && (r == InvalidToken <==> status == 401)
                    && (r == GithubRequestFailed(status) <==> !Ok(status) && status != 401)
                    && (r == InvalidUser <==> Ok(status) && Js.StringOr(Js.Field(body, "login"), "") == "")
                    && (Ok(status) && Js.StringOr(Js.Field(body, "login"), "") != "" ==> r.Profile?))
    ensures r.Profile? ==>
              var body := github(ExtractToken(authorization.GetOr(""))).body;
              && r.login != ""
              && Js.Field(body, "login") == Js.Str(r.login)
              && (r.name.Some? <==> Js.Field(body, "name").Str?)
              && (r.name.Some? ==> Js.Field(body, "name") == Js.Str(r.name.value))
              && r.avatarUrl == Js.StringOr(Js.Field(body, "avatar_url"), "")
  {
    var token := ExtractToken(authorization.GetOr(""));
    if token == "" then MissingToken
    else
      match github(token)
      case Unreachable => InternalError
      case Responded(status, data) =>
        if !Ok(status) then
          (if status == 401 then InvalidToken else GithubRequestFailed(status))
        else
          var login := Js.StringOr(Js.Field(data, "login"), "");
          var nameField := Js.Field(data, "name");
          var name := if nameField.Str? then Some(nameField.s) else None;
          var avatarUrl := Js.StringOr(Js.Field(data, "avatar_url"), "");
          if login == "" then InvalidUser else Profile(login, name, avatarUrl)
  }

  /** Only the answer for the extracted token matters: two GitHub stand-ins
      that agree on it give the same response. */
  lemma AnswerForSentTokenOnly(authorization: Option<string>, g1: string -> Upstream, g2: string -> Upstream)
    requires g1(ExtractToken(authorization.GetOr(""))) == g2(ExtractToken(authorization.GetOr("")))
    ensures Me(authorization, g1) == Me(authorization, g2)
  {
  }
}
