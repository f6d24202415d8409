/** The login landing page (`/login`): shows the outcome of the OAuth
    callback and, when it carries a token, stores it in local storage and
    navigates to the page the user came from. */
module LoginPage {
  import opened Wrappers
  import Uri
  import Js
  import AuthCallback

  const TokenKey := "token"
  const RedirectKey := "post_login_redirect"
  const DefaultTarget := "/Daily"
  const FailurePrefix := "登录失败："
  const LoggingIn := "登录中..."
  const NoCredential := "未收到登录凭证"

  /** The message shown: an error wins over a token. */
  function Message(token: Option<string>, error: Option<string>): (m: string)
    ensures AuthCallback.Given(error) ==> m == FailurePrefix + error.value
    ensures !AuthCallback.Given(error) && AuthCallback.Given(token) ==> m == LoggingIn
    ensures !AuthCallback.Given(error) && !AuthCallback.Given(token) ==> m == NoCredential
  {
    if AuthCallback.Given(error) then FailurePrefix + error.value
    else if AuthCallback.Given(token) then LoggingIn
    else NoCredential
  }

  /** Where the page navigates after storing a token:
      `localStorage.getItem("post_login_redirect") || "/Daily"`. */
  function Target(entries: map<string, string>): (t: string)
    ensures t != ""
    ensures RedirectKey in entries && entries[RedirectKey] != "" ==> t == entries[RedirectKey]
    ensures !(RedirectKey in entries && entries[RedirectKey] != "") ==> t == DefaultTarget
  {
    if RedirectKey in entries && entries[RedirectKey] != "" then entries[RedirectKey] else DefaultTarget
  }

  /** The storage and navigation after the page's effect ran. */
  datatype Outcome = Outcome(entries: map<string, string>, navigateTo: Option<string>)

  /** What the effect does to local storage and where it navigates. */
  function AfterLogin(entries: map<string, string>, token: Option<string>, error: Option<string>): (o: Outcome)
    ensures AuthCallback.Given(error) || !AuthCallback.Given(token) ==> o == Outcome(entries, None)
  {
    if AuthCallback.Given(error) then Outcome(entries, None)
    else if AuthCallback.Given(token) then
      var stored := entries[TokenKey := token.value];
      Outcome(stored - {RedirectKey}, Some(Target(stored)))
    else Outcome(entries, None)
  }

  /** A token without an error is stored under `token`, the pending redirect
      is consumed (and followed when not empty), and no other entry changes. */
  lemma TokenStored(entries: map<string, string>, token: string)
    requires token != ""
    ensures var o := AfterLogin(entries, Some(token), None);
            && TokenKey in o.entries && o.entries[TokenKey] == token
            && RedirectKey !in o.entries
            && o.navigateTo == Some(Target(entries))
            && forall k :: k != TokenKey && k != RedirectKey ==>
                 (k in o.entries <==> k in entries) && (k in entries ==> o.entries[k] == entries[k])
  {
    var stored := entries[TokenKey := token];
    assert Target(stored) == Target(entries) by {
      assert (RedirectKey in stored) == (RedirectKey in entries);
      if RedirectKey in entries {
        assert stored[RedirectKey] == entries[RedirectKey];
      }
    }
  }

  /** The token the OAuth callback issues reaches local storage unchanged:
      the login page reads the decoded `token` query value of the callback's
      redirect and stores exactly that. */
  lemma IssuedTokenStored(error: Option<string>, code: Option<string>, env: AuthCallback.Env,
                          exchange: (string, string, string) -> AuthCallback.TokenReply,
                          entries: map<string, string>)
    requires AuthCallback.IssuedToken(error, code, env, exchange).Some?
    ensures var r := AuthCallback.Callback(error, code, env, exchange);
            && r.Redirect?
            && var param := Uri.Decode(r.location[|AuthCallback.LoginToken|..]);
               && param == AuthCallback.IssuedToken(error, code, env, exchange)
               && var o := AfterLogin(entries, param, None);
                  TokenKey in o.entries && Some(o.entries[TokenKey]) == AuthCallback.IssuedToken(error, code, env, exchange)
  {
    AuthCallback.CallbackQueryDecodes(error, code, env, exchange);
    var t := AuthCallback.IssuedToken(error, code, env, exchange).value;
    TokenStored(entries, t);
  }

  /** The browser's `localStorage`. */
  class LocalStorage {
    var entries: map<string, string>

    constructor (initial: map<string, string>)
      ensures entries == initial
    {
      entries := initial;
    }

    method SetItem(key: string, value: string)
      modifies this
      ensures entries == old(entries)[key := value]
    {
      entries := entries[key := value];
    }

    method GetItem(key: string) returns (value: Option<string>)
      ensures value == if key in entries then Some(entries[key]) else None
    {
      value := if key in entries then Some(entries[key]) else None;
    }

    method RemoveItem(key: string)
      modifies this
      ensures entries == old(entries) - {key}
    {
      entries := entries - {key};
    }
  }

  /** The page's effect: `navigateTo` is the `router.push` target, if any. */
  method LoginEffect(storage: LocalStorage, token: Option<string>, error: Option<string>) returns (navigateTo: Option<string>)
    modifies storage
    ensures storage.entries == AfterLogin(old(storage.entries), token, error).entries
    ensures navigateTo == AfterLogin(old(storage.entries), token, error).navigateTo
  {
    if AuthCallback.Given(error) {
      return None;
    }
    if AuthCallback.Given(token) {
      storage.SetItem(TokenKey, token.value);
      var pending := storage.GetItem(RedirectKey);
      var redirectTo := if pending.Some? && pending.value != "" then pending.value else DefaultTarget;
      storage.RemoveItem(RedirectKey);
      return Some(redirectTo);
    }
    navigateTo := None;
  }
}
