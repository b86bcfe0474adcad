/**
 * The browser client's string handling around the session token: reading
 * it from the cookie, the request header built from it, and picking it out
 * of the login response. A JavaScript exception is modelled as an `Err`
 * carrying its kind, and `undefined` as `None`.
 */
module ClientConnector {
  import opened Wrappers
  import opened Text
  import opened Sequences

  const TypeError: string := "TypeError"

  /** The trimmed name of a cookie: the text before its first `=`. */
  function CookieName(cookie: string): string {
    Trim(Split(cookie, '=')[0])
  }

  predicate IsTokenCookie(cookie: string) {
    CookieName(cookie) == "token"
  }

  /**
   * The loop of `getTokenInCookie` over the `;`-separated cookies: the
   * trimmed text after the first `=` of the first cookie named `token`
   * (up to a second `=`), or `""` if there is none. A `token` cookie
   * without `=` makes the source read a property of `undefined`.
   */
  function TokenIn(cookies: seq<string>): (r: Result<string, string>)
    ensures r.Err? ==> r.error == TypeError
    ensures FirstWhere(cookies, IsTokenCookie) == -1 ==> r == Ok("")
    ensures FirstWhere(cookies, IsTokenCookie) >= 0 ==>
      var parts := Split(cookies[FirstWhere(cookies, IsTokenCookie)], '=');
      && (r.Err? <==> |parts| < 2)
      && (r.Ok? ==> r.value == Trim(parts[1]))
  {
    if cookies == [] then Ok("")
    else
      var parts := Split(cookies[0], '=');
      if IsTokenCookie(cookies[0]) then
        if |parts| >= 2 then Ok(Trim(parts[1])) else Err(TypeError)
      else
        TokenIn(cookies[1..])
  }

  /**
   * `getTokenInCookie`, over the page's cookie string: the only error is the
   * `TypeError` of a `token` cookie without `=`, and a string holding one
   * cookie is read as that cookie alone.
   */
  function GetTokenInCookie(cookie: string): (r: Result<string, string>)
    ensures r.Err? ==> r.error == TypeError
    ensures ';' !in cookie ==> r == TokenIn([cookie])
  {
    if ';' !in cookie then SplitWithoutSeparator(cookie, ';'); TokenIn(Split(cookie, ';'))
    else TokenIn(Split(cookie, ';'))
  }

  /** `isLogin`: a token was found. */
  function IsLogin(cookie: string): (r: Result<bool, string>)
    ensures r.Ok? <==> GetTokenInCookie(cookie).Ok?
    ensures r.Ok? ==> (r.value <==> GetTokenInCookie(cookie).value != "")
  {
    match GetTokenInCookie(cookie)
    case Ok(token) => Ok(token != "")
    case Err(e) => Err(e)
  }

  const AuthPrefix: string := "GoogleLogin auth="

  /** `constructHeader`: the `Authorization` header value. */
  function ConstructHeader(cookie: string): (r: Result<string, string>)
    ensures r.Ok? <==> GetTokenInCookie(cookie).Ok?
    ensures r.Ok? ==> StripPrefix(r.value, AuthPrefix) == Some(GetTokenInCookie(cookie).value)
  {
    match GetTokenInCookie(cookie)
    case Ok(token) =>
      StripPrefixOfConcat(AuthPrefix, token);
      Ok(AuthPrefix + token)
    case Err(e) => Err(e)
  }

  /** Characters that the cookie parsing treats specially or trims away. */
  predicate PlainCookieValue(s: string) {
    ';' !in s && '=' !in s && forall i :: 0 <= i < |s| ==> !IsWhitespace(s[i])
  }

  /**
   * The cookie `setTokenInCookie(t)` writes, behind other cookies with other
   * names, gives `t` back.
   */
  lemma SetThenGetToken(others: seq<string>, token: string)
    requires PlainCookieValue(token)
    requires forall c :: c in others ==> ';' !in c && !IsTokenCookie(c)
    ensures GetTokenInCookie(Join(others + ["token=" + token], ';')) == Ok(token)
  {
    var cookie := "token=" + token;
    TokenCookieSplit(token);
    TokenCookieNamed(cookie);
    TokenCookieHasNoSemicolon(token);
    TrimNoWhitespace(token);
    CookieAfterOthers(others, cookie, token);
  }

  /** The cookie `token=<t>` holds no `;` when `t` holds none. */
  lemma TokenCookieHasNoSemicolon(token: string)
    requires ';' !in token
    ensures ';' !in "token=" + token
  {
    var cookie := "token=" + token;
    assert forall i :: 0 <= i < |cookie| ==> cookie[i] == if i < 6 then "token="[i] else token[i - 6];
  }

  /** A token cookie holding `t`, joined behind cookies with other names, gives `t` back. */
  lemma CookieAfterOthers(others: seq<string>, cookie: string, token: string)
    requires ';' !in cookie && IsTokenCookie(cookie) && Split(cookie, '=') == ["token", token] && Trim(token) == token
    requires forall c :: c in others ==> ';' !in c && !IsTokenCookie(c)
    ensures GetTokenInCookie(Join(others + [cookie], ';')) == Ok(token)
  {
    var cookies := others + [cookie];
    assert forall c :: c in cookies ==> c in others || c == cookie;
    CookiesOfJoin(cookies);
    TokenAfterOthers(others, cookie, token);
  }

  /** Joined cookies without `;` are split back into the same cookies. */
  lemma CookiesOfJoin(cookies: seq<string>)
    requires |cookies| >= 1
    requires forall c :: c in cookies ==> ';' !in c
    ensures GetTokenInCookie(Join(cookies, ';')) == TokenIn(cookies)
  {
    SplitJoin(cookies, ';');
  }

  /** The cookie `token=<t>` splits into its name and `t`. */
  lemma TokenCookieSplit(token: string)
    requires '=' !in token
    ensures Split("token=" + token, '=') == ["token", token]
  {
    assert "token=" + token == "token" + ['='] + token;
    SplitWithoutSeparator(token, '=');
    SplitAfterPiece("token", '=', token);
  }

  /** A cookie whose text before the first `=` is exactly `token` is the token cookie. */
  lemma TokenCookieNamed(cookie: string)
    requires Split(cookie, '=')[0] == "token"
    ensures IsTokenCookie(cookie)
  {
    var name := Split(cookie, '=')[0];
    assert forall i :: 0 <= i < |name| ==> !IsWhitespace(name[i]);
    TrimNoWhitespace(name);
  }

  /** The first token cookie, behind cookies with other names, decides the token. */
  lemma TokenAfterOthers(others: seq<string>, cookie: string, token: string)
    requires IsTokenCookie(cookie) && |Split(cookie, '=')| >= 2 && Trim(Split(cookie, '=')[1]) == token
    requires forall c :: c in others ==> !IsTokenCookie(c)
    ensures TokenIn(others + [cookie]) == Ok(token)
  {
    var cookies := others + [cookie];
    assert forall i :: 0 <= i < |others| ==> cookies[i] == others[i] && !IsTokenCookie(cookies[i]);
    assert cookies[|others|] == cookie;
    assert FirstWhere(cookies, IsTokenCookie) == |others|;
  }

  /**
   * The token extraction of `login`: the text after the first `=` (up to a
   * second one) on the third line of the response. Fewer than three lines
   * make the source call a method of `undefined`; a third line without `=`
   * yields `undefined`.
   */
  function ExtractLoginToken(text: string): (r: Result<Option<string>, string>)
    ensures r.Err? <==> |Split(text, '\n')| < 3
    ensures r.Err? ==> r.error == TypeError
    ensures r == Ok(None) <==> |Split(text, '\n')| >= 3 && '=' !in Split(text, '\n')[2]
    ensures r.Ok? && r.value.Some? ==>
      |Split(text, '\n')| >= 3 && |Split(Split(text, '\n')[2], '=')| >= 2 &&
      r.value.value == Split(Split(text, '\n')[2], '=')[1]
  {
    var lines := Split(text, '\n');
    if |lines| < 3 then Err(TypeError)
    else
      var parts := Split(lines[2], '=');
      SplitCountsSeparator(lines[2], '=');
      if |parts| < 2 then Ok(None) else Ok(Some(parts[1]))
  }

  /** A string splits into more than one piece exactly when the separator occurs in it. */
  lemma {:induction false} SplitCountsSeparator(s: string, sep: char)
    ensures |Split(s, sep)| >= 2 <==> sep in s
  {
    if s != [] {
      SplitCountsSeparator(s[1..], sep);
      assert sep in s <==> s[0] == sep || sep in s[1..];
    }
  }

  /**
   * The body of a successful `ClientLogin` response gives the client the
   * `Auth` token, when that token has no `=` and no newline.
   */
  lemma LoginBodyGivesToken(sid: string, lsid: string, cltoken: string)
    requires '\n' !in sid && '\n' !in lsid
    requires '\n' !in cltoken && '=' !in cltoken
    ensures ExtractLoginToken("SID=" + sid + "\nLSID=" + lsid + "\nAuth=" + cltoken) == Ok(Some(cltoken))
  {
    var a, b, c := "SID=" + sid, "LSID=" + lsid, "Auth=" + cltoken;
    assert '\n' !in a && '\n' !in b && '\n' !in c;
    assert "SID=" + sid + "\nLSID=" + lsid + "\nAuth=" + cltoken == a + ['\n'] + b + ['\n'] + c;
    SplitThree(a, b, c, '\n');
    assert c == "Auth" + ['='] + cltoken;
    SplitWithoutSeparator(cltoken, '=');
    SplitAfterPiece("Auth", '=', cltoken);
  }
}
