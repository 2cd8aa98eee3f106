/**
 * `GoogleAuthCallback.execute` (GoogleAuthCallback.ts): an authorisation code
 * is exchanged for an access token, the token fetches the Google profile, the
 * profile's email finds the local user, and a token for `{ userId }` is
 * returned. Nothing is persisted here.
 */
module GoogleCallback {
  import opened Wrappers
  import opened Text
  import opened Identity

  /**
   * Google's side as an oracle: `tokens` maps each code the exchange accepts to
   * its access token; `userinfo` maps each access token the profile request
   * accepts to the profile's email (None when the profile carries none).
   * A code or token missing from its map makes that request throw.
   */
  datatype GoogleOAuth = GoogleOAuth(tokens: map<string, string>, userinfo: map<string, Option<string>>)

  datatype CallbackError =
    | CodeExchangeFailed
    | UserinfoFailed
    | NoEmailFromGoogle     // "Unable to retrieve user email from Google"
    | UserNotFound          // "User not found"

  /** The requests `execute` makes, in the order it makes them. */
  datatype Step = ExchangeCode(code: string) | FetchUserinfo(accessToken: string) | FindUser(email: string)

  datatype Execution = Execution(steps: seq<Step>, result: Result<string, CallbackError>)

  function Execute(code: string, google: GoogleOAuth, users: seq<User>, jwt: JwtService): (e: Execution)
    // the code is exchanged first, always
    ensures 1 <= |e.steps| <= 3 && e.steps[0] == ExchangeCode(code)
    ensures e.result == Err(CodeExchangeFailed) <==> code !in google.tokens
    ensures code in google.tokens ==> |e.steps| >= 2 && e.steps[1] == FetchUserinfo(google.tokens[code])
    ensures e.result == Err(UserinfoFailed) <==> code in google.tokens && google.tokens[code] !in google.userinfo
    // a missing email stops before any user lookup
    ensures e.result == Err(NoEmailFromGoogle) <==>
              code in google.tokens && google.tokens[code] in google.userinfo && Falsy(google.userinfo[google.tokens[code]])
    ensures |e.steps| == 3 <==> e.result.Ok? || e.result == Err(UserNotFound)
    // the lookup uses exactly the returned email
    ensures |e.steps| == 3 ==>
              code in google.tokens && google.tokens[code] in google.userinfo &&
              google.userinfo[google.tokens[code]].Some? &&
              e.steps[2] == FindUser(google.userinfo[google.tokens[code]].value)
    ensures |e.steps| == 3 ==>
              (e.result == Err(UserNotFound) <==> forall u :: u in users ==> u.email != e.steps[2].email)
    ensures e.result.Ok? ==>
              exists u :: u in users && u.email == e.steps[2].email && e.result.value == jwt.sign(u.id)
  {
    var exchange := [ExchangeCode(code)];
    if code !in google.tokens then Execution(exchange, Err(CodeExchangeFailed))
    else
      var accessToken := google.tokens[code];
      var fetched := exchange + [FetchUserinfo(accessToken)];
      if accessToken !in google.userinfo then Execution(fetched, Err(UserinfoFailed))
      else
        var userEmail := google.userinfo[accessToken];
        if Falsy(userEmail) then Execution(fetched, Err(NoEmailFromGoogle))
        else
          var steps := fetched + [FindUser(userEmail.value)];
          match FindUserByEmail(users, userEmail.value)
          case None => Execution(steps, Err(UserNotFound))
          case Some(user) => Execution(steps, Ok(jwt.sign(user.id)))
  }

  /** A token issued by the callback verifies to the user found by the Google email. */
  lemma IssuedTokenVerifies(code: string, google: GoogleOAuth, users: seq<User>, jwt: JwtService)
    requires SignsVerifiably(jwt)
    requires Execute(code, google, users, jwt).result.Ok?
    ensures exists u :: u in users &&
              Verify(jwt, Execute(code, google, users, jwt).result.value) == Ok(Claims(Some(u.id))) &&
              u.email == google.userinfo[google.tokens[code]].value
  {
    var e := Execute(code, google, users, jwt);
    var u :| u in users && u.email == e.steps[2].email && e.result.value == jwt.sign(u.id);
    VerifySigned(jwt, u.id);
  }
}
