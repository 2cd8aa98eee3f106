/**
 * `auth:credential` (auth-credential.command.ts): email and password from the
 * command line, the user looked up by email, and on success a token for
 * `{ userId }` written to the token file.
 *
 * The bcrypt comparison is an oracle `matches(password, hash)`. The command
 * does not await it, so the value it tests is a pending promise, which is
 * always truthy: `LoginAsWritten` is the chain as written, `Login` the chain
 * with the comparison awaited.
 */
module CredentialLogin {
  import opened Wrappers
  import opened TokenStore
  import opened Identity

  datatype LoginOutcome =
    | MissingCredentials          // "Email and password are required"
    | InvalidEmailOrPassword      // the same message for an unknown email and a wrong password
    | LoggedIn(token: string)

  /** `await compare(password, hash)` */
  type PasswordCheck = (string, string) -> bool

  /** The decision chain with the comparison awaited. */
  function Login(email: string, password: string, users: seq<User>, jwt: JwtService, matches: PasswordCheck): (r: LoginOutcome)
    ensures r == MissingCredentials <==> email == "" || password == ""
    ensures r.LoggedIn? <==>
              email != "" && password != "" && FindUserByEmail(users, email).Some? &&
              matches(password, FindUserByEmail(users, email).value.password)
    ensures r.LoggedIn? ==> exists u :: u in users && u.email == email && r.token == jwt.sign(u.id)
  {
    if email == "" || password == "" then MissingCredentials
    else match FindUserByEmail(users, email)
      case None => InvalidEmailOrPassword
      case Some(user) =>
        if !matches(password, user.password) then InvalidEmailOrPassword
        else LoggedIn(jwt.sign(user.id))
  }

  /** The decision chain as written: the un-awaited comparison always passes. */
  function LoginAsWritten(email: string, password: string, users: seq<User>, jwt: JwtService): (r: LoginOutcome)
    ensures r == MissingCredentials <==> email == "" || password == ""
    ensures r.LoggedIn? <==> email != "" && password != "" && FindUserByEmail(users, email).Some?
    ensures r.LoggedIn? ==> exists u :: u in users && u.email == email && r.token == jwt.sign(u.id)
  {
    Login(email, password, users, jwt, (_, _) => true)
  }

  /** As written, the outcome does not depend on which non-empty password was given. */
  lemma AnyPasswordAccepted(email: string, p1: string, p2: string, users: seq<User>, jwt: JwtService)
    requires p1 != "" && p2 != ""
    ensures LoginAsWritten(email, p1, users, jwt) == LoginAsWritten(email, p2, users, jwt)
  {
  }

  /** A known email with a password the hash rejects: logged in as written, refused once the comparison is awaited. */
  lemma WrongPasswordLogsIn(jwt: JwtService)
    ensures LoginAsWritten("ana@example.com", "wrong", [User("1", "ana@example.com", "ana", "$2a$10$hash")], jwt)
              == LoggedIn(jwt.sign("1"))
    ensures Login("ana@example.com", "wrong", [User("1", "ana@example.com", "ana", "$2a$10$hash")], jwt,
                  (p, h) => p == "right" && h == "$2a$10$hash")
              == InvalidEmailOrPassword
  {
    var users := [User("1", "ana@example.com", "ana", "$2a$10$hash")];
    assert FindUserByEmail(users, "ana@example.com") == Some(users[0]);
  }

  /** The two chains agree whenever the password does match. */
  lemma AgreeOnMatchingPassword(email: string, password: string, users: seq<User>, jwt: JwtService, matches: PasswordCheck)
    requires FindUserByEmail(users, email).Some? ==> matches(password, FindUserByEmail(users, email).value.password)
    ensures Login(email, password, users, jwt, matches) == LoginAsWritten(email, password, users, jwt)
  {
  }

  class AuthCredentialCommand {
    /** The `--email` and `--password` options; "" when not given. */
    var email: string
    var password: string

    constructor ()
      ensures email == "" && password == ""
    {
      email := "";
      password := "";
    }

    method SetEmail(e: string)
      modifies this`email
      ensures email == e
    {
      email := e;
    }

    method SetPassword(p: string)
      modifies this`password
      ensures password == p
    {
      password := p;
    }

    /** `run`: decides as written and, on success, saves the token over any earlier one. */
    method Run(fs: FileSystem, env: Env, users: seq<User>, jwt: JwtService) returns (out: LoginOutcome)
      modifies fs
      ensures out == LoginAsWritten(email, password, users, jwt)
      ensures out.LoggedIn? ==> fs.files == old(fs.files)[TokenPath(env) := out.token]
      ensures out.LoggedIn? ==> fs.dirs == EnsureConfigDir(old(fs.files), old(fs.dirs), env)
      ensures !out.LoggedIn? ==> fs.files == old(fs.files) && fs.dirs == old(fs.dirs)
    {
      if email == "" || password == "" {
        return MissingCredentials;
      }
      var user := FindUserByEmail(users, email);
      if user.None? {
        return InvalidEmailOrPassword;
      }
      // the un-awaited promise is truthy
      var isMatch := true;
      if !isMatch {
        return InvalidEmailOrPassword;
      }
      var token := jwt.sign(user.value.id);
      SaveToken(fs, env, token);
      out := LoggedIn(token);
    }
  }
}
