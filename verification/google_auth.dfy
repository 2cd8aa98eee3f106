/**
 * `auth:google` (auth-google.command.ts): open the browser on Google's consent
 * page, then serve the OAuth callback on a local HTTP listener until the first
 * request that carries a code closes it. The browser, the listener and the
 * signal handlers are reduced to the events they cause, recorded in order.
 */
module GoogleLogin {
  import opened Wrappers
  import opened Text
  import opened TokenStore
  import opened Identity
  import opened GoogleCallback

  const ServerPort := 8080
  const CallbackRoute := "/api/auth/google/callback"

  const NoCodePage := "No code found in the request."
  const SuccessPage := "<html><body>Authentication successful! You can now return to the CLI.</body></html>"
  const FailurePage := "<html><body>Authentication failed. Please try again.</body></html>"

  datatype Event =
    | BrowserOpenAttempted(url: string)
    | ManualUrlShown(url: string)          // "Failed to open browser. Please manually visit:"
    | Listening(port: nat, route: string)
    | CloseRequested                       // `server.close(...)`
    | Exited(code: int)

  datatype Response = Response(status: nat, body: string)

  datatype Signal = SigInt | SigTerm

  class GoogleAuthCommand {
    /** Whether `this.server` holds the listener (set once by `setupGracefulShutdown`, never cleared). */
    var serverStored: bool
    /** Whether the listener accepts requests. */
    var listening: bool
    /** Whether the SIGINT and SIGTERM handlers are registered. */
    var handlersInstalled: bool
    var events: seq<Event>

    ghost predicate Valid()
      reads this
    {
      (listening ==> serverStored) && (serverStored <==> handlersInstalled)
    }

    constructor ()
      ensures Valid()
      ensures !serverStored && !listening && !handlersInstalled && events == []
    {
      serverStored := false;
      listening := false;
      handlersInstalled := false;
      events := [];
    }

    /** `run`: the open attempt, whose failure only prints the URL, and only then the listener. */
    method Run(authUrl: string, browserOpens: bool)
      requires Valid()
      modifies this
      ensures Valid()
      ensures serverStored && listening && handlersInstalled
      ensures events == old(events) + [BrowserOpenAttempted(authUrl)] +
                (if browserOpens then [] else [ManualUrlShown(authUrl)]) +
                [Listening(ServerPort, CallbackRoute)]
    {
      OpenBrowser(authUrl, browserOpens);
      StartCallbackServer();
    }

    /** `openBrowser`: a failure is reported with the URL and swallowed. */
    method OpenBrowser(authUrl: string, browserOpens: bool)
      modifies this`events
      ensures events == old(events) + [BrowserOpenAttempted(authUrl)] +
                (if browserOpens then [] else [ManualUrlShown(authUrl)])
    {
      events := events + [BrowserOpenAttempted(authUrl)];
      if !browserOpens {
        events := events + [ManualUrlShown(authUrl)];
      }
    }

    /** `startCallbackServer` followed by `setupGracefulShutdown`. */
    method StartCallbackServer()
      requires Valid()
      modifies this
      ensures Valid()
      ensures serverStored && listening && handlersInstalled
      ensures events == old(events) + [Listening(ServerPort, CallbackRoute)]
    {
      events := events + [Listening(ServerPort, CallbackRoute)];
      listening := true;
      serverStored := true;
      handlersInstalled := true;
    }

    /** `closeServer`: a no-op until a server is stored; every call after that asks it to close again. */
    method CloseServer()
      requires Valid()
      modifies this`listening, this`events
      ensures Valid()
      ensures serverStored ==> !listening && events == old(events) + [CloseRequested]
      ensures !serverStored ==> listening == old(listening) && events == old(events)
    {
      if serverStored {
        events := events + [CloseRequested];
        listening := false;
      }
    }

    /**
     * `handleCallback` for a GET on the callback route: no code answers 400 and
     * leaves the server up; otherwise `execute` runs, a token is saved only on
     * success, and the server is closed whatever the outcome.
     */
    method HandleCallback(code: Option<string>, fs: FileSystem, env: Env, google: GoogleOAuth, users: seq<User>, jwt: JwtService)
      returns (response: Response)
      requires Valid()
      modifies this`listening, this`events, fs
      ensures Valid()
      ensures Falsy(code) ==>
                response == Response(400, NoCodePage) &&
                fs.files == old(fs.files) && fs.dirs == old(fs.dirs) &&
                listening == old(listening) && events == old(events)
      ensures !Falsy(code) ==>
                (serverStored ==> !listening && events == old(events) + [CloseRequested]) &&
                (!serverStored ==> listening == old(listening) && events == old(events))
      ensures !Falsy(code) && Execute(code.value, google, users, jwt).result.Ok? ==>
                response == Response(200, SuccessPage) &&
                fs.files == old(fs.files)[TokenPath(env) := Execute(code.value, google, users, jwt).result.value] &&
                fs.dirs == EnsureConfigDir(old(fs.files), old(fs.dirs), env)
      ensures !Falsy(code) && Execute(code.value, google, users, jwt).result.Err? ==>
                response == Response(500, FailurePage) &&
                fs.files == old(fs.files) && fs.dirs == old(fs.dirs)
    {
      if Falsy(code) {
        return Response(400, NoCodePage);
      }
      var execution := Execute(code.value, google, users, jwt);
      match execution.result {
        case Ok(token) =>
          SaveToken(fs, env, token);
          response := Response(200, SuccessPage);
        case Err(_) =>
          response := Response(500, FailurePage);
      }
      CloseServer();
    }

    /** The SIGINT and SIGTERM handlers: close the server, then exit with status 0. */
    method OnSignal(signal: Signal)
      requires Valid() && handlersInstalled
      modifies this`listening, this`events
      ensures Valid()
      ensures !listening
      ensures events == old(events) + [CloseRequested, Exited(0)]
    {
      CloseServer();
      events := events + [Exited(0)];
    }
  }

  /**
   * A login session: `run` with the browser failing to open, a stray request
   * without a code, then the real callback. The stray request leaves the server
   * up; the callback saves the token the Google flow issued and closes it.
   */
  method LoginSession(fs: FileSystem, env: Env, authUrl: string, code: string, google: GoogleOAuth, users: seq<User>, jwt: JwtService,
                      token: string)
    returns (first: Response, second: Response, command: GoogleAuthCommand)
    requires code != "" && Execute(code, google, users, jwt).result == Ok(token)
    modifies fs
    ensures first.status == 400 && second.status == 200
    ensures !command.listening
    ensures command.events ==
              [BrowserOpenAttempted(authUrl), ManualUrlShown(authUrl), Listening(ServerPort, CallbackRoute)] + [CloseRequested]
    ensures LoadToken(fs.files, env) == Some(token)
  {
    command, first := OpenAndStray(fs, env, authUrl, google, users, jwt);
    ghost var files := fs.files;
    second := command.HandleCallback(Some(code), fs, env, google, users, jwt);
    SaveLoadRoundTrip(files, env, token);
  }

  /** The first part of the session: `run` with the browser failing, then a request without a code. */
  method OpenAndStray(fs: FileSystem, env: Env, authUrl: string, google: GoogleOAuth, users: seq<User>, jwt: JwtService)
    returns (command: GoogleAuthCommand, first: Response)
    modifies fs
    ensures fresh(command) && command.Valid() && command.serverStored && command.listening
    ensures command.events == [BrowserOpenAttempted(authUrl), ManualUrlShown(authUrl), Listening(ServerPort, CallbackRoute)]
    ensures first.status == 400 && fs.files == old(fs.files) && fs.dirs == old(fs.dirs)
  {
    command := new GoogleAuthCommand();
    command.Run(authUrl, false);
    first := command.HandleCallback(None, fs, env, google, users, jwt);
  }
}
