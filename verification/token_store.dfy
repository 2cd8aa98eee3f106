/**
 * The local token cache (save-token.ts and get-token.ts): one file named
 * `auth-token` under a platform-dependent configuration directory of the
 * user's home. The file system is a map from file paths to contents plus the
 * set of existing directories; a path is the list of its segments, so that
 * `path.join` is concatenation.
 */
module TokenStore {
  import opened Wrappers

  type Path = seq<string>

  /** The value of `process.platform` as far as the lookup table distinguishes it. */
  datatype Platform = Win32 | Darwin | OtherPlatform

  /** What `os.homedir()` and `process.platform` report. */
  datatype Env = Env(home: Path, platform: Platform)

  const AppDirName := "rael-cli"
  const TokenFileName := "auth-token"

  /** `getConfigDir`: the platform's per-user configuration directory for the CLI. */
  function ConfigDir(env: Env): (dir: Path)
    ensures |dir| > |env.home| && dir[..|env.home|] == env.home
    ensures dir[|dir| - 1] == AppDirName
    ensures env.platform == Win32 ==> dir[|env.home|..] == ["AppData", "Local", AppDirName]
    ensures env.platform == Darwin ==> dir[|env.home|..] == ["Library", "Application Support", AppDirName]
    ensures env.platform == OtherPlatform ==> dir[|env.home|..] == [".config", AppDirName]
  {
    match env.platform
    case Win32 => env.home + ["AppData", "Local", AppDirName]
    case Darwin => env.home + ["Library", "Application Support", AppDirName]
    case OtherPlatform => env.home + [".config", AppDirName]
  }

  /** The path `getTokenPath` returns. */
  function TokenPath(env: Env): (p: Path)
    ensures |p| > 0 && p[..|p| - 1] == ConfigDir(env) && p[|p| - 1] == TokenFileName
  {
    ConfigDir(env) + [TokenFileName]
  }

  /** The directories `mkdirSync(dir, { recursive: true })` makes sure exist: `dir` and all its ancestors. */
  function Ancestors(dir: Path): set<Path> {
    set i | 1 <= i <= |dir| :: dir[..i]
  }

  /** The directory set after `getTokenPath`: the config directory is created, recursively, only when nothing exists there. */
  function EnsureConfigDir(files: map<Path, string>, dirs: set<Path>, env: Env): (dirs': set<Path>)
    ensures dirs <= dirs'
    ensures ConfigDir(env) in files || ConfigDir(env) in dirs'
    ensures (ConfigDir(env) in files || ConfigDir(env) in dirs) ==> dirs' == dirs
    ensures forall d :: d in dirs' - dirs ==> 0 < |d| <= |ConfigDir(env)| && d == ConfigDir(env)[..|d|]
  {
    var dir := ConfigDir(env);
    if dir in files || dir in dirs then dirs
    else
      assert dir == dir[..|dir|];
      dirs + Ancestors(dir)
  }

  /** What `getToken` returns on a given file system: the file's text, or `null` when it does not exist. */
  function LoadToken(files: map<Path, string>, env: Env): Option<string> {
    if TokenPath(env) in files then Some(files[TokenPath(env)]) else None
  }

  /** Creating the config directory is idempotent: a second `getTokenPath` creates nothing. */
  lemma EnsureConfigDirIdempotent(files: map<Path, string>, dirs: set<Path>, env: Env)
    ensures EnsureConfigDir(files, EnsureConfigDir(files, dirs, env), env) == EnsureConfigDir(files, dirs, env)
  {
  }

  /** Save then load gives back the saved token, whatever was stored before. */
  lemma SaveLoadRoundTrip(files: map<Path, string>, env: Env, token: string)
    ensures LoadToken(files[TokenPath(env) := token], env) == Some(token)
  {
  }

  /** The local disk, the one piece of global state the token store changes. */
  class FileSystem {
    var files: map<Path, string>
    var dirs: set<Path>

    constructor (files: map<Path, string>, dirs: set<Path>)
      ensures this.files == files && this.dirs == dirs
    {
      this.files := files;
      this.dirs := dirs;
    }

    /** `existsSync`: a file or a directory is there. */
    predicate Exists(p: Path)
      reads this
    {
      p in files || p in dirs
    }
  }

  /** `getTokenPath`: creates the config directory when absent and returns the token file's path. */
  method GetTokenPath(fs: FileSystem, env: Env) returns (path: Path)
    modifies fs
    ensures path == TokenPath(env)
    ensures fs.files == old(fs.files)
    ensures fs.dirs == EnsureConfigDir(old(fs.files), old(fs.dirs), env)
  {
    var configDir := ConfigDir(env);
    if !fs.Exists(configDir) {
      fs.dirs := fs.dirs + Ancestors(configDir);
    }
    path := configDir + [TokenFileName];
  }

  /** `saveToken`: overwrites the token file with exactly `token` and writes no other file. */
  method SaveToken(fs: FileSystem, env: Env, token: string)
    modifies fs
    ensures fs.files == old(fs.files)[TokenPath(env) := token]
    ensures fs.dirs == EnsureConfigDir(old(fs.files), old(fs.dirs), env)
  {
    var tokenPath := GetTokenPath(fs, env);
    fs.files := fs.files[tokenPath := token];
  }

  /** `getToken`: the stored token, or `None` when the file does not exist; it never writes a file. */
  method GetToken(fs: FileSystem, env: Env) returns (token: Option<string>)
    modifies fs
    ensures token == LoadToken(old(fs.files), env)
    ensures fs.files == old(fs.files)
    ensures fs.dirs == EnsureConfigDir(old(fs.files), old(fs.dirs), env)
  {
    var tokenPath := GetTokenPath(fs, env);
    if tokenPath !in fs.files {
      return None;
    }
    token := Some(fs.files[tokenPath]);
  }

  /** The round trip on the file system itself: `getToken()` after `saveToken(t)` returns `t`. */
  method SaveThenGet(fs: FileSystem, env: Env, t: string) returns (loaded: Option<string>)
    modifies fs
    ensures loaded == Some(t)
    ensures fs.files == old(fs.files)[TokenPath(env) := t]
    ensures fs.dirs == EnsureConfigDir(old(fs.files), old(fs.dirs), env)
  {
    SaveToken(fs, env, t);
    loaded := GetToken(fs, env);
  }
}
