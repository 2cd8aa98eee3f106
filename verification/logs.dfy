/**
 * `log` (logs.command.ts): run `git log --pretty=format:"%h - %an, %ar : %s"`
 * and show each line as a commit with its hash, author, date and message.
 *
 * Lines are taken apart with `split(' - ')`, `split(' : ')` and `split(',')`
 * exactly as the command does; a line whose author-and-date part has no comma
 * makes `split(',')[1]` undefined, so the `.trim()` on line 76 throws after the
 * hash and the author were printed, and `run`'s catch reports the failure.
 */
module Logs {
  import opened Wrappers
  import opened Text
  import opened Git

  /** What one displayed commit shows; `message` is `None` where the template prints "undefined". */
  datatype LogEntry = LogEntry(hash: string, author: string, date: string, message: Option<string>)

  /** What is printed for the line that throws: its hash and author lines. */
  datatype PartialEntry = PartialEntry(hash: string, author: string)

  datatype LineResult =
    | Skipped                       // no hash or nothing after " - "
    | Shown(entry: LogEntry)
    | Aborted(partial: PartialEntry)  // `.trim()` of an undefined date throws

  /** The commits shown, in order, and, when a line threw, what was printed for it before the failure report. */
  datatype Display = Display(entries: seq<LogEntry>, abort: Option<PartialEntry>)

  datatype LogOutcome =
    | NotARepository          // "Not a Git repository..."
    | NoCommits               // "No commits found in the repository."
    | Displayed(display: Display)

  /**
   * This command's own `executeCommand`: the trimmed output of a command whose
   * output is piped, `undefined` otherwise; a failure is swallowed as `undefined`.
   */
  function Captured(s: GitState, f: map<Cmd, string>, c: Cmd, returnOutput: bool): (r: Option<string>)
    ensures r.Some? <==> returnOutput && Raw(s, f, c).Ok?
    ensures r.Some? ==> Trimmed(r.value) && r.value == ExecResult(s, f, c, true).value
  {
    match Raw(s, f, c)
    case Ok(out) => if returnOutput then Some(Trim(out)) else None
    case Err(_) => None
  }

  /** `const [hash, rest] = log.split(' - ')` and the `!hash || !rest` guard; a line that passes is shown by `ShowRest`. */
  function ParseLine(line: string): (r: LineResult)
    ensures !Contains(line, " - ") ==> r.Skipped?
    ensures r.Shown? ==> r.entry.hash != "" && !Contains(r.entry.hash, " - ")
    ensures r.Aborted? ==> r.partial.hash != "" && !Contains(r.partial.hash, " - ")
  {
    var parts := Split(line, " - ");
    if |parts| < 2 then
      assert parts == [line] by { SplitNone(line, " - "); }
      Skipped
    else if parts[0] == "" || parts[1] == "" then Skipped
    else ShowRest(parts[0], parts[1])
  }

  /**
   * The four lines printed for a commit: `rest.split(' : ')` gives the
   * author-and-date part and the message, `split(',')` of the former the
   * author and the date, which is trimmed; without a comma the date is undefined.
   */
  function ShowRest(hash: string, rest: string): (r: LineResult)
    ensures !r.Skipped?
    ensures r.Shown? ==> r.entry.hash == hash && ',' !in r.entry.author &&
                         !Contains(r.entry.author, " : ") && Trimmed(r.entry.date)
    ensures r.Aborted? ==> r.partial.hash == hash && ',' !in r.partial.author
  {
    var fields := Split(rest, " : ");
    var message := if |fields| >= 2 then Some(fields[1]) else None;
    var authorAndDate := fields[0];
    var commaParts := Split(authorAndDate, ",");
    ContainsChar(commaParts[0], ',');
    NoSeparatorInPiece(authorAndDate, ",", " : ");
    if |commaParts| < 2 then Aborted(PartialEntry(hash, commaParts[0]))
    else Shown(LogEntry(hash, commaParts[0], Trim(commaParts[1]), message))
  }

  /** A piece of a split is a slice of the whole, so what the whole does not contain, neither does the first piece. */
  lemma NoSeparatorInPiece(s: string, sep: string, pat: string)
    requires sep != [] && pat != [] && !Contains(s, pat)
    ensures !Contains(Split(s, sep)[0], pat)
  {
    var parts := Split(s, sep);
    if |parts| >= 2 {
      assert s == parts[0] + sep + Join(parts[1..], sep);
    }
    forall j | OccursAt(parts[0], pat, j) ensures false {
      assert s[..|parts[0]|] == parts[0];
      assert s[j..j + |pat|] == parts[0][j..j + |pat|];
      assert OccursAt(s, pat, j);
    }
  }

  /** What each line of the output comes to, in order. */
  function ParsedLines(lines: seq<string>): (rs: seq<LineResult>)
    ensures |rs| == |lines|
    ensures forall k :: 0 <= k < |lines| ==> rs[k] == ParseLine(lines[k])
  {
    if lines == [] then [] else [ParseLine(lines[0])] + ParsedLines(lines[1..])
  }

  /** `logs.forEach`: the lines' results in order; once a line has thrown, nothing after it is shown. */
  function ShownResults(rs: seq<LineResult>): (d: Display)
    ensures |d.entries| <= |rs|
    decreases |rs|
  {
    if rs == [] then Display([], None)
    else
      var n := |rs| - 1;
      var earlier := ShownResults(rs[..n]);
      if earlier.abort.Some? then earlier
      else match rs[n]
        case Skipped => earlier
        case Shown(e) => Display(earlier.entries + [e], None)
        case Aborted(p) => Display(earlier.entries, Some(p))
  }

  /** What `formatAndDisplayLog` shows for the whole output. */
  function DisplayOf(logOutput: string): Display {
    ShownResults(ParsedLines(Split(logOutput, "\n")))
  }

  /** `run` as written: `isGitRepository` always answers true, so `git log` always runs. */
  function RunOf(s: GitState, f: map<Cmd, string>, log: seq<Cmd>): (p: Step<LogOutcome>)
    ensures p.state == s && p.ran == log + [RevParse] + [Log]
    ensures p.result != NotARepository
    // no commits: `git log` failed or printed nothing but whitespace
    ensures p.result == NoCommits <==> Raw(s, f, Log).Err? || AllWhitespace(Raw(s, f, Log).value)
    ensures p.result.Displayed? ==>
              p.result.display == DisplayOf(Trim(Raw(s, f, Log).value))
  {
    var output := Captured(s, f, Log, true);
    // `!logOutput`: undefined or empty
    if output.None? then Step(NoCommits, log + [RevParse] + [Log], s)
    else
      BlankIffTrimmedEmpty(Raw(s, f, Log).value);
      if output.value == "" then Step(NoCommits, log + [RevParse] + [Log], s)
      else Step(Displayed(DisplayOf(output.value)), log + [RevParse] + [Log], s)
  }

  /** `run` with a repository check that can fail: outside a repository nothing else runs. */
  function CorrectedRunOf(s: GitState, f: map<Cmd, string>, log: seq<Cmd>): (p: Step<LogOutcome>)
    ensures p.state == s
    ensures p.result == NotARepository <==> !RepoDetected(s, f)
    ensures p.result == NotARepository ==> p.ran == log + [RevParse]
    ensures p.result != NotARepository ==> p == RunOf(s, f, log)
  {
    if !RepoDetected(s, f) then Step(NotARepository, log + [RevParse], s) else RunOf(s, f, log)
  }

  class LogCommand {
    constructor () {}

    method Run(repo: Repo) returns (out: LogOutcome)
      modifies repo`state, repo`ran
      ensures var p := RunOf(old(repo.state), repo.faults, old(repo.ran));
              out == p.result && repo.state == p.state && repo.ran == p.ran
    {
      var isRepo := IsGitRepository(repo);
      if !isRepo {
        return NotARepository;
      }
      var logOutput := ExecuteCommand(repo, Log, true);
      if logOutput.None? || logOutput.value == "" {
        return NoCommits;
      }
      var shown := FormatAndDisplayLog(logOutput.value);
      out := Displayed(shown);
    }

    /** `isGitRepository`: the swallowing `executeCommand` never throws, so the answer is always true. */
    method IsGitRepository(repo: Repo) returns (b: bool)
      modifies repo`state, repo`ran
      ensures b
      ensures repo.state == old(repo.state) && repo.ran == old(repo.ran) + [RevParse]
    {
      var _ := ExecuteCommand(repo, RevParse, true);
      b := true;
    }

    method ExecuteCommand(repo: Repo, c: Cmd, returnOutput: bool) returns (output: Option<string>)
      modifies repo`state, repo`ran
      ensures output == Captured(old(repo.state), repo.faults, c, returnOutput)
      ensures repo.state == After(old(repo.state), repo.faults, c) && repo.ran == old(repo.ran) + [c]
    {
      var raw := repo.Exec(c);
      output := if raw.Ok? && returnOutput then Some(Trim(raw.value)) else None;
    }

    /**
     * `formatAndDisplayLog`. `split` always gives at least one piece, so the
     * `logs.length === 0` branch can never be taken and is not written here.
     */
    method FormatAndDisplayLog(logOutput: string) returns (d: Display)
      ensures d == DisplayOf(logOutput)
    {
      var logs := Split(logOutput, "\n");
      ghost var rs := ParsedLines(logs);
      var entries: seq<LogEntry> := [];
      var i := 0;
      while i < |logs|
        invariant 0 <= i <= |logs|
        invariant ShownResults(rs[..i]) == Display(entries, None)
      {
        ShownNext(rs, i);
        var line := ParseLine(logs[i]);
        if line.Aborted? {
          AbortPersists(rs, i + 1);
          return Display(entries, Some(line.partial));
        }
        if line.Shown? {
          entries := entries + [line.entry];
        }
        i := i + 1;
      }
      assert rs[..i] == rs;
      d := Display(entries, None);
    }
  }

  /** One more line, after lines that did not throw, is skipped, shown or the one that throws. */
  lemma ShownNext(rs: seq<LineResult>, i: nat)
    requires i < |rs| && ShownResults(rs[..i]).abort.None?
    ensures var before := ShownResults(rs[..i]).entries;
            ShownResults(rs[..i + 1]) ==
              match rs[i]
              case Skipped => Display(before, None)
              case Shown(e) => Display(before + [e], None)
              case Aborted(p) => Display(before, Some(p))
  {
    assert rs[..i + 1][..i] == rs[..i];
  }

  /** Once a prefix of the lines has thrown, the later lines change nothing. */
  lemma {:induction false} AbortPersists(rs: seq<LineResult>, n: nat)
    requires n <= |rs| && ShownResults(rs[..n]).abort.Some?
    ensures ShownResults(rs) == ShownResults(rs[..n])
    decreases |rs| - n
  {
    if n < |rs| {
      assert rs[..n + 1][..n] == rs[..n];
      AbortPersists(rs, n + 1);
    } else {
      assert rs[..n] == rs;
    }
  }

  /** When nothing was aborted, no line threw. */
  lemma {:induction false} NoAbortNoneThrew(rs: seq<LineResult>)
    requires ShownResults(rs).abort.None?
    ensures forall j :: 0 <= j < |rs| ==> !rs[j].Aborted?
  {
    if rs != [] {
      var n := |rs| - 1;
      NoAbortNoneThrew(rs[..n]);
      assert forall j :: 0 <= j < n ==> rs[..n][j] == rs[j];
    }
  }

  /** When every line is shown as an entry, the display is exactly those entries, in order. */
  lemma {:induction false} AllShown(rs: seq<LineResult>, es: seq<LogEntry>)
    requires |rs| == |es| && forall k :: 0 <= k < |rs| ==> rs[k] == Shown(es[k])
    ensures ShownResults(rs) == Display(es, None)
  {
    if rs != [] {
      var n := |rs| - 1;
      assert forall k :: 0 <= k < n ==> rs[..n][k] == rs[k] && es[..n][k] == es[k];
      AllShown(rs[..n], es[..n]);
      assert es == es[..n] + [es[n]];
    }
  }

  /** What `git log` prints after the hash and " - ". */
  function LogRest(e: LogRecord): string {
    e.author + ", " + e.relativeDate + " : " + e.subject
  }

  lemma LineShape(e: LogRecord)
    ensures FormatLogLine(e) == e.hash + " - " + LogRest(e)
  {
  }

  /** An abbreviated commit hash: lower-case hexadecimal digits. */
  predicate HexDigits(h: string) {
    forall i :: 0 <= i < |h| ==> ('0' <= h[i] <= '9') || ('a' <= h[i] <= 'f')
  }

  /**
   * A commit whose line the splits take apart at the intended places: no " - "
   * after the hash, no colon before the subject's " : ", no comma in the
   * author or the date, no " : " in the subject, and a date `trim` leaves alone.
   */
  predicate Unambiguous(e: LogRecord) {
    && e.hash != [] && HexDigits(e.hash)
    && !Contains(LogRest(e), " - ")
    && ':' !in e.author && ',' !in e.author && ':' !in e.relativeDate && ',' !in e.relativeDate
    && Trimmed(e.relativeDate)
    && !Contains(e.subject, " : ")
  }

  /** What the command shows for a commit. */
  function EntryOf(e: LogRecord): (entry: LogEntry)
    ensures entry.message.Some?
  {
    LogEntry(e.hash, e.author, e.relativeDate, Some(e.subject))
  }

  /** A line made of a hash without spaces, " - " and a rest without " - " is shown as that rest says. */
  lemma HashSplit(hash: string, rest: string)
    requires hash != [] && ' ' !in hash && rest != [] && !Contains(rest, " - ")
    ensures ParseLine(hash + " - " + rest) == ShowRest(hash, rest)
  {
    SeparatesCleanlyByFirst(hash, " - ");
    SplitCons(hash, " - ", rest);
    SplitNone(rest, " - ");
    assert Split(hash + " - " + rest, " - ") == [hash, rest];
  }

  /** The part after an unambiguous commit's hash gives back the commit's author, date and subject. */
  lemma RestFields(e: LogRecord)
    requires Unambiguous(e)
    ensures ShowRest(e.hash, LogRest(e)) == Shown(EntryOf(e))
  {
    var ad := e.author + ", " + e.relativeDate;
    SubjectSplit(ad, e.subject);
    AuthorDateSplit(e.author, e.relativeDate);
  }

  /** `split(' : ')` separates a colon-free author-and-date part from a subject without " : ". */
  lemma SubjectSplit(ad: string, subject: string)
    requires ':' !in ad && !Contains(subject, " : ")
    ensures Split(ad + " : " + subject, " : ") == [ad, subject]
  {
    SeparatesCleanlyByMiddle(ad, " : ");
    SplitCons(ad, " : ", subject);
    SplitNone(subject, " : ");
  }

  /** `split(',')` of "author, date" gives the author and the date with its leading space, which `trim` removes. */
  lemma AuthorDateSplit(author: string, date: string)
    requires ',' !in author && ',' !in date && Trimmed(date)
    ensures var parts := Split(author + ", " + date, ",");
            parts == [author, " " + date] && Trim(parts[1]) == date
  {
    var spaced := " " + date;
    assert author + ", " + date == author + "," + spaced;
    SeparatesCleanlyByFirst(author, ",");
    SplitCons(author, ",", spaced);
    ContainsChar(spaced, ',');
    SplitNone(spaced, ",");
    assert spaced == " " + date + [];
    TrimOf(" ", date, []);
  }

  /** The entries shown for a history, one per commit, in order. */
  function EntriesOf(h: seq<LogRecord>): (es: seq<LogEntry>)
    ensures |es| == |h| && forall k :: 0 <= k < |h| ==> es[k] == EntryOf(h[k])
  {
    if h == [] then [] else [EntryOf(h[0])] + EntriesOf(h[1..])
  }

  /** Round trip: the line `git log` prints for an unambiguous commit is shown with that commit's own fields. */
  lemma ParseRecordLine(e: LogRecord)
    requires Unambiguous(e)
    ensures ParseLine(FormatLogLine(e)) == Shown(EntryOf(e))
  {
    LineShape(e);
    assert ' ' !in e.hash;
    HashSplit(e.hash, LogRest(e));
    RestFields(e);
  }

  /** An unambiguous commit that also keeps its line on one line and its subject free of trailing blanks. */
  predicate Displayable(e: LogRecord) {
    && Unambiguous(e)
    && '\n' !in e.author && '\n' !in e.relativeDate && '\n' !in e.subject
    && e.subject != [] && !IsWhitespace(e.subject[|e.subject| - 1])
  }

  /** A displayable commit's line is one non-blank line that starts and ends with a visible character. */
  lemma DisplayableLine(e: LogRecord)
    requires Displayable(e)
    ensures var line := FormatLogLine(e);
            line != [] && '\n' !in line && !IsWhitespace(line[0]) && !IsWhitespace(line[|line| - 1])
  {
    var line := FormatLogLine(e);
    var rest := LogRest(e);
    LineShape(e);
    assert rest[|rest| - 1] == e.subject[|e.subject| - 1];
    assert line[|line| - 1] == rest[|rest| - 1];
    assert line[0] == e.hash[0];
    assert '\n' !in e.hash;
  }

  /**
   * In a repository where nothing fails, a history of displayable commits is
   * shown commit by commit, newest first, each with its own fields, and nothing throws.
   */
  lemma {:induction false} HistoryDisplayed(s: GitState, log: seq<Cmd>)
    requires s.insideWorkTree && s.history != []
    requires forall k :: 0 <= k < |s.history| ==> Displayable(s.history[k])
    ensures RunOf(s, map[], log) ==
            Step(Displayed(Display(EntriesOf(s.history), None)), log + [RevParse] + [Log], s)
  {
    var out := Join(FormatLog(s.history), "\n");
    assert Raw(s, map[], Log) == Ok(out);
    OutputLines(s.history);
    OutputDisplayed(s, map[], log, out);
    HistoryShown(s.history);
  }

  /** Output that `trim` leaves alone and that is not blank is displayed as it is. */
  lemma OutputDisplayed(s: GitState, f: map<Cmd, string>, log: seq<Cmd>, out: string)
    requires Raw(s, f, Log) == Ok(out) && Trim(out) == out && out != [] && !IsWhitespace(out[0])
    ensures RunOf(s, f, log) == Step(Displayed(DisplayOf(out)), log + [RevParse] + [Log], s)
  {
    assert !AllWhitespace(out);
    var p := RunOf(s, f, log);
    assert p.result.Displayed? && p.result.display == DisplayOf(out);
  }

  /** The output of `git log` for displayable commits shows each of them, in order, and nothing throws. */
  lemma {:induction false} HistoryShown(h: seq<LogRecord>)
    requires h != [] && forall k :: 0 <= k < |h| ==> Displayable(h[k])
    ensures DisplayOf(Join(FormatLog(h), "\n")) == Display(EntriesOf(h), None)
  {
    OutputLines(h);
    var rs := ParsedLines(FormatLog(h));
    assert DisplayOf(Join(FormatLog(h), "\n")) == ShownResults(rs);
    var es := EntriesOf(h);
    forall k | 0 <= k < |h| ensures rs[k] == Shown(es[k]) {
      ParseRecordLine(h[k]);
    }
    AllShown(rs, es);
  }

  /** The output of `git log` for displayable commits is left alone by `trim` and splits back into their lines. */
  lemma {:induction false} OutputLines(h: seq<LogRecord>)
    requires h != [] && forall k :: 0 <= k < |h| ==> Displayable(h[k])
    ensures var out := Join(FormatLog(h), "\n");
            Trim(out) == out && out != [] && !IsWhitespace(out[0]) && Split(out, "\n") == FormatLog(h)
  {
    var lines := FormatLog(h);
    var out := Join(lines, "\n");
    forall k | 0 <= k < |lines| ensures lines[k] != [] && '\n' !in lines[k] {
      DisplayableLine(h[k]);
    }
    DisplayableLine(h[0]);
    DisplayableLine(h[|h| - 1]);
    JoinEnds(lines, "\n");
    TrimmedUnchanged(out);
    SplitJoin(lines, '\n');
  }

  /**
   * An author name with " - " in it cuts the line short: what follows the first
   * " - " has no comma, so reading the date throws after the hash and that part were printed.
   */
  lemma HyphenatedAuthorAborts(hash: string, w: string, more: string)
    requires hash != [] && ' ' !in hash
    requires w != [] && ' ' !in w && ',' !in w
    ensures ParseLine(hash + " - " + w + " - " + more) == Aborted(PartialEntry(hash, w))
  {
    assert hash + " - " + w + " - " + more == hash + " - " + (w + " - " + more);
    SeparatesCleanlyByFirst(hash, " - ");
    SplitCons(hash, " - ", w + " - " + more);
    SeparatesCleanlyByFirst(w, " - ");
    SplitCons(w, " - ", more);
    NoCommaAborts(hash, w);
  }

  /** A rest without " : " and without a comma has no date: the line throws after its hash and author were printed. */
  lemma NoCommaAborts(hash: string, rest: string)
    requires ' ' !in rest && ',' !in rest
    ensures ShowRest(hash, rest) == Aborted(PartialEntry(hash, rest))
  {
    assert !Contains(rest, " : ") by {
      ContainsChars(rest, " : ");
      assert " : "[0] == ' ';
    }
    SplitNone(rest, " : ");
    ContainsChar(rest, ',');
    SplitNone(rest, ",");
  }

  /** A repository without commits: `git log` fails, the failure is swallowed and reads as "no commits". */
  lemma EmptyHistoryNoCommits(s: GitState, f: map<Cmd, string>, log: seq<Cmd>)
    requires s.history == []
    ensures RunOf(s, f, log) == Step(NoCommits, log + [RevParse] + [Log], s)
  {
    assert Raw(s, f, Log).Err?;
  }

  /** Outside a repository the command never says so: it runs `git log` and reports "no commits". */
  lemma OutsideRepositoryReportsNoCommits(s: GitState, f: map<Cmd, string>, log: seq<Cmd>)
    requires !s.insideWorkTree
    ensures RunOf(s, f, log) == Step(NoCommits, log + [RevParse] + [Log], s)
  {
    assert Raw(s, f, Log).Err?;
  }

  /** With a repository check that can fail, outside a repository the command says so and runs nothing more. */
  lemma OutsideRepositoryReported(s: GitState, f: map<Cmd, string>, log: seq<Cmd>)
    requires !s.insideWorkTree
    ensures CorrectedRunOf(s, f, log) == Step(NotARepository, log + [RevParse], s)
  {
  }

  /** Inside a repository where nothing fails, the corrected command behaves exactly as the command as written. */
  lemma CorrectedAgreesInside(s: GitState, log: seq<Cmd>)
    requires s.insideWorkTree
    ensures CorrectedRunOf(s, map[], log) == RunOf(s, map[], log)
  {
    DetectedInside(s);
  }
}
