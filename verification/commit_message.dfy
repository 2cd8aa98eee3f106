/**
 * `isValidCommitMessage` (commit.command.ts): the pattern
 * `^(feat|fix|docs|style|refactor|test|chore|build|ci|perf|revert)(\(\w+\))?: .+$`,
 * written out as predicates on the message, with no flags: `.` does not match
 * a line terminator and `$` matches only at the very end.
 */
module CommitMessage {
  import opened Text

  /** The types the message pattern accepts, case-sensitively. */
  const CommitTypes: seq<string> :=
    ["feat", "fix", "docs", "style", "refactor", "test", "chore", "build", "ci", "perf", "revert"]

  /** `\w`: an ASCII letter, a digit or `_`. */
  predicate IsWordChar(c: char) {
    ('a' <= c <= 'z') || ('A' <= c <= 'Z') || ('0' <= c <= '9') || c == '_'
  }

  /** The length of the longest run of word characters `s` starts with. */
  function WordPrefix(s: string): (n: nat)
    ensures n <= |s|
    ensures forall i :: 0 <= i < n ==> IsWordChar(s[i])
    ensures n == |s| || !IsWordChar(s[n])
  {
    if s != [] && IsWordChar(s[0]) then 1 + WordPrefix(s[1..]) else 0
  }

  /** `: .+$`: a colon, a space, then at least one character, none of them a line terminator. */
  predicate SubjectPart(s: string) {
    |s| >= 3 && s[0] == ':' && s[1] == ' ' && forall i :: 2 <= i < |s| ==> !IsLineTerminator(s[i])
  }

  /** What may follow the type: an optional `(\w+)` scope, then the subject part. */
  predicate AfterType(s: string) {
    if s != [] && s[0] == '(' then
      var n := WordPrefix(s[1..]);
      n > 0 && n + 1 < |s| && s[n + 1] == ')' && SubjectPart(s[n + 2..])
    else SubjectPart(s)
  }

  predicate StartsWith(m: string, t: string) {
    |t| <= |m| && m[..|t|] == t
  }

  /** The pattern with the type group `types`: some type starts the message and the remainder accepts the rest. */
  predicate MatchesWith(m: string, types: seq<string>) {
    exists t :: t in types && StartsWith(m, t) && AfterType(m[|t|..])
  }

  /** `isValidCommitMessage`: the pattern matched against the whole message. */
  predicate IsValidCommitMessage(m: string) {
    MatchesWith(m, CommitTypes)
  }

  /** A scope as the pattern allows it: none, or one or more word characters in parentheses. */
  predicate ValidScope(scope: string) {
    scope == [] ||
    (|scope| >= 3 && scope[0] == '(' && scope[|scope| - 1] == ')' &&
     forall i :: 1 <= i < |scope| - 1 ==> IsWordChar(scope[i]))
  }

  /** A subject as the pattern allows it: at least one character and no line terminator. */
  predicate ValidSubject(subject: string) {
    subject != [] && forall i :: 0 <= i < |subject| ==> !IsLineTerminator(subject[i])
  }

  /** The header shape `<type><scope>: <subject>`, for a type taken from `types`. */
  ghost predicate HeaderWith(m: string, types: seq<string>) {
    exists t, scope, subject ::
      t in types && ValidScope(scope) && ValidSubject(subject) && m == t + scope + ": " + subject
  }

  /** The header shape of a Conventional Commits message with one of the accepted types. */
  ghost predicate ConventionalHeader(m: string) {
    HeaderWith(m, CommitTypes)
  }

  /** A run of word characters ends where the first non-word character stands. */
  lemma {:induction false} WordPrefixOf(w: string, rest: string)
    requires forall i :: 0 <= i < |w| ==> IsWordChar(w[i])
    requires rest == [] || !IsWordChar(rest[0])
    ensures WordPrefix(w + rest) == |w|
  {
    if w != [] {
      assert (w + rest)[1..] == w[1..] + rest;
      WordPrefixOf(w[1..], rest);
    } else {
      assert w + rest == rest;
    }
  }

  /** What follows a type is accepted exactly when it is a valid scope, ": " and a valid subject. */
  lemma AfterTypeShape(s: string)
    ensures AfterType(s) <==> exists scope, subject :: ValidScope(scope) && ValidSubject(subject) && s == scope + ": " + subject
  {
    if AfterType(s) {
      if s != [] && s[0] == '(' {
        var n := WordPrefix(s[1..]);
        var scope, subject := s[..n + 2], s[n + 4..];
        assert s == scope + ": " + subject;
        assert ValidScope(scope) by {
          forall i | 1 <= i < |scope| - 1 ensures IsWordChar(scope[i]) {
            assert scope[i] == s[1..][i - 1];
          }
        }
        assert ValidSubject(subject) by {
          forall i | 0 <= i < |subject| ensures !IsLineTerminator(subject[i]) {
            assert subject[i] == s[n + 2..][i + 2];
          }
        }
      } else {
        assert s == [] + ": " + s[2..];
        assert ValidSubject(s[2..]) by {
          forall i | 0 <= i < |s[2..]| ensures !IsLineTerminator(s[2..][i]) {
            assert s[2..][i] == s[i + 2];
          }
        }
      }
    }
    if exists scope, subject :: ValidScope(scope) && ValidSubject(subject) && s == scope + ": " + subject {
      var scope, subject :| ValidScope(scope) && ValidSubject(subject) && s == scope + ": " + subject;
      ScopedSubjectAccepted(scope, subject);
    }
  }

  lemma ScopedSubjectAccepted(scope: string, subject: string)
    requires ValidScope(scope) && ValidSubject(subject)
    ensures AfterType(scope + ": " + subject)
  {
    var s := scope + ": " + subject;
    if scope == [] {
      assert s == ": " + subject;
      assert SubjectPart(s);
    } else {
      var w := scope[1..|scope| - 1];
      assert s[1..] == w + ([')'] + ": " + subject);
      WordPrefixOf(w, [')'] + ": " + subject);
      assert s[|w| + 2..] == ": " + subject;
    }
  }

  lemma HeaderOf(t: string, scope: string, subject: string, types: seq<string>)
    requires t in types && ValidScope(scope) && ValidSubject(subject)
    ensures HeaderWith(t + scope + ": " + subject, types)
  {
  }

  /** A type followed by an accepted rest gives the header shape. */
  lemma TypeThenHeader(m: string, t: string, types: seq<string>)
    requires t in types && StartsWith(m, t) && AfterType(m[|t|..])
    ensures HeaderWith(m, types)
  {
    var rest := m[|t|..];
    assert m == t + rest;
    AfterTypeShape(rest);
    var scope, subject :| ValidScope(scope) && ValidSubject(subject) && rest == scope + ": " + subject;
    assert t + rest == t + scope + ": " + subject;
    HeaderOf(t, scope, subject, types);
  }

  /** A type followed by an accepted rest is an accepted message. */
  lemma TypeThenRestAccepted(t: string, rest: string, types: seq<string>)
    requires t in types && AfterType(rest)
    ensures MatchesWith(t + rest, types)
  {
    var m := t + rest;
    assert m[..|t|] == t && m[|t|..] == rest;
  }

  /** For any type group, a message the pattern accepts has the header shape. */
  lemma MatchesGivesHeader(m: string, types: seq<string>)
    requires MatchesWith(m, types)
    ensures HeaderWith(m, types)
  {
    var t :| t in types && StartsWith(m, t) && AfterType(m[|t|..]);
    TypeThenHeader(m, t, types);
  }

  /** For any type group, a message with the header shape is accepted by the pattern. */
  lemma HeaderGivesMatch(m: string, types: seq<string>)
    requires HeaderWith(m, types)
    ensures MatchesWith(m, types)
  {
    var t, scope, subject :| t in types && ValidScope(scope) && ValidSubject(subject) && m == t + scope + ": " + subject;
    ScopedSubjectAccepted(scope, subject);
    assert m == t + (scope + ": " + subject);
    TypeThenRestAccepted(t, scope + ": " + subject, types);
  }

  /** The pattern test agrees with the header shape, in both directions. */
  lemma ValidIffConventional(m: string)
    ensures IsValidCommitMessage(m) <==> ConventionalHeader(m)
  {
    if IsValidCommitMessage(m) {
      MatchesGivesHeader(m, CommitTypes);
    }
    if ConventionalHeader(m) {
      HeaderGivesMatch(m, CommitTypes);
    }
  }

  /** Every type is at least two lower-case-led characters long. */
  lemma TypesLower()
    ensures forall t :: t in CommitTypes ==> |t| >= 2 && 'a' <= t[0] <= 'z'
  {
  }

  /** Only "feat" can start a message that starts with "feat". */
  lemma OnlyFeat(m: string)
    requires |m| >= 4 && m[..4] == "feat"
    ensures forall t :: t in CommitTypes && StartsWith(m, t) ==> t == "feat"
  {
    forall t | t in CommitTypes && StartsWith(m, t) ensures t == "feat" {
      assert m[..|t|] == t;
      assert m[0] == 'f' && m[1] == 'e';
    }
  }

  /** When only one type can start the message and what follows it is refused, the message is refused. */
  lemma OnlyTypeRefused(m: string, t0: string)
    requires StartsWith(m, t0) ==> !AfterType(m[|t0|..])
    requires forall t :: t in CommitTypes && StartsWith(m, t) ==> t == t0
    ensures !IsValidCommitMessage(m)
  {
  }

  /** A scoped message is accepted. */
  lemma AcceptsScoped(m: string)
    requires m == "feat(login): add x"
    ensures IsValidCommitMessage(m)
  {
    ScopedSubjectAccepted("(login)", "add x");
    assert m == "feat" + ("(login)" + ": " + "add x");
    TypeThenRestAccepted("feat", "(login)" + ": " + "add x", CommitTypes);
  }

  /** No type starts with anything but a lower-case letter, so neither can an accepted message. */
  lemma LowerCaseStart(m: string)
    requires m == [] || !('a' <= m[0] <= 'z')
    ensures !IsValidCommitMessage(m)
  {
    TypesLower();
    forall t | t in CommitTypes ensures !StartsWith(m, t) {
      if |t| <= |m| { assert m[..|t|][0] != t[0]; }
    }
  }

  /** The type is case-sensitive. */
  lemma RejectsCapitalType(m: string)
    requires m == "Feat: x"
    ensures !IsValidCommitMessage(m)
  {
    LowerCaseStart(m);
  }

  /** There is no `!` breaking-change marker. */
  lemma RejectsBang(m: string)
    requires m == "feat!: x"
    ensures !IsValidCommitMessage(m)
  {
    OnlyFeat(m);
    assert m[4..] == "!: x";
    OnlyTypeRefused(m, "feat");
  }

  /** An empty scope is refused. */
  lemma RejectsEmptyScope(m: string)
    requires m == "feat(): x"
    ensures !IsValidCommitMessage(m)
  {
    OnlyFeat(m);
    assert m[4..] == "(): x";
    assert WordPrefix("): x") == 0;
    OnlyTypeRefused(m, "feat");
  }

  /** The colon must be followed by a space. */
  lemma RejectsMissingSpace(m: string)
    requires m == "feat:x"
    ensures !IsValidCommitMessage(m)
  {
    OnlyFeat(m);
    assert m[4..] == ":x";
    OnlyTypeRefused(m, "feat");
  }
}
