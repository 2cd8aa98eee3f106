/**
 * The JavaScript string operations the commands rely on: `trim`, `split` with a
 * string separator, `includes`, `slice(0, end)` and `padEnd` with spaces.
 * A string is a sequence of characters; each character stands for one UTF-16
 * code unit of the original.
 */
module Text {
  import opened Wrappers

  /** JavaScript truthiness of an optional string: `null`, `undefined` and `""` are falsy. */
  predicate Falsy(s: Option<string>) {
    s.None? || s.value == ""
  }

  /** The code points ECMAScript counts as WhiteSpace or LineTerminator, i.e. what `trim` removes. */
  predicate IsWhitespace(c: char) {
    || c == ' ' || c == '\t' || c == '\n' || c == '\r' || c == '\U{B}' || c == '\U{C}'
    || c == '\U{A0}' || c == '\U{1680}' || ('\U{2000}' <= c <= '\U{200A}')
    || c == '\U{2028}' || c == '\U{2029}' || c == '\U{202F}' || c == '\U{205F}'
    || c == '\U{3000}' || c == '\U{FEFF}'
  }

  /** The line terminators that a regular expression's `.` refuses to match. */
  predicate IsLineTerminator(c: char) {
    c == '\n' || c == '\r' || c == '\U{2028}' || c == '\U{2029}'
  }

  predicate AllWhitespace(s: string) {
    forall i :: 0 <= i < |s| ==> IsWhitespace(s[i])
  }

  /** Neither end of `s` is whitespace: the shape of every result of `trim`. */
  predicate Trimmed(s: string) {
    s == [] || (!IsWhitespace(s[0]) && !IsWhitespace(s[|s| - 1]))
  }

  /** `s.trimStart()`: drops the leading whitespace and nothing else. */
  function TrimStart(s: string): (r: string)
    ensures |r| <= |s| && s == s[..|s| - |r|] + r
    ensures AllWhitespace(s[..|s| - |r|])
    ensures r == [] || !IsWhitespace(r[0])
  {
    if s != [] && IsWhitespace(s[0]) then
      var r := TrimStart(s[1..]);
      assert s[..|s| - |r|] == [s[0]] + s[1..][..|s[1..]| - |r|];
      r
    else s
  }

  /** `s.trimEnd()`: drops the trailing whitespace and nothing else. */
  function TrimEnd(s: string): (r: string)
    ensures |r| <= |s| && s == r + s[|r|..]
    ensures AllWhitespace(s[|r|..])
    ensures r == [] || !IsWhitespace(r[|r| - 1])
  {
    if s != [] && IsWhitespace(s[|s| - 1]) then
      var r := TrimEnd(s[..|s| - 1]);
      assert s[|r|..] == s[..|s| - 1][|r|..] + [s[|s| - 1]];
      r
    else s
  }

  /** `s.trim()`: `r` has no whitespace at either end (`TrimSurrounds` says what was removed). */
  function Trim(s: string): (r: string)
    ensures Trimmed(r)
  {
    var t := TrimStart(s);
    var r := TrimEnd(t);
    assert Trimmed(r) by {
      if r != [] {
        assert r[0] == t[0];
      }
    }
    r
  }

  /** `s` is its trimmed self with whitespace around it. */
  lemma TrimSurrounds(s: string) returns (w1: string, w2: string)
    ensures AllWhitespace(w1) && AllWhitespace(w2) && s == w1 + (Trim(s) + w2)
  {
    var t := TrimStart(s);
    var r := TrimEnd(t);
    w1 := s[..|s| - |t|];
    w2 := t[|r|..];
  }

  /** `trim` leaves a string without whitespace at either end as it is. */
  lemma TrimmedUnchanged(s: string)
    requires Trimmed(s)
    ensures Trim(s) == s
  {
    assert [] + s + [] == s;
    TrimOf([], s, []);
  }

  /** `trim` leaves nothing exactly of a string made only of whitespace. */
  lemma BlankIffTrimmedEmpty(s: string)
    ensures Trim(s) == [] <==> AllWhitespace(s)
  {
    var w1, w2 := TrimSurrounds(s);
    if Trim(s) == [] {
      assert s == w1 + w2;
    }
    if AllWhitespace(s) {
      assert s == s + [] + [];
      TrimOf(s, [], []);
    }
  }

  /** The surrounding whitespace of a string is exactly what `trim` removes. */
  lemma {:induction false} TrimOf(w1: string, t: string, w2: string)
    requires AllWhitespace(w1) && AllWhitespace(w2) && Trimmed(t)
    ensures Trim(w1 + t + w2) == t
  {
    if t == [] {
      assert w1 + t + w2 == (w1 + w2) + [];
      TrimStartOf(w1 + w2, []);
      assert TrimEnd([]) == [];
    } else {
      assert w1 + t + w2 == w1 + (t + w2);
      TrimStartOf(w1, t + w2);
      TrimEndOf(t, w2);
    }
  }

  lemma {:induction false} TrimStartOf(w: string, u: string)
    requires AllWhitespace(w) && (u == [] || !IsWhitespace(u[0]))
    ensures TrimStart(w + u) == u
    decreases |w|
  {
    if w != [] {
      assert (w + u)[1..] == w[1..] + u;
      TrimStartOf(w[1..], u);
    } else {
      assert w + u == u;
    }
  }

  lemma {:induction false} TrimEndOf(u: string, w: string)
    requires AllWhitespace(w) && (u == [] || !IsWhitespace(u[|u| - 1]))
    ensures TrimEnd(u + w) == u
    decreases |w|
  {
    if w != [] {
      assert (u + w)[..|u + w| - 1] == u + w[..|w| - 1];
      TrimEndOf(u, w[..|w| - 1]);
    } else {
      assert u + w == u;
    }
  }

  /** Trimming twice is trimming once. */
  lemma TrimIdempotent(s: string)
    ensures Trim(Trim(s)) == Trim(s)
  {
    TrimOf([], Trim(s), []);
    assert [] + Trim(s) + [] == Trim(s);
  }

  /** A string that starts with a non-whitespace character does not trim to nothing. */
  lemma TrimNonBlank(s: string)
    requires s != [] && !IsWhitespace(s[0])
    ensures Trim(s) != []
  {
    var r := Trim(s);
    var w1, w2 := TrimSurrounds(s);
  }

  /** `pat` occurs in `s` starting at index `j`. */
  predicate OccursAt(s: string, pat: string, j: int) {
    0 <= j && j + |pat| <= |s| && s[j..j + |pat|] == pat
  }

  /** `s.includes(pat)`. */
  predicate Contains(s: string, pat: string) {
    exists j | 0 <= j <= |s| :: OccursAt(s, pat, j)
  }

  /** `s.indexOf(pat, from)`, with `None` for -1: the first occurrence at or after `from`. */
  function FindFrom(s: string, pat: string, from: nat): (r: Option<nat>)
    requires pat != []
    ensures r.Some? ==> from <= r.value && OccursAt(s, pat, r.value)
    ensures r.Some? ==> forall j :: from <= j < r.value ==> !OccursAt(s, pat, j)
    ensures r.None? ==> forall j :: from <= j ==> !OccursAt(s, pat, j)
    decreases |s| - from
  {
    if from + |pat| > |s| then None
    else if s[from..from + |pat|] == pat then Some(from)
    else FindFrom(s, pat, from + 1)
  }

  /** `s.indexOf(pat)`. */
  function Find(s: string, pat: string): (r: Option<nat>)
    requires pat != []
    ensures r.Some? <==> Contains(s, pat)
    ensures r.Some? ==> OccursAt(s, pat, r.value) && forall j :: 0 <= j < r.value ==> !OccursAt(s, pat, j)
  {
    FindFrom(s, pat, 0)
  }

  /** `parts.join(sep)`. */
  function Join(parts: seq<string>, sep: string): string {
    if |parts| == 0 then []
    else if |parts| == 1 then parts[0]
    else parts[0] + sep + Join(parts[1..], sep)
  }

  /**
   * `s.split(sep)` for a non-empty string separator: the pieces between the
   * leftmost non-overlapping occurrences of `sep`. There is always at least one
   * piece, no piece contains `sep`, joining the pieces gives `s` back, and the
   * first cut is made at the leftmost occurrence.
   */
  function Split(s: string, sep: string): (parts: seq<string>)
    requires sep != []
    ensures |parts| >= 1
    ensures forall k :: 0 <= k < |parts| ==> !Contains(parts[k], sep)
    ensures Join(parts, sep) == s
    // the first cut is at the leftmost occurrence, and there is none exactly when nothing is cut
    ensures |parts| == 1 <==> Find(s, sep).None?
    ensures |parts| >= 2 ==> Find(s, sep) == Some(|parts[0]|)
    decreases |s|
  {
    match Find(s, sep)
    case None => [s]
    case Some(i) =>
      var head, tail := s[..i], s[i + |sep|..];
      assert !Contains(head, sep) by {
        forall j | OccursAt(head, sep, j) ensures false {
          assert s[j..j + |sep|] == head[j..j + |sep|];
          assert OccursAt(s, sep, j);
        }
      }
      var rest := Split(tail, sep);
      assert s == head + sep + tail;
      [head] + rest
  }

  /**
   * No occurrence of `sep` starts inside `a` when `a` is followed by `sep`
   * (for a one-character separator: `a` does not contain it).
   */
  predicate SeparatesCleanly(a: string, sep: string) {
    forall j :: 0 <= j < |a| ==> !OccursAt(a + sep, sep, j)
  }

  /** Splitting a cleanly separated prefix off: `(a + sep + b).split(sep)` starts with `a`. */
  lemma SplitCons(a: string, sep: string, b: string)
    requires sep != [] && SeparatesCleanly(a, sep)
    ensures Split(a + sep + b, sep) == [a] + Split(b, sep)
  {
    var s := a + sep + b;
    assert OccursAt(s, sep, |a|) by { assert s[|a|..|a| + |sep|] == sep; }
    var i := Find(s, sep).value;
    if i < |a| {
      assert s[i..i + |sep|] == (a + sep)[i..i + |sep|];
      assert OccursAt(a + sep, sep, i);
      assert false;
    }
    assert i == |a|;
    assert s[..i] == a;
    assert s[i + |sep|..] == b;
  }

  /** A separator whose first character does not occur in `a` separates it cleanly. */
  lemma SeparatesCleanlyByFirst(a: string, sep: string)
    requires sep != [] && sep[0] !in a
    ensures SeparatesCleanly(a, sep)
  {
    forall j | 0 <= j < |a| ensures !OccursAt(a + sep, sep, j) {
      assert (a + sep)[j] == a[j] != sep[0];
    }
  }

  /** A separator like " : " whose second character differs from its first and does not occur in `a` separates it cleanly. */
  lemma SeparatesCleanlyByMiddle(a: string, sep: string)
    requires |sep| >= 2 && sep[1] != sep[0] && sep[1] !in a
    ensures SeparatesCleanly(a, sep)
  {
    forall j | 0 <= j < |a| ensures !OccursAt(a + sep, sep, j) {
      assert (a + sep)[j..j + |sep|][1] == (a + sep)[j + 1];
      if j + 1 < |a| {
        assert (a + sep)[j + 1] == a[j + 1];
      } else {
        assert (a + sep)[j + 1] == sep[0];
      }
    }
  }

  /** A one-character pattern occurs exactly where its character does. */
  lemma ContainsChar(s: string, c: char)
    ensures Contains(s, [c]) <==> c in s
  {
    if c in s {
      var j :| 0 <= j < |s| && s[j] == c;
      assert s[j..j + 1] == [c];
      assert OccursAt(s, [c], j);
    }
    if Contains(s, [c]) {
      var j :| 0 <= j <= |s| && OccursAt(s, [c], j);
      assert s[j] == s[j..j + 1][0];
    }
  }

  /** A string contains each of its infixes. */
  lemma ContainsInfix(a: string, b: string, c: string)
    ensures Contains(a + b + c, b)
  {
    assert (a + b + c)[|a|..|a| + |b|] == b;
    assert OccursAt(a + b + c, b, |a|);
  }

  /** Every character of a pattern that occurs in `s` is a character of `s`. */
  lemma ContainsChars(s: string, pat: string)
    ensures Contains(s, pat) ==> forall k :: 0 <= k < |pat| ==> pat[k] in s
  {
    if Contains(s, pat) {
      var j :| 0 <= j <= |s| && OccursAt(s, pat, j);
      forall k | 0 <= k < |pat|
        ensures pat[k] in s
      {
        assert pat[k] == s[j..j + |pat|][k] == s[j + k];
      }
    }
  }

  /** A string without the separator splits into itself alone. */
  lemma SplitNone(a: string, sep: string)
    requires sep != [] && !Contains(a, sep)
    ensures Split(a, sep) == [a]
  {
  }

  /** Joining pieces free of a one-character separator and splitting again gives the pieces back. */
  lemma {:induction false} SplitJoin(parts: seq<string>, c: char)
    requires |parts| >= 1 && forall k :: 0 <= k < |parts| ==> c !in parts[k]
    ensures Split(Join(parts, [c]), [c]) == parts
  {
    if |parts| == 1 {
      ContainsChar(parts[0], c);
      SplitNone(parts[0], [c]);
    } else {
      SeparatesCleanlyByFirst(parts[0], [c]);
      SplitCons(parts[0], [c], Join(parts[1..], [c]));
      SplitJoin(parts[1..], c);
      assert parts == [parts[0]] + parts[1..];
    }
  }

  /** A join of non-empty pieces starts with the first piece's first character and ends with the last piece's last one. */
  lemma {:induction false} JoinEnds(parts: seq<string>, sep: string)
    requires |parts| >= 1 && forall k :: 0 <= k < |parts| ==> parts[k] != []
    ensures |Join(parts, sep)| > 0
    ensures Join(parts, sep)[0] == parts[0][0]
    ensures Join(parts, sep)[|Join(parts, sep)| - 1] == parts[|parts| - 1][|parts[|parts| - 1]| - 1]
  {
    if |parts| > 1 {
      JoinEnds(parts[1..], sep);
      var rest := Join(parts[1..], sep);
      assert Join(parts, sep) == parts[0] + sep + rest;
    }
  }

  /** Something prepended to the first piece is prepended to the join. */
  lemma JoinPrepend(w: string, parts: seq<string>, sep: string)
    requires |parts| >= 1
    ensures Join([w + parts[0]] + parts[1..], sep) == w + Join(parts, sep)
  {
    var ps := [w + parts[0]] + parts[1..];
    assert ps[1..] == parts[1..];
  }

  /** `s.slice(0, end)`: a negative `end` counts from the end of the string, and both ends are clamped. */
  function SliceTo(s: string, end: int): (r: string)
    ensures |r| <= |s| && r == s[..|r|]
    ensures end >= 0 ==> |r| == if end <= |s| then end else |s|
    ensures end < 0 ==> |r| == if |s| + end >= 0 then |s| + end else 0
  {
    var stop := if end < 0 then (if |s| + end < 0 then 0 else |s| + end)
                else if end > |s| then |s| else end;
    s[..stop]
  }

  function Spaces(n: nat): (r: string)
    ensures |r| == n && forall i :: 0 <= i < n ==> r[i] == ' '
  {
    if n == 0 then [] else Spaces(n - 1) + [' ']
  }

  /** `s.padEnd(width)`: `s` followed by as many spaces as it takes to reach `width`. */
  function PadEnd(s: string, width: int): (r: string)
    ensures |r| == if |s| >= width then |s| else width
    ensures r[..|s|] == s
    ensures forall i :: |s| <= i < |r| ==> r[i] == ' '
  {
    if |s| >= width then s else s + Spaces(width - |s|)
  }
}
