/** The string operations of JavaScript that the application relies on:
    `toLowerCase`, `includes`, `split` with a non-empty separator, `join`,
    `trim`, and the decimal rendering of a number inside a template string. */
module Text {
  import opened Results

  // ---------------------------------------------------------------- characters

  /** ECMAScript WhiteSpace and LineTerminator code points: what `trim` strips. */
  predicate IsWhitespace(c: char) {
    c == '\t' || c == '\n' || c == '\U{000B}' || c == '\U{000C}' || c == '\r' ||
    c == ' ' || c == '\U{00A0}' || c == '\U{1680}' ||
    ('\U{2000}' <= c <= '\U{200A}') ||
    c == '\U{2028}' || c == '\U{2029}' || c == '\U{202F}' || c == '\U{205F}' ||
    c == '\U{3000}' || c == '\U{FEFF}'
  }

  predicate IsUpper(c: char) {
    ('A' <= c <= 'Z') || ('\U{0400}' <= c <= '\U{042F}')
  }

  /** `toLowerCase` on one character, for the Latin and Cyrillic capitals the
      application's users type (the basic Latin and the Cyrillic blocks). */
  function LowerChar(c: char): (r: char)
    ensures !IsUpper(r)
    ensures !IsUpper(c) ==> r == c
  {
    if 'A' <= c <= 'Z' then (c as int + 32) as char
    else if '\U{0410}' <= c <= '\U{042F}' then (c as int + 32) as char
    else if '\U{0400}' <= c <= '\U{040F}' then (c as int + 80) as char
    else c
  }

  /** `s.toLowerCase()`, character by character. */
  function Lower(s: string): (r: string)
    ensures |r| == |s|
    ensures forall i | 0 <= i < |s| :: r[i] == LowerChar(s[i])
  {
    seq(|s|, i requires 0 <= i < |s| => LowerChar(s[i]))
  }

  /** Lower-casing twice is lower-casing once. */
  lemma LowerIdempotent(s: string)
    ensures Lower(Lower(s)) == Lower(s)
  {
  }

  // ---------------------------------------------------------------- substrings

  /** `t` occurs in `s` starting at position `i`. */
  predicate OccursAt(s: string, t: string, i: int) {
    0 <= i && i + |t| <= |s| && s[i..i + |t|] == t
  }

  /** `s.includes(t)`. */
  predicate Contains(s: string, t: string) {
    exists i | 0 <= i <= |s| :: OccursAt(s, t, i)
  }

  /** Case-insensitive substring test, as both `toLowerCase().includes()` and
      the store's `ilike '%q%'` perform it. */
  predicate ContainsIgnoringCase(s: string, q: string) {
    Contains(Lower(s), Lower(q))
  }

  /** For a one-character needle, `includes` is plain membership. */
  lemma ContainsChar(s: string, c: char)
    ensures Contains(s, [c]) <==> c in s
  {
    if c in s {
      var i :| 0 <= i < |s| && s[i] == c;
      assert OccursAt(s, [c], i);
    }
    if Contains(s, [c]) {
      var i :| 0 <= i <= |s| && OccursAt(s, [c], i);
      assert s[i] == s[i..i + 1][0];
    }
  }

  /** A string that contains no `t` has no slice that contains `t`. */
  lemma ContainsInSlice(s: string, t: string, a: nat, b: nat)
    requires a <= b <= |s|
    requires Contains(s[a..b], t)
    ensures Contains(s, t)
  {
    var i :| 0 <= i <= |s[a..b]| && OccursAt(s[a..b], t, i);
    forall k | 0 <= k < |t| ensures s[a + i..a + i + |t|][k] == t[k] {
      assert s[a..b][i..i + |t|][k] == t[k];
    }
    assert OccursAt(s, t, a + i);
  }

  /** The first occurrence of the non-empty `t` in `s` at or after `k`. */
  function IndexOfFrom(s: string, t: string, k: nat): (r: Option<nat>)
    requires |t| > 0
    ensures r.Some? ==> k <= r.value && OccursAt(s, t, r.value)
    ensures r.Some? ==> forall j | k <= j < r.value :: !OccursAt(s, t, j)
    ensures r.None? ==> forall j | k <= j :: !OccursAt(s, t, j)
    decreases |s| - k
  {
    if k + |t| > |s| then None
    else if s[k..k + |t|] == t then Some(k)
    else IndexOfFrom(s, t, k + 1)
  }

  /** `s.indexOf(t)` for a non-empty `t`, with `None` for -1. */
  function IndexOf(s: string, t: string): (r: Option<nat>)
    requires |t| > 0
    ensures r.Some? ==> OccursAt(s, t, r.value) && forall j | 0 <= j < r.value :: !OccursAt(s, t, j)
    ensures r.None? <==> !Contains(s, t)
  {
    IndexOfFrom(s, t, 0)
  }

  // ------------------------------------------------------------ split and join

  /** `parts.join(sep)`. */
  function Join(parts: seq<string>, sep: string): string {
    if parts == [] then ""
    else if |parts| == 1 then parts[0]
    else parts[0] + sep + Join(parts[1..], sep)
  }

  /** `s.split(sep)` for a non-empty separator: the pieces between successive
      occurrences, searched left to right; always at least one piece, and
      joining the pieces with `sep` gives `s` back. */
  function Split(s: string, sep: string): (parts: seq<string>)
    requires |sep| > 0
    ensures |parts| >= 1
    ensures forall p | p in parts :: !Contains(p, sep)
    ensures Join(parts, sep) == s
    decreases |s|
  {
    match IndexOf(s, sep)
    case None => [s]
    case Some(i) =>
      var rest := Split(s[i + |sep|..], sep);
      NoOccurrenceBefore(s, sep, i);
      assert s == s[..i] + sep + s[i + |sep|..];
      [s[..i]] + rest
  }

  lemma NoOccurrenceBefore(s: string, t: string, i: nat)
    requires i <= |s| && |t| > 0
    requires forall j | 0 <= j < i :: !OccursAt(s, t, j)
    ensures !Contains(s[..i], t)
  {
    forall j | 0 <= j <= i ensures !OccursAt(s[..i], t, j) {
      if j + |t| <= i {
        assert !OccursAt(s, t, j);
        assert s[..i][j..j + |t|] == s[j..j + |t|];
      }
    }
  }

  /** An occurrence with none before it is what `indexOf` finds. */
  lemma FirstOccurrence(s: string, t: string, k: nat)
    requires |t| > 0 && OccursAt(s, t, k)
    requires forall j | 0 <= j < k :: !OccursAt(s, t, j)
    ensures IndexOf(s, t) == Some(k)
  {
    assert Contains(s, t);
    var v := IndexOf(s, t).value;
    assert !(k < v);
  }

  /** One step of `Split`: the piece before the first separator, then the
      split of the rest. */
  lemma SplitStep(s: string, sep: string)
    requires |sep| > 0 && IndexOf(s, sep).Some?
    ensures var i := IndexOf(s, sep).value;
      Split(s, sep) == [s[..i]] + Split(s[i + |sep|..], sep)
  {
  }

  /** Splitting on a one-character separator undoes joining pieces that do
      not contain it. */
  lemma {:induction false} SplitJoin(parts: seq<string>, sep: string)
    requires |sep| == 1 && |parts| >= 1
    requires forall p | p in parts :: !Contains(p, sep)
    ensures Split(Join(parts, sep), sep) == parts
  {
    var s := Join(parts, sep);
    if |parts| == 1 {
      assert !Contains(s, sep) by { assert parts[0] in parts; }
    } else {
      var p0, tail := parts[0], Join(parts[1..], sep);
      assert parts[0] in parts;
      assert s == p0 + sep + tail;
      SeparatorAfterPiece(p0, sep, tail);
      SplitStep(s, sep);
      assert s[|p0| + |sep|..] == tail;
      assert forall p | p in parts[1..] :: p in parts;
      SplitJoin(parts[1..], sep);
      assert parts == [p0] + parts[1..];
    }
  }

  /** In `p0 + sep + tail`, with no `sep` inside `p0`, the first one-character
      separator is the one right after `p0`. */
  lemma SeparatorAfterPiece(p0: string, sep: string, tail: string)
    requires |sep| == 1 && !Contains(p0, sep)
    ensures IndexOf(p0 + sep + tail, sep) == Some(|p0|)
  {
    var s := p0 + sep + tail;
    assert OccursAt(s, sep, |p0|) by { assert s[|p0|..|p0| + 1] == sep; }
    forall j | 0 <= j < |p0| ensures !OccursAt(s, sep, j) {
      assert s[j..j + 1] == p0[j..j + 1];
      assert !OccursAt(p0, sep, j);
    }
    FirstOccurrence(s, sep, |p0|);
  }

  /** The last piece of a join is what follows the last separator. */
  lemma {:induction false} JoinLast(parts: seq<string>, sep: string)
    requires |parts| >= 2
    ensures Join(parts, sep) == Join(parts[..|parts| - 1], sep) + sep + parts[|parts| - 1]
  {
    if |parts| > 2 {
      JoinLast(parts[1..], sep);
      assert parts[1..][..|parts[1..]| - 1] == parts[..|parts| - 1][1..];
    }
  }

  // ------------------------------------------------------------------ trimming

  /** No leading and no trailing whitespace. */
  predicate IsTrimmed(t: string) {
    t == [] || (!IsWhitespace(t[0]) && !IsWhitespace(t[|t| - 1]))
  }

  function TrimStart(s: string): (r: string)
    ensures |r| <= |s| && r == s[|s| - |r|..]
    ensures forall i | 0 <= i < |s| - |r| :: IsWhitespace(s[i])
    ensures r == [] || !IsWhitespace(r[0])
  {
    if s != [] && IsWhitespace(s[0]) then TrimStart(s[1..]) else s
  }

  function TrimEnd(s: string): (r: string)
    ensures |r| <= |s| && r == s[..|r|]
    ensures forall i | |r| <= i < |s| :: IsWhitespace(s[i])
    ensures r == [] || !IsWhitespace(r[|r| - 1])
  {
    if s != [] && IsWhitespace(s[|s| - 1]) then TrimEnd(s[..|s| - 1]) else s
  }

  /** `s.trim()`: the slice of `s` left when its leading and its trailing
      whitespace are cut off; empty exactly when `s` is whitespace only. */
  function Trim(s: string): (r: string)
    ensures IsTrimmed(r)
    ensures exists a, b | 0 <= a <= b <= |s| :: r == s[a..b] && WhitespaceOutside(s, a, b)
    ensures r == [] <==> forall i | 0 <= i < |s| :: IsWhitespace(s[i])
    ensures forall c | c in r :: c in s
  {
    var front := TrimStart(s);
    var r := TrimEnd(front);
    assert r != [] ==> r[0] == front[0];
    TrimBlank(s, front, r);
    TrimMembers(s, front, r);
    TrimSlice(s, front, r);
    r
  }

  /** Every character of `s` before `a` and from `b` on is whitespace. */
  predicate WhitespaceOutside(s: string, a: nat, b: nat)
    requires a <= b <= |s|
  {
    (forall i | 0 <= i < a :: IsWhitespace(s[i])) && (forall i | b <= i < |s| :: IsWhitespace(s[i]))
  }

  /** Cutting whitespace off the front of `s` (leaving `front`) and then off
      the end of `front` (leaving `r`) cuts a slice out of `s` with only
      whitespace around it. */
  lemma TrimSlice(s: string, front: string, r: string)
    requires |front| <= |s| && front == s[|s| - |front|..]
    requires forall i | 0 <= i < |s| - |front| :: IsWhitespace(s[i])
    requires |r| <= |front| && r == front[..|r|]
    requires forall i | |r| <= i < |front| :: IsWhitespace(front[i])
    ensures exists a, b | 0 <= a <= b <= |s| :: r == s[a..b] && WhitespaceOutside(s, a, b)
  {
    var a := |s| - |front|;
    var b := a + |r|;
    forall k | 0 <= k < |r| ensures r[k] == s[a + k] {
      assert r[k] == front[k];
    }
    assert r == s[a..b];
    forall i | b <= i < |s| ensures IsWhitespace(s[i]) {
      assert s[i] == front[i - a];
    }
    assert WhitespaceOutside(s, a, b);
  }

  lemma TrimBlank(s: string, front: string, r: string)
    requires front == TrimStart(s) && r == TrimEnd(front)
    ensures r == [] <==> forall i | 0 <= i < |s| :: IsWhitespace(s[i])
  {
    var a := |s| - |front|;
    if r != [] {
      assert s[a] == front[0];
      assert !IsWhitespace(s[a]);
    }
  }

  lemma TrimMembers(s: string, front: string, r: string)
    requires front == TrimStart(s) && r == TrimEnd(front)
    ensures forall c | c in r :: c in s
  {
    var a := |s| - |front|;
    forall c | c in r ensures c in s {
      var i :| 0 <= i < |r| && r[i] == c;
      assert s[a + i] == front[i] == c;
    }
  }

  /** A trimmed string is its own trim. */
  lemma TrimOfTrimmed(t: string)
    requires IsTrimmed(t)
    ensures Trim(t) == t
  {
  }

  // ------------------------------------------------------------------- numbers

  predicate IsDigit(c: char) { '0' <= c <= '9' }

  /** The number a string of decimal digits denotes, most significant first. */
  function DecimalValue(s: string): nat
    requires forall c | c in s :: IsDigit(c)
  {
    if s == [] then 0
    else
      var last := s[|s| - 1];
      assert last in s && IsDigit(last);
      assert last as int >= '0' as int;
      DecimalValue(s[..|s| - 1]) * 10 + (last as int - '0' as int)
  }

  /** The decimal digits of `n`, as `${n}` renders a non-negative integer:
      they denote `n`, with no leading zero. */
  function DecimalString(n: nat): (r: string)
    ensures |r| >= 1
    ensures forall c | c in r :: IsDigit(c)
    ensures DecimalValue(r) == n
    ensures n > 0 ==> r[0] != '0'
  {
    if n < 10 then [('0' as int + n) as char]
    else
      var r := DecimalString(n / 10) + [('0' as int + n % 10) as char];
      assert r[..|r| - 1] == DecimalString(n / 10);
      r
  }

  /** Different numbers are rendered differently. */
  lemma DecimalStringInjective(m: nat, n: nat)
    requires DecimalString(m) == DecimalString(n)
    ensures m == n
  {
  }
}
