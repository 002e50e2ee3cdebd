/**
 * The string operations the assemblers rely on, with Python's `str`
 * semantics: `splitlines`, `strip`, `split(sep)`, `split(sep, 1)`,
 * `split()`, `find` and `int` on decimal text. Strings are sequences of
 * code points; no case folding or normalisation is involved anywhere.
 */
module Text {
  import opened Wrappers

  /** `str.isspace` for one code point. */
  predicate IsSpace(c: char) {
    c == ' ' || ('\t' <= c <= '\r') || ('\U{1C}' <= c <= '\U{1F}')
    || c == '\U{85}' || c == '\U{A0}' || c == '\U{1680}' || ('\U{2000}' <= c <= '\U{200A}')
    || c == '\U{2028}' || c == '\U{2029}' || c == '\U{202F}' || c == '\U{205F}' || c == '\U{3000}'
  }

  /** The line boundaries of `str.splitlines`; `\r\n` counts as one. */
  predicate IsLineBreak(c: char) {
    ('\n' <= c <= '\r') || ('\U{1C}' <= c <= '\U{1E}') || c == '\U{85}' || c == '\U{2028}' || c == '\U{2029}'
  }

  predicate IsDigit(c: char) {
    '0' <= c <= '9'
  }

  predicate IsAlpha(c: char) {
    'a' <= c <= 'z' || 'A' <= c <= 'Z'
  }

  predicate NoLineBreak(s: string) {
    forall k :: 0 <= k < |s| ==> !IsLineBreak(s[k])
  }

  predicate NoSpace(s: string) {
    forall k :: 0 <= k < |s| ==> !IsSpace(s[k])
  }

  // ---------------------------------------------------------------------
  // Scanning

  /** The first index at or after `from` holding `c`, or `|s|` when there is none. */
  function IndexOf(s: string, c: char, from: nat): (i: nat)
    requires from <= |s|
    ensures from <= i <= |s|
    ensures forall k :: from <= k < i ==> s[k] != c
    ensures i < |s| ==> s[i] == c
    decreases |s| - from
  {
    if from == |s| || s[from] == c then from else IndexOf(s, c, from + 1)
  }

  /** `s.find(c)`: the first index of `c`, or -1. */
  function Find(s: string, c: char): (i: int)
    ensures -1 <= i < |s|
    ensures i == -1 <==> c !in s
    ensures i >= 0 ==> s[i] == c && c !in s[..i]
  {
    var i := IndexOf(s, c, 0);
    if i == |s| then -1 else i
  }

  /** The first line break at or after `from`, or `|s|`. */
  function NextBreak(s: string, from: nat): (i: nat)
    requires from <= |s|
    ensures from <= i <= |s|
    ensures forall k :: from <= k < i ==> !IsLineBreak(s[k])
    ensures i < |s| ==> IsLineBreak(s[i])
    decreases |s| - from
  {
    if from == |s| || IsLineBreak(s[from]) then from else NextBreak(s, from + 1)
  }

  /** The first non-space at or after `from`, or `|s|`. */
  function SkipSpaces(s: string, from: nat): (i: nat)
    requires from <= |s|
    ensures from <= i <= |s|
    ensures forall k :: from <= k < i ==> IsSpace(s[k])
    ensures i < |s| ==> !IsSpace(s[i])
    decreases |s| - from
  {
    if from == |s| || !IsSpace(s[from]) then from else SkipSpaces(s, from + 1)
  }

  /** The first space at or after `from`, or `|s|`. */
  function NextSpace(s: string, from: nat): (i: nat)
    requires from <= |s|
    ensures from <= i <= |s|
    ensures forall k :: from <= k < i ==> !IsSpace(s[k])
    ensures i < |s| ==> IsSpace(s[i])
    decreases |s| - from
  {
    if from == |s| || IsSpace(s[from]) then from else NextSpace(s, from + 1)
  }

  /** Scanning back from `end` over spaces, never below `lo`: one past the last non-space, or `lo`. */
  function BackOverSpaces(s: string, lo: nat, end: nat): (j: nat)
    requires lo <= end <= |s|
    ensures lo <= j <= end
    ensures forall k :: j <= k < end ==> IsSpace(s[k])
    ensures j > lo ==> !IsSpace(s[j - 1])
    decreases end
  {
    if end == lo || !IsSpace(s[end - 1]) then end else BackOverSpaces(s, lo, end - 1)
  }

  // ---------------------------------------------------------------------
  // splitlines

  /** How many characters the break at `i` takes: two for `\r\n`, otherwise one. */
  function BreakLength(s: string, i: nat): nat
    requires i < |s|
  {
    if s[i] == '\r' && i + 1 < |s| && s[i + 1] == '\n' then 2 else 1
  }

  /** `str.splitlines()`: the lines without their breaks; a final break adds no empty line. */
  function SplitLines(s: string): (lines: seq<string>)
    ensures forall k :: 0 <= k < |lines| ==> NoLineBreak(lines[k])
    ensures s == [] <==> lines == []
    decreases |s|
  {
    if s == [] then
      []
    else
      var i := NextBreak(s, 0);
      if i == |s| then [s] else [s[..i]] + SplitLines(s[i + BreakLength(s, i)..])
  }

  /** Text without line breaks, joined, has no line break. */
  lemma NoLineBreakAppend(a: string, b: string)
    requires NoLineBreak(a) && NoLineBreak(b)
    ensures NoLineBreak(a + b)
  {
    assert forall k :: 0 <= k < |a + b| ==> (a + b)[k] == if k < |a| then a[k] else b[k - |a|];
  }

  /** Lines each followed by a newline: the text a line-oriented file holds. */
  function Terminated(lines: seq<string>): string {
    if lines == [] then [] else lines[0] + "\n" + Terminated(lines[1..])
  }

  /** Splitting newline-terminated lines gives the lines back. */
  lemma {:induction false} SplitLinesOfTerminated(lines: seq<string>)
    requires forall k :: 0 <= k < |lines| ==> NoLineBreak(lines[k])
    ensures SplitLines(Terminated(lines)) == lines
    decreases |lines|
  {
    if lines != [] {
      var rest := Terminated(lines[1..]);
      SplitLinesAtNewline(lines[0], rest);
      SplitLinesOfTerminated(lines[1..]);
    }
  }

  /** A line without breaks, a newline and the rest: the line comes first, then the lines of the rest. */
  lemma SplitLinesAtNewline(line: string, rest: string)
    requires NoLineBreak(line)
    ensures SplitLines(line + "\n" + rest) == [line] + SplitLines(rest)
  {
    var s := line + "\n" + rest;
    var n := |line|;
    assert s[n] == '\n';
    assert forall k :: 0 <= k < n ==> s[k] == line[k];
    NextBreakFirst(s, n);
    assert s[..n] == line;
    assert s[n + 1..] == rest;
    assert BreakLength(s, n) == 1;
  }

  /** The scan stops at the first break. */
  lemma NextBreakFirst(s: string, n: nat)
    requires n < |s| && IsLineBreak(s[n]) && forall k :: 0 <= k < n ==> !IsLineBreak(s[k])
    ensures NextBreak(s, 0) == n
  {
  }

  // ---------------------------------------------------------------------
  // strip

  /** `str.strip()`: drop leading and trailing whitespace. */
  function Strip(s: string): (r: string)
    ensures |r| <= |s|
    ensures r == [] || (!IsSpace(r[0]) && !IsSpace(r[|r| - 1]))
  {
    var i := SkipSpaces(s, 0);
    var j := BackOverSpaces(s, i, |s|);
    s[i..j]
  }

  /** What `strip` removes is whitespace on both sides of the result, and nothing else. */
  lemma StripRemovesOnlySpaces(s: string)
    ensures exists i, j ::
      (0 <= i <= j <= |s| && Strip(s) == s[i..j]
       && (forall k :: 0 <= k < i ==> IsSpace(s[k])) && (forall k :: j <= k < |s| ==> IsSpace(s[k])))
  {
    var i := SkipSpaces(s, 0);
    var j := BackOverSpaces(s, i, |s|);
    assert Strip(s) == s[i..j];
  }

  /** Text without surrounding whitespace is its own strip, so `strip` is idempotent. */
  lemma StripFixed(s: string)
    requires s == [] || (!IsSpace(s[0]) && !IsSpace(s[|s| - 1]))
    ensures Strip(s) == s
  {
    if s != [] {
      assert SkipSpaces(s, 0) == 0;
      assert BackOverSpaces(s, 0, |s|) == |s|;
    }
  }

  lemma StripIdempotent(s: string)
    ensures Strip(Strip(s)) == Strip(s)
  {
    StripFixed(Strip(s));
  }

  /** One space in front of text without surrounding whitespace is all `strip` removes. */
  lemma StripPadded(s: string)
    requires s == [] || (!IsSpace(s[0]) && !IsSpace(s[|s| - 1]))
    ensures Strip([' '] + s) == s
  {
    var t := [' '] + s;
    assert t[1..] == s;
    SkipSpacesRun(t, 0, 1);
  }

  // ---------------------------------------------------------------------
  // split

  /** `s.split(sep)`: the pieces between occurrences of `sep`; always at least one. */
  function Split(s: string, sep: char): (parts: seq<string>)
    ensures |parts| >= 1
    ensures forall k :: 0 <= k < |parts| ==> sep !in parts[k]
    decreases |s|
  {
    var i := IndexOf(s, sep, 0);
    if i == |s| then
      assert sep !in s;
      [s]
    else
      assert sep !in s[..i];
      [s[..i]] + Split(s[i + 1..], sep)
  }

  /** `sep.join(parts)`. */
  function Join(parts: seq<string>, sep: char): string
    requires |parts| >= 1
  {
    if |parts| == 1 then parts[0] else parts[0] + [sep] + Join(parts[1..], sep)
  }

  /** Joining the pieces with the separator rebuilds the text. */
  lemma {:induction false} JoinOfSplit(s: string, sep: char)
    ensures Join(Split(s, sep), sep) == s
    decreases |s|
  {
    var i := IndexOf(s, sep, 0);
    if i < |s| {
      JoinOfSplit(s[i + 1..], sep);
      assert s == s[..i] + [sep] + s[i + 1..];
    }
  }

  /** Splitting a join of separator-free pieces gives the pieces back. */
  lemma {:induction false} SplitOfJoin(parts: seq<string>, sep: char)
    requires |parts| >= 1 && forall k :: 0 <= k < |parts| ==> sep !in parts[k]
    ensures Split(Join(parts, sep), sep) == parts
    decreases |parts|
  {
    var s := Join(parts, sep);
    var n := |parts[0]|;
    if |parts| == 1 {
      IndexOfAbsent(s, sep);
    } else {
      var rest := Join(parts[1..], sep);
      assert s == parts[0] + [sep] + rest;
      IndexOfFirst(s, sep, n);
      assert s[..n] == parts[0];
      assert s[n + 1..] == rest;
      SplitOfJoin(parts[1..], sep);
    }
  }

  lemma IndexOfAbsent(s: string, c: char)
    requires c !in s
    ensures IndexOf(s, c, 0) == |s|
  {
  }

  lemma IndexOfFirst(s: string, c: char, n: nat)
    requires n < |s| && s[n] == c && forall k :: 0 <= k < n ==> s[k] != c
    ensures IndexOf(s, c, 0) == n
  {
  }

  /** `s.split(sep, 1)`: the text before the first `sep` and the rest, or the whole text alone. */
  function SplitOnce(s: string, sep: char): (parts: seq<string>)
    ensures |parts| == 1 <==> sep !in s
    ensures |parts| == 1 ==> parts[0] == s
    ensures |parts| != 1 ==> |parts| == 2 && sep !in parts[0] && s == parts[0] + [sep] + parts[1]
  {
    var i := IndexOf(s, sep, 0);
    if i == |s| then
      assert sep !in s;
      [s]
    else
      assert s[i] in s && s == s[..i] + [sep] + s[i + 1..];
      assert sep !in s[..i];
      [s[..i], s[i + 1..]]
  }

  /** `s.split()`: the maximal runs of non-whitespace, in order. */
  function Words(s: string): (ws: seq<string>)
    ensures forall k :: 0 <= k < |ws| ==> ws[k] != [] && NoSpace(ws[k])
    decreases |s|
  {
    var i := SkipSpaces(s, 0);
    if i == |s| then
      []
    else
      var j := NextSpace(s, i);
      [s[i..j]] + Words(s[j..])
  }

  /** Words joined by single spaces split back into the same words. */
  lemma {:induction false} WordsOfJoin(ws: seq<string>)
    requires |ws| >= 1 && forall k :: 0 <= k < |ws| ==> ws[k] != [] && NoSpace(ws[k])
    ensures Words(Join(ws, ' ')) == ws
    decreases |ws|
  {
    var s := Join(ws, ' ');
    var n := |ws[0]|;
    assert s[..n] == ws[0];
    assert SkipSpaces(s, 0) == 0;
    if |ws| == 1 {
      NextSpaceRun(s, 0, n);
      assert Words(s[n..]) == [];
    } else {
      var rest := Join(ws[1..], ' ');
      assert s == ws[0] + [' '] + rest;
      NextSpaceRun(s, 0, n);
      assert s[n..] == [' '] + rest;
      WordsAfterSpace(rest);
      WordsOfJoin(ws[1..]);
    }
  }

  lemma NextSpaceRun(s: string, from: nat, end: nat)
    requires from <= end <= |s|
    requires forall k :: from <= k < end ==> !IsSpace(s[k])
    requires end < |s| ==> IsSpace(s[end])
    ensures NextSpace(s, from) == end
  {
  }

  /** A single leading space does not change the words. */
  lemma WordsAfterSpace(s: string)
    ensures Words([' '] + s) == Words(s)
  {
    var t := [' '] + s;
    assert t[1..] == s;
    SkipSpacesShift(t);
    var i := SkipSpaces(s, 0);
    assert SkipSpaces(t, 0) == i + 1;
    if i < |s| {
      NextSpaceShift(t, i);
      var j := NextSpace(s, i);
      assert NextSpace(t, i + 1) == j + 1;
      assert t[i + 1..j + 1] == s[i..j];
      assert t[j + 1..] == s[j..];
      assert Words(s) == [s[i..j]] + Words(s[j..]);
      assert Words(t) == [t[i + 1..j + 1]] + Words(t[j + 1..]);
    } else {
      assert Words(s) == [] && Words(t) == [];
    }
  }

  lemma SkipSpacesShift(t: string)
    requires |t| >= 1 && IsSpace(t[0])
    ensures SkipSpaces(t, 0) == SkipSpaces(t[1..], 0) + 1
  {
    SkipSpacesFrom(t, 1);
  }

  /** Skipping from `from` in `t` is skipping from 0 in `t[from..]`, shifted. */
  lemma {:induction false} SkipSpacesFrom(t: string, from: nat)
    requires from <= |t|
    ensures SkipSpaces(t, from) == SkipSpaces(t[from..], 0) + from
    decreases |t| - from
  {
    if from < |t| && IsSpace(t[from]) {
      SkipSpacesFrom(t, from + 1);
      assert t[from..][1..] == t[from + 1..];
      SkipSpacesStep(t[from..]);
    }
  }

  lemma SkipSpacesStep(u: string)
    requires |u| >= 1 && IsSpace(u[0])
    ensures SkipSpaces(u, 0) == SkipSpaces(u[1..], 0) + 1
  {
    var j := SkipSpaces(u[1..], 0) + 1;
    assert forall k :: 1 <= k < j ==> u[k] == u[1..][k - 1];
    assert j < |u| ==> u[j] == u[1..][j - 1];
    SkipSpacesRun(u, 0, j);
  }

  lemma SkipSpacesRun(s: string, from: nat, end: nat)
    requires from <= end <= |s|
    requires forall k :: from <= k < end ==> IsSpace(s[k])
    requires end < |s| ==> !IsSpace(s[end])
    ensures SkipSpaces(s, from) == end
  {
  }

  lemma NextSpaceShift(t: string, i: nat)
    requires |t| >= 1 && i + 1 <= |t|
    ensures NextSpace(t, i + 1) == NextSpace(t[1..], i) + 1
  {
    var a := NextSpace(t[1..], i) + 1;
    assert forall k :: i + 1 <= k < a ==> t[k] == t[1..][k - 1];
    assert a < |t| ==> t[a] == t[1..][a - 1];
    NextSpaceRun(t, i + 1, a);
  }

  // ---------------------------------------------------------------------
  // int

  predicate AllDigits(s: string) {
    forall k :: 0 <= k < |s| ==> IsDigit(s[k])
  }

  /** The number a run of decimal digits denotes. */
  function DecimalValue(s: string): nat
    requires AllDigits(s)
    decreases |s|
  {
    if s == [] then 0 else DecimalValue(s[..|s| - 1]) * 10 + (s[|s| - 1] as int - '0' as int)
  }

  /**
   * `int(text)` on decimal text: surrounding whitespace is ignored, one
   * optional sign, then at least one ASCII digit (leading zeros allowed).
   * None is the ValueError for anything else.
   */
  function ParseInt(s: string): Option<int> {
    var t := Strip(s);
    var body := if t != [] && (t[0] == '-' || t[0] == '+') then t[1..] else t;
    if body == [] || !AllDigits(body) then
      None
    else
      var n: int := DecimalValue(body);
      Some(if t[0] == '-' then -n else n)
  }

  /** The decimal digits of a natural number, most significant first. */
  function ShowNat(n: nat): (s: string)
    ensures s != [] && AllDigits(s)
    decreases n
  {
    var d := ['0' + (n % 10) as char];
    if n < 10 then d else ShowNat(n / 10) + d
  }

  /** `str(n)`: the decimal form of an integer, with `-` for negatives. */
  function Show(n: int): string {
    if n < 0 then "-" + ShowNat(-n) else ShowNat(n)
  }

  lemma {:induction false} DecimalValueOfShowNat(n: nat)
    ensures DecimalValue(ShowNat(n)) == n
    decreases n
  {
    var s := ShowNat(n);
    if n >= 10 {
      DecimalValueOfShowNat(n / 10);
      assert s[..|s| - 1] == ShowNat(n / 10);
    }
  }

  /** `int(str(n)) == n`: parsing the decimal form of any integer gives it back. */
  lemma ParseIntOfShow(n: int)
    ensures ParseInt(Show(n)) == Some(n)
  {
    var s := Show(n);
    var digits := ShowNat(if n < 0 then -n else n);
    assert !IsSpace(s[0]) && !IsSpace(s[|s| - 1]);
    StripFixed(s);
    DecimalValueOfShowNat(if n < 0 then -n else n);
    if n < 0 {
      assert s[1..] == digits;
    }
  }
}
