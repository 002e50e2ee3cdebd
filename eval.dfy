/**
 * Python's `eval` on the operand text of an assembly line, restricted to
 * the forms programs use: a decimal integer literal or a name bound in the
 * label map, with an optional sign. None is the exception `eval` raises
 * (SyntaxError or NameError) on anything else of that shape.
 */
module Eval {
  import opened Wrappers
  import opened Text

  type Labels = map<string, int>

  /** The blanks Python's tokenizer skips around tokens (and `eval` strips in front). */
  predicate IsBlank(c: char) {
    c == ' ' || c == '\t'
  }

  /** The first non-blank at or after `from`, or `|s|`. */
  function SkipBlanks(s: string, from: nat): (i: nat)
    requires from <= |s|
    ensures from <= i <= |s|
    ensures forall k :: from <= k < i ==> IsBlank(s[k])
    ensures i < |s| ==> !IsBlank(s[i])
    decreases |s| - from
  {
    if from == |s| || !IsBlank(s[from]) then from else SkipBlanks(s, from + 1)
  }

  lemma SkipBlanksRun(s: string, from: nat, end: nat)
    requires from <= end <= |s|
    requires forall k :: from <= k < end ==> IsBlank(s[k])
    requires end < |s| ==> !IsBlank(s[end])
    ensures SkipBlanks(s, from) == end
  {
  }

  /** One past the last non-blank before `end`, never below `lo`. */
  function BackOverBlanks(s: string, lo: nat, end: nat): (j: nat)
    requires lo <= end <= |s|
    ensures lo <= j <= end
    ensures forall k :: j <= k < end ==> IsBlank(s[k])
    ensures j > lo ==> !IsBlank(s[j - 1])
    decreases end
  {
    if end == lo || !IsBlank(s[end - 1]) then end else BackOverBlanks(s, lo, end - 1)
  }

  /** The text without its leading and trailing blanks. */
  function TrimBlanks(s: string): (r: string)
    ensures |r| <= |s|
    ensures r == [] || (!IsBlank(r[0]) && !IsBlank(r[|r| - 1]))
  {
    var i := SkipBlanks(s, 0);
    s[i..BackOverBlanks(s, i, |s|)]
  }

  /** Trimming keeps a slice of the text and removes only blanks on either side of it. */
  lemma TrimBlanksRemovesOnlyBlanks(s: string)
    ensures exists i, j ::
      (0 <= i <= j <= |s| && TrimBlanks(s) == s[i..j]
       && (forall k :: 0 <= k < i ==> IsBlank(s[k])) && (forall k :: j <= k < |s| ==> IsBlank(s[k])))
  {
    var i := SkipBlanks(s, 0);
    var j := BackOverBlanks(s, i, |s|);
    assert TrimBlanks(s) == s[i..j];
  }

  /** Blanks in front of text that starts and ends with a non-blank are all that trimming removes. */
  lemma TrimPadded(pad: string, s: string)
    requires forall k :: 0 <= k < |pad| ==> IsBlank(pad[k])
    requires s != [] && !IsBlank(s[0]) && !IsBlank(s[|s| - 1])
    ensures TrimBlanks(pad + s) == s
  {
    var t := pad + s;
    assert forall k :: 0 <= k < |pad| ==> t[k] == pad[k];
    assert t[|pad|] == s[0] && t[|t| - 1] == s[|s| - 1];
    SkipBlanksRun(t, 0, |pad|);
    assert t[|pad|..] == s;
  }

  /** A Python 3 decimal integer literal: digits, with no leading zero unless every digit is zero. */
  predicate IsDecimalLiteral(s: string) {
    s != [] && AllDigits(s) && (s[0] != '0' || forall k :: 0 <= k < |s| ==> s[k] == '0')
  }

  /** A Python name: a letter or `_`, then letters, digits and `_`. */
  predicate IsIdentifier(s: string) {
    s != [] && (IsAlpha(s[0]) || s[0] == '_')
    && forall k :: 1 <= k < |s| ==> IsAlpha(s[k]) || IsDigit(s[k]) || s[k] == '_'
  }

  /** Text that starts with a letter or `_` and ends with a letter, a digit or `_`: no blank, sign or literal at either end. */
  predicate IsBare(s: string) {
    s != [] && (IsAlpha(s[0]) || s[0] == '_')
    && (IsAlpha(s[|s| - 1]) || IsDigit(s[|s| - 1]) || s[|s| - 1] == '_')
  }

  /** The reserved words of Python 3; they are never looked up as names. */
  const KEYWORDS: seq<string> := [
    "False", "None", "True", "and", "as", "assert", "async", "await", "break",
    "class", "continue", "def", "del", "elif", "else", "except", "finally", "for",
    "from", "global", "if", "import", "in", "is", "lambda", "nonlocal", "not", "or",
    "pass", "raise", "return", "try", "while", "with", "yield"
  ]

  /** `s` is one of `words`. */
  predicate Listed(s: string, words: seq<string>)
    decreases |words|
  {
    words != [] && (words[0] == s || Listed(s, words[1..]))
  }

  /** Text equal to none of the words is not listed. */
  lemma {:induction false} Unlisted(s: string, words: seq<string>)
    requires forall k :: 0 <= k < |words| ==> words[k] != s
    ensures !Listed(s, words)
    decreases |words|
  {
    if words != [] {
      assert forall k :: 0 <= k < |words| - 1 ==> words[1..][k] == words[k + 1];
      Unlisted(s, words[1..]);
    }
  }

  /** A keyword: bare text (as every keyword is, which keeps the test cheap) listed in KEYWORDS. */
  predicate IsKeyword(s: string) {
    IsBare(s) && Listed(s, KEYWORDS)
  }

  /** The one builtin name that is an int: a constant the compiler fixes, whatever the labels say. */
  const DEBUG_NAME: string := "__debug__"

  /**
   * The value of a literal, of `True` or `False` (the ints 1 and 0), of the
   * builtin constant `__debug__` (True when Python runs without `-O`), or of
   * a known label, with no sign. Any other keyword is a SyntaxError, or for
   * `None` a value that no constructor accepts as an int.
   */
  function Atom(labels: Labels, s: string): Option<int> {
    if IsDecimalLiteral(s) then Some(DecimalValue(s))
    else if IsKeyword(s) then (if s == "True" then Some(1) else if s == "False" then Some(0) else None)
    else if s == DEBUG_NAME then Some(1)
    else if IsIdentifier(s) && s in labels then Some(labels[s])
    else None
  }

  /** An optional sign, blanks, then a literal or a label name. */
  function Signed(labels: Labels, t: string): Option<int> {
    if t != [] && (t[0] == '-' || t[0] == '+') then
      match Atom(labels, t[SkipBlanks(t, 1)..])
      case None => None
      case Some(n) => Some(if t[0] == '-' then -n else n)
    else
      Atom(labels, t)
  }

  /** `eval` of one operand: blanks, an optional sign, blanks, a literal or a label name, blanks. */
  function EvalAtom(labels: Labels, text: string): Option<int> {
    Signed(labels, TrimBlanks(text))
  }

  /** `eval` of each text in turn; None as soon as one fails. */
  function EvalAll(labels: Labels, texts: seq<string>): (r: Option<seq<int>>)
    ensures r.Some? ==> |r.value| == |texts|
    decreases |texts|
  {
    if texts == [] then
      Some([])
    else
      match EvalAtom(labels, texts[0])
      case None => None
      case Some(n) =>
        match EvalAll(labels, texts[1..])
        case None => None
        case Some(ns) => Some([n] + ns)
  }

  /** The decimal form of a natural number is a Python literal: no leading zero unless it is `0`. */
  lemma {:induction false} ShowNatLeading(n: nat)
    ensures ShowNat(n)[0] != '0' || ShowNat(n) == "0"
    ensures IsDecimalLiteral(ShowNat(n))
    decreases n
  {
    if n >= 10 {
      ShowNatLeading(n / 10);
      assert ShowNat(n)[0] == ShowNat(n / 10)[0];
    }
  }

  /** Every character of `str(n)` is a digit, except a leading `-`. */
  lemma ShowChars(n: int)
    ensures forall k :: 0 <= k < |Show(n)| ==> IsDigit(Show(n)[k]) || (k == 0 && Show(n)[k] == '-')
  {
  }

  /** Trimming blanks in front of `str(n)` leaves `str(n)`. */
  lemma TrimShow(pad: string, n: int)
    requires forall k :: 0 <= k < |pad| ==> IsBlank(pad[k])
    ensures TrimBlanks(pad + Show(n)) == Show(n) != []
  {
    ShowChars(n);
    TrimPadded(pad, Show(n));
  }

  /** Two texts that each evaluate give the pair of their values. */
  lemma EvalPair(labels: Labels, a: string, b: string, x: int, y: int)
    requires EvalAtom(labels, a) == Some(x) && EvalAtom(labels, b) == Some(y)
    ensures EvalAll(labels, [a, b]) == Some([x, y])
  {
    var one := [b];
    assert one[0] == b && one[1..] == [];
    assert [y] + [] == [y];
    assert EvalAll(labels, one) == Some([y]);
    var two := [a, b];
    assert two[0] == a && two[1..] == one;
    assert [x] + [y] == [x, y];
  }

  /** `eval` of a decimal literal with blanks in front gives its value. */
  lemma EvalAtomOfDigits(labels: Labels, pad: string, digits: string)
    requires forall k :: 0 <= k < |pad| ==> IsBlank(pad[k])
    requires IsDecimalLiteral(digits)
    ensures EvalAtom(labels, pad + digits) == Some(DecimalValue(digits))
  {
    TrimPadded(pad, digits);
  }

  /** A `-` followed directly by a decimal literal is its negated value. */
  lemma SignedNegated(labels: Labels, digits: string)
    requires IsDecimalLiteral(digits)
    ensures Signed(labels, ['-'] + digits) == Some(-(DecimalValue(digits) as int))
  {
    var s := ['-'] + digits;
    assert s[0] == '-' && s[1..] == digits;
    SkipBlanksRun(s, 1, 1);
  }

  /** `eval` of a negated decimal literal with blanks in front gives its negated value. */
  lemma EvalAtomOfNegated(labels: Labels, pad: string, digits: string)
    requires forall k :: 0 <= k < |pad| ==> IsBlank(pad[k])
    requires IsDecimalLiteral(digits)
    ensures EvalAtom(labels, pad + ['-'] + digits) == Some(-(DecimalValue(digits) as int))
  {
    var s := ['-'] + digits;
    assert pad + ['-'] + digits == pad + s;
    assert s[0] == '-' && s[|s| - 1] == digits[|digits| - 1];
    TrimPadded(pad, s);
    SignedNegated(labels, digits);
  }

  /** `eval(str(n)) == n`, also with blanks in front. */
  lemma EvalAtomOfShow(labels: Labels, pad: string, n: int)
    requires forall k :: 0 <= k < |pad| ==> IsBlank(pad[k])
    ensures EvalAtom(labels, pad + Show(n)) == Some(n)
  {
    var a := if n < 0 then -n else n;
    var digits := ShowNat(a);
    ShowNatLeading(a);
    DecimalValueOfShowNat(a);
    if n < 0 {
      assert pad + Show(n) == pad + ['-'] + digits;
      EvalAtomOfNegated(labels, pad, digits);
    } else {
      assert Show(n) == digits;
      EvalAtomOfDigits(labels, pad, digits);
    }
  }

  /** `eval(str(n)) == n`. */
  lemma EvalShow(labels: Labels, n: int)
    ensures EvalAtom(labels, Show(n)) == Some(n)
  {
    assert [] + Show(n) == Show(n);
    EvalAtomOfShow(labels, [], n);
  }

  /** A name that is not a keyword evaluates to the label's address, or does not evaluate when it is not a label. */
  lemma EvalAtomOfName(labels: Labels, name: string)
    requires IsIdentifier(name) && !IsKeyword(name) && name != DEBUG_NAME
    ensures EvalAtom(labels, name) == if name in labels then Some(labels[name]) else None
  {
    EvalAtomOfIdentifier(labels, name);
  }

  /** Bare text has no blanks and no sign, so `eval` of it is its unsigned value. */
  lemma EvalAtomOfBare(labels: Labels, name: string)
    requires IsBare(name)
    ensures EvalAtom(labels, name) == Atom(labels, name)
    ensures !IsDecimalLiteral(name)
  {
    assert [] + name == name;
    TrimPadded([], name);
    assert name[0] != '-' && name[0] != '+' && !IsDigit(name[0]);
  }

  /** A name is bare text. */
  lemma EvalAtomOfIdentifier(labels: Labels, name: string)
    requires IsIdentifier(name)
    ensures EvalAtom(labels, name) == Atom(labels, name)
  {
    assert IsBare(name) by {
      if |name| > 1 {
        var c := name[|name| - 1];
        assert IsAlpha(c) || IsDigit(c) || c == '_';
      }
    }
    EvalAtomOfBare(labels, name);
  }

  /**
   * A keyword evaluates as itself whatever the labels say: `True` is 1 and
   * `False` is 0, and every other keyword fails, even when a label has its name.
   */
  lemma EvalAtomOfKeyword(labels: Labels, name: string)
    requires IsKeyword(name)
    ensures EvalAtom(labels, name) == if name == "True" then Some(1) else if name == "False" then Some(0) else None
  {
    EvalAtomOfBare(labels, name);
  }

  /** `__debug__` evaluates to `True`, the int 1, even when a label has its name. */
  lemma EvalAtomOfDebug(labels: Labels)
    ensures EvalAtom(labels, DEBUG_NAME) == Some(1)
  {
    assert forall k :: 0 <= k < |KEYWORDS| ==> |KEYWORDS[k]| < |DEBUG_NAME|;
    Unlisted(DEBUG_NAME, KEYWORDS);
    EvalAtomOfBare(labels, DEBUG_NAME);
  }
}
