/**
 * The two-pass assembler of lrc/lrc.py and lrc/compiler.py. Both drafts
 * share the line filter, the label pass and the line classification; they
 * differ in how an operation's operand text is turned into an instruction:
 *
 *   - `Reference` (lrc/lrc.py): the text after the mnemonic is handed to
 *     `eval` as a whole and the result to the op's constructor, which masks
 *     `lo` and `hi` to 16 bits.
 *   - `Packaged` (lrc/compiler.py): the text is split on `,`; the first part
 *     is `lo`, the second is `hi` only when there are exactly two parts.
 *     The values are kept as they are (see README for the constructor call).
 *
 * `eval` is modelled on the operand forms a program uses: a decimal literal
 * or a label name, with an optional sign, and a comma-separated tuple of them.
 */
module Assembler {
  import opened Wrappers
  import opened Isa
  import opened Memory
  import opened Encoding
  import opened Text
  import opened Eval

  datatype Dialect = Reference | Packaged

  datatype CompileError =
    | UnrecognizedInstruction(line: string)   // neither a label nor an operation
    | DuplicateLabel(name: string)            // the assertion in `find_labels`
    | EvalFailed(text: string)                // `eval` raised on the operand text
    | BadOperands(line: string)               // the constructor rejected `eval`'s value

  // ---------------------------------------------------------------------
  // prepare

  /** `is_comment`: an empty line or one starting with `#`, checked before stripping. */
  predicate IsComment(line: string) {
    line == [] || line[0] == '#'
  }

  /** The values `f` gives for the elements, in order; an element it gives None for is dropped. */
  function Keep<A, B>(f: A -> Option<B>, xs: seq<A>): (ys: seq<B>)
    ensures |ys| <= |xs|
    decreases |xs|
  {
    if xs == [] then [] else (match f(xs[0]) case None => [] case Some(y) => [y]) + Keep(f, xs[1..])
  }

  lemma KeepCons<A, B>(f: A -> Option<B>, x: A, xs: seq<A>)
    ensures Keep(f, [x] + xs) == (match f(x) case None => [] case Some(y) => [y]) + Keep(f, xs)
  {
    var t := [x] + xs;
    assert t[0] == x && t[1..] == xs;
  }

  /** Keeping over two runs one after the other keeps over each and concatenates. */
  lemma {:induction false} KeepAppend<A, B>(f: A -> Option<B>, a: seq<A>, b: seq<A>)
    ensures Keep(f, a + b) == Keep(f, a) + Keep(f, b)
    decreases |a|
  {
    if a == [] {
      assert a + b == b;
    } else {
      var x, rest := a[0], a[1..];
      assert a == [x] + rest && a + b == [x] + (rest + b);
      KeepCons(f, x, rest + b);
      KeepCons(f, x, rest);
      KeepAppend(f, rest, b);
      var head: seq<B> := match f(x) case None => [] case Some(y) => [y];
      assert head + (Keep(f, rest) + Keep(f, b)) == (head + Keep(f, rest)) + Keep(f, b);
    }
  }

  /** Elements that each give one value keep those values, in order. */
  lemma {:induction false} KeepOfEach<A, B>(f: A -> Option<B>, xs: seq<A>, ys: seq<B>)
    requires |xs| == |ys|
    requires forall k :: 0 <= k < |xs| ==> f(xs[k]) == Some(ys[k])
    ensures Keep(f, xs) == ys
    decreases |xs|
  {
    if xs != [] {
      KeepOfEach(f, xs[1..], ys[1..]);
      assert [ys[0]] + ys[1..] == ys;
    }
  }

  /** A property of every value `f` gives holds of everything kept. */
  lemma {:induction false} KeepSatisfies<A, B>(f: A -> Option<B>, p: B -> bool, xs: seq<A>)
    requires forall x :: f(x).Some? ==> p(f(x).value)
    ensures forall k :: 0 <= k < |Keep(f, xs)| ==> p(Keep(f, xs)[k])
    decreases |xs|
  {
    if xs != [] {
      var head: seq<B> := match f(xs[0]) case None => [] case Some(y) => [y];
      var rest := Keep(f, xs[1..]);
      KeepSatisfies(f, p, xs[1..]);
      assert Keep(f, xs) == head + rest;
      forall k | 0 <= k < |head + rest|
        ensures p((head + rest)[k])
      {
        if k >= |head| {
          assert (head + rest)[k] == rest[k - |head|];
        }
      }
    }
  }

  /** `prepare` on one line: a comment is dropped, any other line is kept stripped. */
  function PrepareOne(line: string): Option<string> {
    if IsComment(line) then None else Some(Strip(line))
  }

  /** The list comprehension of `prepare`: the non-comment lines, stripped, in order. */
  function PrepareLines(lines: seq<string>): seq<string> {
    Keep(PrepareOne, lines)
  }

  function Prepare(program: string): seq<string> {
    PrepareLines(SplitLines(program))
  }

  /** A stripped line: empty, or neither starting nor ending with whitespace. */
  predicate IsStripped(line: string) {
    line == [] || (!IsSpace(line[0]) && !IsSpace(line[|line| - 1]))
  }

  /** Every prepared line is stripped, and there are at most as many as there were lines. */
  lemma PrepareLinesStripped(lines: seq<string>)
    ensures |PrepareLines(lines)| <= |lines|
    ensures forall k :: 0 <= k < |PrepareLines(lines)| ==> IsStripped(PrepareLines(lines)[k])
  {
    KeepSatisfies(PrepareOne, IsStripped, lines);
  }

  /** The filter works line by line: preparing two blocks of lines is preparing each. */
  lemma PrepareLinesAppend(a: seq<string>, b: seq<string>)
    ensures PrepareLines(a + b) == PrepareLines(a) + PrepareLines(b)
  {
    KeepAppend(PrepareOne, a, b);
  }

  /** A comment line is dropped and any other line is kept, stripped. */
  lemma PrepareLine(line: string)
    ensures PrepareLines([line]) == if IsComment(line) then [] else [Strip(line)]
  {
    KeepCons(PrepareOne, line, []);
    assert [line] + [] == [line];
  }

  /** Lines that are nonempty, not comments and already stripped pass through unchanged. */
  lemma PrepareClean(lines: seq<string>)
    requires forall k :: 0 <= k < |lines| ==> !IsComment(lines[k]) && !IsSpace(lines[k][0]) && !IsSpace(lines[k][|lines[k]| - 1])
    ensures PrepareLines(lines) == lines
  {
    forall k | 0 <= k < |lines|
      ensures PrepareOne(lines[k]) == Some(lines[k])
    {
      StripFixed(lines[k]);
    }
    KeepOfEach(PrepareOne, lines, lines);
  }

  /** The comment test runs before `strip`, so a line of blanks survives as an empty line and is then not understood. */
  lemma BlankLineIsNotSkipped()
    ensures Prepare("  \n") == [""]
    ensures CompileProgram(Reference, "  \n") == Failure(UnrecognizedInstruction(""))
    ensures CompileProgram(Packaged, "  \n") == Failure(UnrecognizedInstruction(""))
  {
    var s := "  \n";
    NextBreakFirst(s, 2);
    assert s[..2] == "  ";
    assert s[3..] == [];
    assert SplitLines(s) == ["  "];
    assert Strip("  ") == "" by {
      SkipSpacesRun("  ", 0, 2);
    }
    PrepareLine("  ");
    assert LabelsOf([""]) == Success(map[]) by {
      assert [""][..0] == [];
    }
    TraverseFirstFailure(line => CompileLine(Reference, map[], line), [""], 0);
    TraverseFirstFailure(line => CompileLine(Packaged, map[], line), [""], 0);
  }

  // ---------------------------------------------------------------------
  // Line classification

  /** The characters of `[-_0-9a-zA-Z]`. */
  predicate IsLabelChar(c: char) {
    c == '-' || c == '_' || IsDigit(c) || IsAlpha(c)
  }

  /** The end of the run of label characters starting at `from`. */
  function SkipLabelChars(s: string, from: nat): (i: nat)
    requires from <= |s|
    ensures from <= i <= |s|
    ensures forall k :: from <= k < i ==> IsLabelChar(s[k])
    ensures i < |s| ==> !IsLabelChar(s[i])
    decreases |s| - from
  {
    if from == |s| || !IsLabelChar(s[from]) then from else SkipLabelChars(s, from + 1)
  }

  lemma SkipLabelCharsRun(s: string, from: nat, end: nat)
    requires from <= end <= |s|
    requires forall k :: from <= k < end ==> IsLabelChar(s[k])
    requires end < |s| ==> !IsLabelChar(s[end])
    ensures SkipLabelChars(s, from) == end
  {
  }

  /** `is_label`: the line starts with a letter and its run of label characters ends in `:`. */
  predicate IsLabel(line: string) {
    |line| >= 1 && IsAlpha(line[0]) && var j := SkipLabelChars(line, 1); j < |line| && line[j] == ':'
  }

  /** `is_label` is a match of `^[a-zA-Z][-_0-9a-zA-Z]*:` at the start of the line. */
  lemma IsLabelMatches(line: string)
    ensures IsLabel(line) <==>
      exists j :: 1 <= j < |line| && IsAlpha(line[0]) && (forall k :: 1 <= k < j ==> IsLabelChar(line[k])) && line[j] == ':'
  {
    if j :| 1 <= j < |line| && IsAlpha(line[0]) && (forall k :: 1 <= k < j ==> IsLabelChar(line[k])) && line[j] == ':' {
      SkipLabelCharsRun(line, 1, j);
    }
  }

  /** `parse_label`: the text before the first `:` (Python's `line[:-1]` when there is none). */
  function ParseLabel(line: string): string {
    var i := Find(line, ':');
    if i >= 0 then line[..i] else if line == [] then [] else line[..|line| - 1]
  }

  /** A label line's name is its leading run of label characters: a letter, then `[-_0-9a-zA-Z]*`. */
  lemma ParseLabelName(line: string)
    requires IsLabel(line)
    ensures ParseLabel(line) == line[..SkipLabelChars(line, 1)]
    ensures ParseLabel(line) != [] && IsAlpha(ParseLabel(line)[0])
    ensures forall k :: 0 <= k < |ParseLabel(line)| ==> IsLabelChar(ParseLabel(line)[k])
  {
    var j := SkipLabelChars(line, 1);
    IndexOfFirst(line, ':', j);
  }

  /** The first three characters, or the whole line when it is shorter. */
  function Head(line: string): string {
    if |line| < 3 then line else line[..3]
  }

  /** `is_opcode`: a known mnemonic, then the end of the line or a space. */
  predicate IsOpcode(line: string) {
    FromName(Head(line)).Some? && (|line| <= 3 || line[3] == ' ')
  }

  /** An operation line is a mnemonic alone, or a mnemonic and a space followed by anything. */
  lemma IsOpcodeMeans(line: string)
    ensures IsOpcode(line) <==>
      exists m: Mnemonic :: line == Name(m) || (|line| > 3 && line[..3] == Name(m) && line[3] == ' ')
  {
    if IsOpcode(line) {
      var m := FromName(Head(line)).value;
      assert |line| == 3 ==> line == Name(m);
    }
    if m: Mnemonic :| line == Name(m) || (|line| > 3 && line[..3] == Name(m) && line[3] == ' ') {
      NameBijection(m, Name(m));
      assert Head(line) == Name(m);
    }
  }

  // ---------------------------------------------------------------------
  // find_labels

  /**
   * The label pass over the first `|lines|` lines: each label maps to
   * ADDR_PRG plus its line number; a second line with the same name fails.
   */
  function LabelsOf(lines: seq<string>): Result<Labels, CompileError>
    decreases |lines|
  {
    if lines == [] then
      Success(map[])
    else
      var n := |lines| - 1;
      var prior := LabelsOf(lines[..n]);
      if prior.Failure? || !IsLabel(lines[n]) then
        prior
      else
        var name := ParseLabel(lines[n]);
        if name in prior.value then Failure(DuplicateLabel(name)) else Success(prior.value[name := ADDR_PRG + n])
  }

  /** A label pass that succeeds maps exactly the label names, each to the address of its line. */
  lemma {:induction false} LabelsOfAddresses(lines: seq<string>)
    requires LabelsOf(lines).Success?
    ensures var m := LabelsOf(lines).value;
      forall i :: 0 <= i < |lines| && IsLabel(lines[i]) ==> ParseLabel(lines[i]) in m && m[ParseLabel(lines[i])] == ADDR_PRG + i
    decreases |lines|
  {
    if lines != [] {
      var n := |lines| - 1;
      var prefix := lines[..n];
      LabelsOfAddresses(prefix);
      assert forall i :: 0 <= i < n ==> prefix[i] == lines[i];
    }
  }

  /** Every name in a successful label map names a label line, and maps to that line's address. */
  lemma {:induction false} LabelsOfNames(lines: seq<string>)
    requires LabelsOf(lines).Success?
    ensures var m := LabelsOf(lines).value;
      forall name :: name in m ==> exists i :: 0 <= i < |lines| && IsLabel(lines[i]) && ParseLabel(lines[i]) == name && m[name] == ADDR_PRG + i
    decreases |lines|
  {
    if lines != [] {
      var n := |lines| - 1;
      var prefix := lines[..n];
      LabelsOfNames(prefix);
      assert forall i :: 0 <= i < n ==> prefix[i] == lines[i];
    }
  }

  /** Two different lines carry the same label name. */
  predicate HasDuplicateLabel(lines: seq<string>) {
    exists i, j :: 0 <= i < j < |lines| && IsLabel(lines[i]) && IsLabel(lines[j]) && ParseLabel(lines[i]) == ParseLabel(lines[j])
  }

  /** A label pass that succeeds saw no name twice: a name maps to one address only. */
  lemma LabelsOfDistinct(lines: seq<string>)
    requires LabelsOf(lines).Success?
    ensures !HasDuplicateLabel(lines)
  {
    LabelsOfAddresses(lines);
  }

  /** A label pass that fails saw some name twice. */
  lemma {:induction false} LabelsOfDuplicate(lines: seq<string>)
    requires LabelsOf(lines).Failure?
    ensures HasDuplicateLabel(lines)
    decreases |lines|
  {
    var n := |lines| - 1;
    var prefix := lines[..n];
    if LabelsOf(prefix).Failure? {
      LabelsOfDuplicate(prefix);
      var i, j :| 0 <= i < j < |prefix| && IsLabel(prefix[i]) && IsLabel(prefix[j]) && ParseLabel(prefix[i]) == ParseLabel(prefix[j]);
      assert prefix[i] == lines[i] && prefix[j] == lines[j];
    } else {
      LabelsOfNames(prefix);
      var name := ParseLabel(lines[n]);
      var i :| 0 <= i < n && IsLabel(prefix[i]) && ParseLabel(prefix[i]) == name && LabelsOf(prefix).value[name] == ADDR_PRG + i;
      assert prefix[i] == lines[i];
    }
  }

  /** The label pass fails exactly when two lines carry the same label name. */
  lemma LabelsOfFails(lines: seq<string>)
    ensures LabelsOf(lines).Failure? <==> HasDuplicateLabel(lines)
  {
    if LabelsOf(lines).Success? {
      LabelsOfDistinct(lines);
    } else {
      LabelsOfDuplicate(lines);
    }
  }

  /** Once the label pass has failed on a prefix, it fails with the same error on the whole. */
  lemma {:induction false} LabelsOfStops(lines: seq<string>, k: nat)
    requires k <= |lines| && LabelsOf(lines[..k]).Failure?
    ensures LabelsOf(lines) == LabelsOf(lines[..k])
    decreases |lines| - k
  {
    if k < |lines| {
      var prefix := lines[..|lines| - 1];
      assert prefix[..k] == lines[..k];
      LabelsOfStops(prefix, k);
    } else {
      assert lines[..k] == lines;
    }
  }

  /** Without label lines the label map is empty. */
  lemma {:induction false} LabelsOfNone(lines: seq<string>)
    requires forall k :: 0 <= k < |lines| ==> !IsLabel(lines[k])
    ensures LabelsOf(lines) == Success(map[])
    decreases |lines|
  {
    if lines != [] {
      LabelsOfNone(lines[..|lines| - 1]);
    }
  }

  /** `find_labels`: one pass over the lines, filling the map. */
  method FindLabels(lines: seq<string>) returns (r: Result<Labels, CompileError>)
    ensures r == LabelsOf(lines)
  {
    var labels: Labels := map[];
    var i := 0;
    while i < |lines|
      invariant i <= |lines|
      invariant LabelsOf(lines[..i]) == Success(labels)
    {
      assert lines[..i + 1][..i] == lines[..i];
      if IsLabel(lines[i]) {
        var name := ParseLabel(lines[i]);
        if name in labels {
          LabelsOfStops(lines, i + 1);
          return Failure(DuplicateLabel(name));
        }
        labels := labels[name := ADDR_PRG + i];
      }
      i := i + 1;
    }
    assert lines[..i] == lines;
    r := Success(labels);
  }

  // ---------------------------------------------------------------------
  // Passes that translate every element in turn and stop at the first error

  /** `f` applied to every element in order, or the error of the first element it rejects. */
  function Traverse<A, B, E>(f: A -> Result<B, E>, xs: seq<A>): Result<seq<B>, E>
    decreases |xs|
  {
    if xs == [] then
      Success([])
    else
      var n := |xs| - 1;
      match Traverse(f, xs[..n])
      case Failure(e) => Failure(e)
      case Success(prior) =>
        match f(xs[n])
        case Failure(e) => Failure(e)
        case Success(y) => Success(prior + [y])
  }

  /** One more element: the pass over a longer prefix extends the shorter one's result, or keeps its error. */
  lemma TraverseNext<A, B, E>(f: A -> Result<B, E>, xs: seq<A>, i: nat)
    requires i < |xs|
    ensures Traverse(f, xs[..i + 1]) ==
      match Traverse(f, xs[..i])
      case Failure(e) => Failure(e)
      case Success(prior) =>
        match f(xs[i])
        case Failure(e) => Failure(e)
        case Success(y) => Success(prior + [y])
  {
    assert xs[..i + 1][..i] == xs[..i];
  }

  /** A pass succeeds exactly when every element does, and then yields one result per element, in order. */
  lemma {:induction false} TraverseSucceeds<A, B, E>(f: A -> Result<B, E>, xs: seq<A>)
    ensures Traverse(f, xs).Success? <==> forall k :: 0 <= k < |xs| ==> f(xs[k]).Success?
    ensures Traverse(f, xs).Success? ==>
      |Traverse(f, xs).value| == |xs| && forall k :: 0 <= k < |xs| ==> f(xs[k]) == Success(Traverse(f, xs).value[k])
    decreases |xs|
  {
    if xs != [] {
      var n := |xs| - 1;
      TraverseSucceeds(f, xs[..n]);
      assert forall k :: 0 <= k < n ==> xs[..n][k] == xs[k];
    }
  }

  /** When element `i` is the first rejected one, the pass fails with its error. */
  lemma {:induction false} TraverseFirstFailure<A, B, E>(f: A -> Result<B, E>, xs: seq<A>, i: nat)
    requires i < |xs| && f(xs[i]).Failure?
    requires forall k :: 0 <= k < i ==> f(xs[k]).Success?
    ensures Traverse(f, xs) == Failure(f(xs[i]).error)
    decreases |xs|
  {
    var n := |xs| - 1;
    var prefix := xs[..n];
    if i < n {
      assert forall k :: 0 <= k < n ==> prefix[k] == xs[k];
      TraverseFirstFailure(f, prefix, i);
    } else {
      TraverseSucceeds(f, prefix);
    }
  }

  /** Once a pass has failed on a prefix, later elements do not change the result. */
  lemma {:induction false} TraverseStops<A, B, E>(f: A -> Result<B, E>, xs: seq<A>, k: nat)
    requires k <= |xs| && Traverse(f, xs[..k]).Failure?
    ensures Traverse(f, xs) == Traverse(f, xs[..k])
    decreases |xs| - k
  {
    if k < |xs| {
      var prefix := xs[..|xs| - 1];
      assert prefix[..k] == xs[..k];
      TraverseStops(f, prefix, k);
    } else {
      assert xs[..k] == xs;
    }
  }

  /** When every element translates to the matching result, the pass yields them all. */
  lemma {:induction false} TraverseOfEach<A, B, E>(f: A -> Result<B, E>, xs: seq<A>, ys: seq<B>)
    requires |xs| == |ys|
    requires forall k :: 0 <= k < |xs| ==> f(xs[k]) == Success(ys[k])
    ensures Traverse(f, xs) == Success(ys)
    decreases |xs|
  {
    if xs != [] {
      var n := |xs| - 1;
      assert forall k :: 0 <= k < n ==> xs[..n][k] == xs[k];
      TraverseOfEach(f, xs[..n], ys[..n]);
      assert ys[..n] + [ys[n]] == ys;
    }
  }


  /**
   * `eval` of a stripped, nonempty operand text in lrc/lrc.py: without a
   * comma an int; with commas a tuple, where one trailing comma is allowed.
   */
  function EvalData(labels: Labels, text: string): Option<Data> {
    var parts := Split(text, ',');
    if |parts| == 1 then
      match EvalAtom(labels, parts[0])
      case None => None
      case Some(n) => Some(Scalar(n))
    else
      var items := if TrimBlanks(parts[|parts| - 1]) == [] then parts[..|parts| - 1] else parts;
      match EvalAll(labels, items)
      case None => None
      case Some(ns) => Some(Tuple(ns))
  }

  // ---------------------------------------------------------------------
  // parse_opcode and compile

  /** The operand text of an operation line: what follows the mnemonic, stripped. */
  function Arguments(line: string): string
    requires |line| >= 3
  {
    Strip(line[3..])
  }

  /** `parse_opcode` of lrc/lrc.py: `eval` the operand text and pass the value to the constructor. */
  function ParseReference(labels: Labels, m: Mnemonic, line: string): (r: Result<Instruction, CompileError>)
    requires |line| >= 3
    ensures r.Success? ==> r.value.mnemonic == m
  {
    var data := Arguments(line);
    var value := if data == [] then Some(Blank) else EvalData(labels, data);
    match value
    case None => Failure(EvalFailed(data))
    case Some(d) =>
      match Construct(m, d)
      case None => Failure(BadOperands(line))
      case Some(ins) => Success(ins)
  }

  /**
   * `parse_opcode` of lrc/compiler.py: `lo` and `hi` start at 0; nonempty
   * operand text is split on `,`, the first part gives `lo` and, when there
   * are exactly two parts, the second gives `hi`.
   */
  function ParsePackaged(labels: Labels, m: Mnemonic, line: string): (r: Result<Instruction, CompileError>)
    requires |line| >= 3
    ensures r.Success? ==> r.value.mnemonic == m
  {
    var data := Arguments(line);
    if data == [] then
      Success(Instruction(m, 0, 0))
    else
      var parts := Split(data, ',');
      match EvalAtom(labels, parts[0])
      case None => Failure(EvalFailed(parts[0]))
      case Some(lo) =>
        if |parts| != 2 then
          Success(Instruction(m, lo, 0))
        else
          match EvalAtom(labels, parts[1])
          case None => Failure(EvalFailed(parts[1]))
          case Some(hi) => Success(Instruction(m, lo, hi))
  }

  /** One line of the second pass: a label line is a NUL, an operation line is parsed, anything else is an error. */
  function CompileLine(dialect: Dialect, labels: Labels, line: string): (r: Result<Instruction, CompileError>)
    ensures IsLabel(line) ==> r == Success(Instruction(NUL, 0, 0))
    ensures !IsLabel(line) && !IsOpcode(line) ==> r == Failure(UnrecognizedInstruction(line))
    ensures r.Success? ==> IsLabel(line) || (IsOpcode(line) && r.value.mnemonic == FromName(line[..3]).value)
  {
    if IsLabel(line) then
      Success(Instruction(NUL, 0, 0))
    else if IsOpcode(line) then
      var m := FromName(line[..3]).value;
      match dialect
      case Reference => ParseReference(labels, m, line)
      case Packaged => ParsePackaged(labels, m, line)
    else
      Failure(UnrecognizedInstruction(line))
  }

  /** The second pass over the lines: one instruction per line, or the first error. */
  function CompileLines(dialect: Dialect, labels: Labels, lines: seq<string>): Result<seq<Instruction>, CompileError> {
    Traverse(line => CompileLine(dialect, labels, line), lines)
  }

  /** `compile`: prepare, find the labels, then translate every line. */
  function CompileProgram(dialect: Dialect, program: string): Result<seq<Instruction>, CompileError> {
    var lines := Prepare(program);
    match LabelsOf(lines)
    case Failure(e) => Failure(e)
    case Success(labels) => CompileLines(dialect, labels, lines)
  }

  /**
   * A second pass that succeeds gives exactly one instruction per line, in
   * order: a NUL for each label line, an op of the line's own mnemonic for
   * each other line, and so every line was a label or an operation.
   */
  lemma CompileLinesShape(dialect: Dialect, labels: Labels, lines: seq<string>)
    requires CompileLines(dialect, labels, lines).Success?
    ensures var out := CompileLines(dialect, labels, lines).value;
      |out| == |lines|
      && forall k :: 0 <= k < |lines| ==>
        (IsLabel(lines[k]) ==> out[k] == Instruction(NUL, 0, 0))
        && (!IsLabel(lines[k]) ==> IsOpcode(lines[k]) && out[k].mnemonic == FromName(lines[k][..3]).value)
  {
    TraverseSucceeds(line => CompileLine(dialect, labels, line), lines);
  }

  /** The first line that is neither a label nor an operation raises UnrecognizedInstruction with that line. */
  lemma CompileLinesUnrecognized(dialect: Dialect, labels: Labels, lines: seq<string>, i: nat)
    requires i < |lines| && !IsLabel(lines[i]) && !IsOpcode(lines[i])
    requires forall k :: 0 <= k < i ==> CompileLine(dialect, labels, lines[k]).Success?
    ensures CompileLines(dialect, labels, lines) == Failure(UnrecognizedInstruction(lines[i]))
  {
    TraverseFirstFailure(line => CompileLine(dialect, labels, line), lines, i);
  }

  /** `compile` as a loop over the prepared lines, after the label pass. */
  method Compile(dialect: Dialect, program: string) returns (r: Result<seq<Instruction>, CompileError>)
    ensures r == CompileProgram(dialect, program)
  {
    var lines := Prepare(program);
    var found := FindLabels(lines);
    if found.Failure? {
      return Failure(found.error);
    }
    r := TranslateLines(dialect, found.value, lines);
  }

  /** The loop of `compile`: translate the lines in order, stopping at the first error. */
  method TranslateLines(dialect: Dialect, labels: Labels, lines: seq<string>) returns (r: Result<seq<Instruction>, CompileError>)
    ensures r == CompileLines(dialect, labels, lines)
  {
    ghost var f := line => CompileLine(dialect, labels, line);
    var instructions: seq<Instruction> := [];
    var i := 0;
    while i < |lines|
      invariant i <= |lines|
      invariant Traverse(f, lines[..i]) == Success(instructions)
    {
      var line := lines[i];
      var next := CompileLine(dialect, labels, line);
      TraverseNext(f, lines, i);
      if next.Failure? {
        TraverseStops(f, lines, i + 1);
        return Failure(next.error);
      }
      instructions := instructions + [next.value];
      i := i + 1;
    }
    assert lines[..i] == lines;
    r := Success(instructions);
  }

  // ---------------------------------------------------------------------
  // Listings: the text form of an instruction compiles back to it

  /** The operand text of an instruction: `lo`, or `lo, hi` for binary ops. */
  function Operands(ins: Instruction): string {
    match ArityOf(ins.mnemonic)
    case Nullary => ""
    case Unary => Show(ins.lo)
    case Binary => Show(ins.lo) + ", " + Show(ins.hi)
  }

  /** An instruction written out as a line: the mnemonic, then a space and the operands if it has any. */
  function Render(ins: Instruction): string {
    Name(ins.mnemonic) + if ArityOf(ins.mnemonic) == Nullary then "" else " " + Operands(ins)
  }

  /** An instruction a constructor of lrc/lrc.py can produce: 16-bit fields, unused ones zero. */
  predicate Canonical(ins: Instruction) {
    0 <= ins.lo < MASK16 && 0 <= ins.hi < MASK16
    && (ArityOf(ins.mnemonic) != Binary ==> ins.hi == 0)
    && (ArityOf(ins.mnemonic) == Nullary ==> ins.lo == 0)
  }

  /** A rendered line is classified as an operation of its mnemonic, and its operand text is `Operands`. */
  lemma RenderClassified(ins: Instruction)
    ensures var line := Render(ins);
      |line| >= 3 && !IsLabel(line) && IsOpcode(line) && FromName(line[..3]) == Some(ins.mnemonic)
      && Arguments(line) == Operands(ins)
  {
    var m := ins.mnemonic;
    var line := Render(ins);
    NameIsUpper(m);
    NameBijection(m, Name(m));
    assert line[..3] == Name(m);
    assert Head(line) == Name(m);
    assert 3 < |line| ==> line[3] == ' ';
    SkipLabelCharsRun(line, 1, 3);
    ShowChars(ins.lo);
    ShowChars(ins.hi);
    if ArityOf(m) == Nullary {
      assert line[3..] == [];
      StripFixed([]);
    } else {
      assert line[3..] == [' '] + Operands(ins);
      StripPadded(Operands(ins));
    }
  }

  /** The two operands of a binary op's text are the parts of a split on `,`. */
  lemma SplitOperands(ins: Instruction)
    requires ArityOf(ins.mnemonic) == Binary
    ensures Split(Operands(ins), ',') == [Show(ins.lo), " " + Show(ins.hi)]
  {
    var lo := Show(ins.lo);
    var hi := Show(ins.hi);
    ShowChars(ins.lo);
    ShowChars(ins.hi);
    assert Operands(ins) == Join([lo, " " + hi], ',') by {
      assert [lo, " " + hi][1..] == [" " + hi];
    }
    SplitOfJoin([lo, " " + hi], ',');
  }

  /** The decimal form of an int holds no comma, so it is one part of a split on `,`. */
  lemma SplitShow(n: int)
    ensures Split(Show(n), ',') == [Show(n)]
  {
    ShowChars(n);
    IndexOfAbsent(Show(n), ',');
  }

  /** lrc/lrc.py's parser reads the operand text of a canonical instruction back as it. */
  lemma ReferenceOfOperands(labels: Labels, ins: Instruction, line: string)
    requires Canonical(ins) && |line| >= 3 && Arguments(line) == Operands(ins)
    ensures ParseReference(labels, ins.mnemonic, line) == Success(ins)
  {
    match ArityOf(ins.mnemonic)
    case Nullary =>
    case Unary => ReferenceOfUnary(labels, ins, line);
    case Binary => ReferenceOfBinary(labels, ins, line);
  }

  lemma ReferenceOfUnary(labels: Labels, ins: Instruction, line: string)
    requires Canonical(ins) && ArityOf(ins.mnemonic) == Unary
    requires |line| >= 3 && Arguments(line) == Show(ins.lo)
    ensures ParseReference(labels, ins.mnemonic, line) == Success(ins)
  {
    SplitShow(ins.lo);
    EvalShow(labels, ins.lo);
    assert EvalData(labels, Show(ins.lo)) == Some(Scalar(ins.lo));
  }

  /** The operand text of a binary instruction evaluates to the tuple of its operands. */
  lemma EvalDataOfOperands(labels: Labels, ins: Instruction)
    requires ArityOf(ins.mnemonic) == Binary
    ensures EvalData(labels, Operands(ins)) == Some(Tuple([ins.lo, ins.hi]))
  {
    var lo := Show(ins.lo);
    var hi := Show(ins.hi);
    SplitOperands(ins);
    TrimShow(" ", ins.hi);
    EvalShow(labels, ins.lo);
    EvalAtomOfShow(labels, " ", ins.hi);
    EvalPair(labels, lo, " " + hi, ins.lo, ins.hi);
  }

  lemma ReferenceOfBinary(labels: Labels, ins: Instruction, line: string)
    requires Canonical(ins) && ArityOf(ins.mnemonic) == Binary
    requires |line| >= 3 && Arguments(line) == Operands(ins)
    ensures ParseReference(labels, ins.mnemonic, line) == Success(ins)
  {
    var pair := [ins.lo, ins.hi];
    assert pair[0] % MASK16 == ins.lo && pair[1] % MASK16 == ins.hi;
    assert Construct(ins.mnemonic, Tuple(pair)) == Some(ins);
    assert Arguments(line) != [];
    EvalDataOfOperands(labels, ins);
  }

  /** lrc/compiler.py's parser reads the operand text of a canonical instruction back as it. */
  lemma PackagedOfOperands(labels: Labels, ins: Instruction, line: string)
    requires Canonical(ins) && |line| >= 3 && Arguments(line) == Operands(ins)
    ensures ParsePackaged(labels, ins.mnemonic, line) == Success(ins)
  {
    match ArityOf(ins.mnemonic)
    case Nullary =>
    case Unary => PackagedOfUnary(labels, ins, line);
    case Binary => PackagedOfBinary(labels, ins, line);
  }

  lemma PackagedOfUnary(labels: Labels, ins: Instruction, line: string)
    requires Canonical(ins) && ArityOf(ins.mnemonic) == Unary
    requires |line| >= 3 && Arguments(line) == Show(ins.lo)
    ensures ParsePackaged(labels, ins.mnemonic, line) == Success(ins)
  {
    SplitShow(ins.lo);
    TrimShow([], ins.lo);
    EvalShow(labels, ins.lo);
  }

  lemma PackagedOfBinary(labels: Labels, ins: Instruction, line: string)
    requires Canonical(ins) && ArityOf(ins.mnemonic) == Binary
    requires |line| >= 3 && Arguments(line) == Operands(ins)
    ensures ParsePackaged(labels, ins.mnemonic, line) == Success(ins)
  {
    assert |Operands(ins)| >= 2;
    SplitOperands(ins);
    EvalShow(labels, ins.lo);
    EvalAtomOfShow(labels, " ", ins.hi);
  }

  /** Both parsers read a rendered canonical instruction back as it was. */
  lemma CompileLineOfRender(dialect: Dialect, labels: Labels, ins: Instruction)
    requires Canonical(ins)
    ensures CompileLine(dialect, labels, Render(ins)) == Success(ins)
  {
    RenderClassified(ins);
    match dialect
    case Reference => ReferenceOfOperands(labels, ins, Render(ins));
    case Packaged => PackagedOfOperands(labels, ins, Render(ins));
  }

  /** The text of a listing: each instruction rendered on its own line. */
  function Listing(program: seq<Instruction>): string {
    Terminated(seq(|program|, i requires 0 <= i < |program| => Render(program[i])))
  }

  /** A rendered canonical instruction is a prepared, unlabelled line that compiles back to it. */
  lemma ListedLine(dialect: Dialect, ins: Instruction)
    requires Canonical(ins)
    ensures var line := Render(ins);
      NoLineBreak(line) && !IsComment(line) && !IsSpace(line[0]) && !IsSpace(line[|line| - 1])
      && !IsLabel(line) && CompileLine(dialect, map[], line) == Success(ins)
  {
    RenderShape(ins);
    CompileLineOfRender(dialect, map[], ins);
  }

  /** Assembling the listing of canonical instructions gives back exactly those instructions. */
  lemma CompileOfListing(dialect: Dialect, program: seq<Instruction>)
    requires forall k :: 0 <= k < |program| ==> Canonical(program[k])
    ensures CompileProgram(dialect, Listing(program)) == Success(program)
  {
    var lines := seq(|program|, i requires 0 <= i < |program| => Render(program[i]));
    forall k | 0 <= k < |lines|
      ensures NoLineBreak(lines[k]) && !IsComment(lines[k]) && !IsSpace(lines[k][0]) && !IsSpace(lines[k][|lines[k]| - 1])
      ensures !IsLabel(lines[k]) && CompileLine(dialect, map[], lines[k]) == Success(program[k])
    {
      ListedLine(dialect, program[k]);
    }
    assert Listing(program) == Terminated(lines);
    SplitLinesOfTerminated(lines);
    PrepareClean(lines);
    assert Prepare(Listing(program)) == lines;
    LabelsOfNone(lines);
    TraverseOfEach(line => CompileLine(dialect, map[], line), lines, program);
    assert CompileLines(dialect, map[], lines) == Success(program);
  }

  /** A rendered line holds no line break, starts with a letter and ends with a letter or digit. */
  lemma RenderShape(ins: Instruction)
    ensures var line := Render(ins);
      NoLineBreak(line) && line != [] && IsAlpha(line[0]) && !IsSpace(line[|line| - 1])
  {
    var m := ins.mnemonic;
    NameIsUpper(m);
    ShowChars(ins.lo);
    ShowChars(ins.hi);
    assert NoLineBreak(Name(m)) && NoLineBreak(Show(ins.lo)) && NoLineBreak(Show(ins.hi));
    NoLineBreakAppend(Show(ins.lo), ", ");
    NoLineBreakAppend(Show(ins.lo) + ", ", Show(ins.hi));
    NoLineBreakAppend(" ", Operands(ins));
    NoLineBreakAppend(Name(m), if ArityOf(m) == Nullary then "" else " " + Operands(ins));
  }

  // ---------------------------------------------------------------------
  // Operand text: what each parser makes of it

  /** lrc/lrc.py with no operand text passes `""` to the constructor: only a nullary op accepts it. */
  lemma ParseReferenceBlank(labels: Labels, m: Mnemonic, line: string)
    requires |line| >= 3 && Arguments(line) == []
    ensures ParseReference(labels, m, line) ==
      if ArityOf(m) == Nullary then Success(Instruction(m, 0, 0)) else Failure(BadOperands(line))
  {
  }

  /**
   * lrc/lrc.py on operand text without a comma: one `eval`, whose value a
   * nullary op ignores, a unary op keeps mod 2^16 and a binary op cannot unpack.
   */
  lemma ParseReferenceScalar(labels: Labels, m: Mnemonic, line: string)
    requires |line| >= 3 && Arguments(line) != [] && ',' !in Arguments(line)
    ensures ParseReference(labels, m, line) ==
      match EvalAtom(labels, Arguments(line))
      case None => Failure(EvalFailed(Arguments(line)))
      case Some(x) =>
        match ArityOf(m)
        case Nullary => Success(Instruction(m, 0, 0))
        case Unary => Success(Instruction(m, x % MASK16, 0))
        case Binary => Failure(BadOperands(line))
  {
    IndexOfAbsent(Arguments(line), ',');
  }

  /** Text that evaluates is not blank. */
  lemma EvalAtomNotBlank(labels: Labels, text: string)
    requires EvalAtom(labels, text).Some?
    ensures TrimBlanks(text) != []
  {
    assert Signed(labels, []) == None;
  }

  /**
   * lrc/lrc.py on operand text `a,b`: a pair, which a binary op keeps mod
   * 2^16, a unary op cannot take as an int and a nullary op ignores.
   */
  lemma ParseReferencePair(labels: Labels, m: Mnemonic, line: string, a: string, b: string, x: int, y: int)
    requires |line| >= 3 && Arguments(line) == a + "," + b && ',' !in a && ',' !in b
    requires EvalAtom(labels, a) == Some(x) && EvalAtom(labels, b) == Some(y)
    ensures ParseReference(labels, m, line) ==
      match ArityOf(m)
      case Nullary => Success(Instruction(m, 0, 0))
      case Unary => Failure(BadOperands(line))
      case Binary => Success(Instruction(m, x % MASK16, y % MASK16))
  {
    EvalDataOfPair(labels, a, b, x, y);
    var pair := [x, y];
    assert pair[0] == x && pair[1] == y;
  }

  /** Text `a,b` whose parts both evaluate is the pair of their values. */
  lemma EvalDataOfPair(labels: Labels, a: string, b: string, x: int, y: int)
    requires ',' !in a && ',' !in b
    requires EvalAtom(labels, a) == Some(x) && EvalAtom(labels, b) == Some(y)
    ensures EvalData(labels, a + "," + b) == Some(Tuple([x, y]))
  {
    var parts := [a, b];
    assert parts[1..] == [b];
    assert Join(parts, ',') == a + "," + b;
    SplitOfJoin(parts, ',');
    EvalAtomNotBlank(labels, b);
    EvalPair(labels, a, b, x, y);
  }

  /** lrc/compiler.py with no operand text leaves `lo` and `hi` at 0, for every op. */
  lemma ParsePackagedBlank(labels: Labels, m: Mnemonic, line: string)
    requires |line| >= 3 && Arguments(line) == []
    ensures ParsePackaged(labels, m, line) == Success(Instruction(m, 0, 0))
  {
  }

  /**
   * lrc/compiler.py on operand text that is not exactly two comma parts: the
   * first part alone gives `lo`, `hi` stays 0, and the parts after the first
   * are ignored without being evaluated. No arity is checked and nothing is masked.
   */
  lemma ParsePackagedFirstPart(labels: Labels, m: Mnemonic, line: string, first: string, rest: seq<string>)
    requires |line| >= 3 && Arguments(line) != []
    requires |rest| != 1 && ',' !in first && forall k :: 0 <= k < |rest| ==> ',' !in rest[k]
    requires Arguments(line) == Join([first] + rest, ',')
    ensures ParsePackaged(labels, m, line) ==
      match EvalAtom(labels, first)
      case None => Failure(EvalFailed(first))
      case Some(x) => Success(Instruction(m, x, 0))
  {
    var parts := [first] + rest;
    assert parts[0] == first;
    assert forall k :: 0 <= k < |parts| ==> ',' !in parts[k] by {
      forall k | 0 <= k < |parts|
        ensures ',' !in parts[k]
      {
        if k > 0 {
          assert parts[k] == rest[k - 1];
        }
      }
    }
    SplitOfJoin(parts, ',');
  }

  /** lrc/compiler.py on operand text `a,b`: `lo` is `a`'s value and `hi` is `b`'s, unmasked, for every op. */
  lemma ParsePackagedPair(labels: Labels, m: Mnemonic, line: string, a: string, b: string)
    requires |line| >= 3 && Arguments(line) == a + "," + b && ',' !in a && ',' !in b
    ensures ParsePackaged(labels, m, line) ==
      match EvalAtom(labels, a)
      case None => Failure(EvalFailed(a))
      case Some(x) =>
        match EvalAtom(labels, b)
        case None => Failure(EvalFailed(b))
        case Some(y) => Success(Instruction(m, x, y))
  {
    var parts := [a, b];
    assert parts[1..] == [b];
    assert Join(parts, ',') == a + "," + b;
    SplitOfJoin(parts, ',');
  }

  /** A label name without `-` is a Python name. */
  lemma LabelNameIsIdentifier(line: string)
    requires IsLabel(line) && '-' !in ParseLabel(line)
    ensures IsIdentifier(ParseLabel(line)) && ParseLabel(line) != DEBUG_NAME
  {
    var name := ParseLabel(line);
    ParseLabelName(line);
    forall k | 1 <= k < |name|
      ensures IsAlpha(name[k]) || IsDigit(name[k]) || name[k] == '_'
    {
      assert IsLabelChar(name[k]) && name[k] != '-';
    }
    assert !IsAlpha(DEBUG_NAME[0]);
  }

  /** `XXX name` for the mnemonic XXX is an operation line whose operand text is `name`. */
  lemma NamedOperandLine(m: Mnemonic, name: string)
    requires IsIdentifier(name)
    ensures var line := Name(m) + " " + name;
      !IsLabel(line) && IsOpcode(line) && FromName(line[..3]) == Some(m) && Arguments(line) == name
  {
    var line := Name(m) + " " + name;
    NameIsUpper(m);
    NameBijection(m, Name(m));
    assert line[..3] == Name(m);
    assert Head(line) == Name(m);
    assert line[3] == ' ';
    SkipLabelCharsRun(line, 1, 3);
    assert line[3..] == [' '] + name;
    assert !IsSpace(name[|name| - 1]) by {
      if |name| > 1 {
        var c := name[|name| - 1];
        assert IsAlpha(c) || IsDigit(c) || c == '_';
      }
    }
    StripPadded(name);
  }

  /** A unary op whose operand is a name bound in the labels gets the label's value (lrc/lrc.py keeps it mod 2^16). */
  lemma CompileLineOfName(dialect: Dialect, labels: Labels, m: Mnemonic, name: string)
    requires IsIdentifier(name) && !IsKeyword(name) && name != DEBUG_NAME && name in labels
    requires ArityOf(m) == Unary
    ensures CompileLine(dialect, labels, Name(m) + " " + name) ==
      Success(Instruction(m, if dialect == Reference then labels[name] % MASK16 else labels[name], 0))
  {
    NamedOperandLine(m, name);
    match dialect
    case Reference => ReferenceOfName(labels, m, name);
    case Packaged => PackagedOfName(labels, m, name);
  }

  /** lrc/lrc.py: a unary op on a label name keeps the label's value mod 2^16. */
  lemma ReferenceOfName(labels: Labels, m: Mnemonic, name: string)
    requires IsIdentifier(name) && !IsKeyword(name) && name != DEBUG_NAME && name in labels
    requires ArityOf(m) == Unary
    ensures ParseReference(labels, m, Name(m) + " " + name) == Success(Instruction(m, labels[name] % MASK16, 0))
  {
    var line := Name(m) + " " + name;
    EvalAtomOfName(labels, name);
    NamedOperandLine(m, name);
    ParseReferenceScalar(labels, m, line);
  }

  /** lrc/compiler.py: any op on a label name gets the label's value as `lo`. */
  lemma PackagedOfName(labels: Labels, m: Mnemonic, name: string)
    requires IsIdentifier(name) && !IsKeyword(name) && name != DEBUG_NAME && name in labels
    ensures ParsePackaged(labels, m, Name(m) + " " + name) == Success(Instruction(m, labels[name], 0))
  {
    var line := Name(m) + " " + name;
    EvalAtomOfName(labels, name);
    NamedOperandLine(m, name);
    assert [name] + [] == [name];
    ParsePackagedFirstPart(labels, m, line, name, []);
  }

  /**
   * Label resolution: a unary op whose operand is a label of the program gets
   * the address of the label's line, ADDR_PRG plus its index (lrc/lrc.py keeps
   * it mod 2^16). The name must not be a Python keyword or contain `-`, which
   * `eval` reads as something else.
   */
  lemma CompileLineOfLabelOperand(dialect: Dialect, lines: seq<string>, labels: Labels, m: Mnemonic, j: nat)
    requires LabelsOf(lines) == Success(labels)
    requires j < |lines| && IsLabel(lines[j])
    requires '-' !in ParseLabel(lines[j]) && !IsKeyword(ParseLabel(lines[j]))
    requires ArityOf(m) == Unary
    ensures var address := ADDR_PRG + j;
      CompileLine(dialect, labels, Name(m) + " " + ParseLabel(lines[j])) ==
        Success(Instruction(m, if dialect == Reference then address % MASK16 else address, 0))
  {
    var name := ParseLabel(lines[j]);
    LabelAddress(lines, labels, j);
    LabelNameIsIdentifier(lines[j]);
    CompileLineOfName(dialect, labels, m, name);
  }

  /** The label on line j is bound to ADDR_PRG + j. */
  lemma LabelAddress(lines: seq<string>, labels: Labels, j: nat)
    requires LabelsOf(lines) == Success(labels)
    requires j < |lines| && IsLabel(lines[j])
    ensures ParseLabel(lines[j]) in labels && labels[ParseLabel(lines[j])] == ADDR_PRG + j
  {
    LabelsOfAddresses(lines);
  }
}
