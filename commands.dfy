/**
 * Instruction records (`createCommand`) and how one pre-processed line
 * becomes one record (`Parser.handleA`, `handleC`, `handleL`, `parse`).
 */
module Commands {
  import opened Wrappers
  import opened Text

  /**
   * The `value` of an A-record: the operand text as parsed, or, once
   * `handleVariables` has seen a digit-led operand, the number `parseInt`
   * gave for it (`NotANumber` for `NaN`).
   */
  datatype Operand = Name(name: string) | Number(n: nat) | NotANumber

  /** The three record shapes `createCommand` builds; `None` is `undefined`. */
  datatype Command =
    | A(value: Operand)
    | C(comp: string, dest: Option<string>, jmp: Option<string>)
    | L(labelName: string)

  predicate StartsWith(s: string, c: char) {
    |s| > 0 && s[0] == c
  }

  /** The first part of a split is the text up to the first separator. */
  lemma {:induction false} SplitHead(s: string, sep: char)
    ensures var p := Split(s, sep)[0];
      |p| <= |s| && p == s[..|p|] && (|p| == |s| || s[|p|] == sep)
  {
    if s != [] && s[0] != sep {
      SplitHead(s[1..], sep);
    }
  }

  /** A character absent from a text is absent from each of its split parts. */
  lemma {:induction false} SplitPartsLack(s: string, sep: char, c: char)
    requires c !in s
    ensures forall i :: 0 <= i < |Split(s, sep)| ==> c !in Split(s, sep)[i]
  {
    if s != [] {
      SplitPartsLack(s[1..], sep, c);
    }
  }

  /** `handleA`: the operand is the text between the first and the second `@`. */
  function ParseA(line: string): (cmd: Command)
    requires StartsWith(line, '@')
    ensures cmd.A? && cmd.value.Name?
    ensures var x := cmd.value.name;
      '@' !in x && |x| < |line| && line[..|x| + 1] == ['@'] + x
      && (|line| == |x| + 1 || line[|x| + 1] == '@')
  {
    var parts := Split(line, '@');
    assert parts[1] == Split(line[1..], '@')[0];
    SplitHead(line[1..], '@');
    A(Name(parts[1]))
  }

  /** `handleL`: the first and the last character are dropped, whatever they are. */
  function ParseL(line: string): (cmd: Command)
    ensures cmd.L?
    ensures |line| >= 2 ==> line == [line[0]] + cmd.labelName + [line[|line| - 1]]
    ensures |line| < 2 ==> cmd.labelName == ""
  {
    if |line| >= 2 then
      assert line == [line[0]] + line[1..|line| - 1] + [line[|line| - 1]];
      L(line[1..|line| - 1])
    else L("")
  }

  /**
   * `handleC`: the jump is the text after the first `;` (up to any second
   * one); the text before it is split at `=`. When there is a non-empty
   * part after the first `=`, that part is the computation and the part
   * before it the destination; otherwise the part before `=` is the
   * computation and there is no destination.
   */
  function ParseC(line: string): (cmd: Command)
    ensures cmd.C?
    ensures cmd.jmp.Some? <==> ';' in line
    ensures cmd.jmp.Some? ==> ';' !in cmd.jmp.value
    ensures ';' !in cmd.comp && '=' !in cmd.comp
    ensures cmd.dest.Some? ==> cmd.comp != "" && ';' !in cmd.dest.value && '=' !in cmd.dest.value
  {
    var parts := Split(line, ';');
    var exp := parts[0];
    var jmp := if |parts| >= 2 then Some(parts[1]) else None;
    var sides := Split(exp, '=');
    SplitPartsLack(exp, '=', ';');
    if |sides| < 2 || sides[1] == "" then C(sides[0], None, jmp)
    else C(sides[1], Some(sides[0]), jmp)
  }

  /** `parse`, for one line: the record kind is decided by the first character. */
  function ParseLine(line: string): (cmd: Command)
    ensures cmd.A? <==> StartsWith(line, '@')
    ensures cmd.L? <==> StartsWith(line, '(')
    ensures cmd.C? <==> !StartsWith(line, '@') && !StartsWith(line, '(')
  {
    if StartsWith(line, '@') then ParseA(line)
    else if StartsWith(line, '(') then ParseL(line)
    else ParseC(line)
  }

  /** `parse`: one record per line, in the same order. */
  function ParseLines(lines: seq<string>): (cmds: seq<Command>)
    ensures |cmds| == |lines|
    ensures forall i {:trigger cmds[i]} :: 0 <= i < |lines| ==> cmds[i] == ParseLine(lines[i])
  {
    if lines == [] then []
    else ParseLines(lines[..|lines| - 1]) + [ParseLine(lines[|lines| - 1])]
  }

  /** How a computation is written: `dest=comp;jmp`, with the absent parts left out. */
  function ShowC(comp: string, dest: Option<string>, jmp: Option<string>): string {
    (if dest.Some? then dest.value + "=" else "") + comp + (if jmp.Some? then ";" + jmp.value else "")
  }

  /** How a record is written as a source line. */
  function Show(cmd: Command): string {
    match cmd
    case A(v) => "@" + (match v case Name(x) => x case Number(n) => Decimal(n) case NotANumber => "NaN")
    case C(comp, dest, jmp) => ShowC(comp, dest, jmp)
    case L(x) => "(" + x + ")"
  }

  /** The records that a source line can spell out so that parsing gives them back. */
  predicate Writable(cmd: Command) {
    match cmd
    case A(v) => v.Name? && '@' !in v.name
    case C(comp, dest, jmp) =>
      && ';' !in comp && '=' !in comp
      && (dest.Some? ==> comp != "" && ';' !in dest.value && '=' !in dest.value)
      && (jmp.Some? ==> ';' !in jmp.value)
      && !StartsWith(ShowC(comp, dest, jmp), '@') && !StartsWith(ShowC(comp, dest, jmp), '(')
    case L(_) => true
  }

  /** Splitting `exp;jmp` at `;` gives `exp` and the jump back. */
  lemma SplitJump(exp: string, jmp: Option<string>)
    requires ';' !in exp && (jmp.Some? ==> ';' !in jmp.value)
    ensures var parts := Split(exp + (if jmp.Some? then ";" + jmp.value else ""), ';');
      parts[0] == exp && (|parts| >= 2 <==> jmp.Some?) && (jmp.Some? ==> parts[1] == jmp.value)
  {
    if jmp.Some? {
      var j := jmp.value;
      assert exp + (";" + j) == exp + [';'] + j;
      SplitPrefix(exp, j, ';');
      SplitNoSep(j, ';');
      assert Split(exp + [';'] + j, ';') == [exp, j];
    } else {
      assert exp + "" == exp;
      SplitNoSep(exp, ';');
    }
  }

  /** Splitting `dest=comp` at `=` gives the destination and the computation back. */
  lemma SplitDest(comp: string, dest: Option<string>)
    requires '=' !in comp && (dest.Some? ==> '=' !in dest.value)
    ensures var sides := Split((if dest.Some? then dest.value + "=" else "") + comp, '=');
      if dest.Some? then |sides| == 2 && sides[0] == dest.value && sides[1] == comp else sides == [comp]
  {
    if dest.Some? {
      SplitPrefix(dest.value, comp, '=');
      SplitNoSep(comp, '=');
      assert dest.value + "=" + comp == dest.value + ['='] + comp;
    } else {
      SplitNoSep(comp, '=');
      assert "" + comp == comp;
    }
  }

  lemma ParseCShow(comp: string, dest: Option<string>, jmp: Option<string>)
    requires ';' !in comp && '=' !in comp
    requires dest.Some? ==> comp != "" && ';' !in dest.value && '=' !in dest.value
    requires jmp.Some? ==> ';' !in jmp.value
    ensures ParseC(ShowC(comp, dest, jmp)) == C(comp, dest, jmp)
  {
    var exp := (if dest.Some? then dest.value + "=" else "") + comp;
    assert ';' !in exp;
    SplitJump(exp, jmp);
    SplitDest(comp, dest);
  }

  /**
   * `dest=` with nothing after the `=` (then perhaps `;jmp`): the computation
   * is empty, so the text before `=` becomes the computation and there is no
   * destination.
   */
  lemma ParseCEmptyComp(dest: string, jmp: Option<string>)
    requires ';' !in dest && '=' !in dest && (jmp.Some? ==> ';' !in jmp.value)
    ensures ParseC(dest + "=" + (if jmp.Some? then ";" + jmp.value else "")) == C(dest, None, jmp)
  {
    var exp := dest + "=";
    assert ';' !in exp;
    SplitJump(exp, jmp);
    assert exp == dest + ['='] + "";
    SplitPrefix(dest, "", '=');
  }

  /** Only the text between the first and the second `;` is the jump: what follows a second `;` is ignored. */
  lemma ParseCExtraJump(comp: string, dest: Option<string>, jmp: string, tail: string)
    requires ';' !in comp && '=' !in comp
    requires dest.Some? ==> comp != "" && ';' !in dest.value && '=' !in dest.value
    requires ';' !in jmp
    ensures ParseC(ShowC(comp, dest, Some(jmp)) + ";" + tail) == C(comp, dest, Some(jmp))
  {
    var exp := (if dest.Some? then dest.value + "=" else "") + comp;
    assert ';' !in exp;
    var line := ShowC(comp, dest, Some(jmp)) + ";" + tail;
    assert line == exp + [';'] + (jmp + [';'] + tail);
    SplitPrefix(exp, jmp + [';'] + tail, ';');
    SplitPrefix(jmp, tail, ';');
    SplitDest(comp, dest);
  }

  /** Parsing is the inverse of writing a record out, for every writable record. */
  lemma ParseLineShow(cmd: Command)
    requires Writable(cmd)
    ensures ParseLine(Show(cmd)) == cmd
  {
    match cmd
    case A(v) =>
      var line := Show(cmd);
      assert line == ['@'] + v.name;
      SplitPrefix("", v.name, '@');
      SplitNoSep(v.name, '@');
    case C(comp, dest, jmp) =>
      ParseCShow(comp, dest, jmp);
    case L(x) =>
      var line := Show(cmd);
      assert line[1..|line| - 1] == x;
  }
}
