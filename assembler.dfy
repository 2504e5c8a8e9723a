/**
 * `class Assembler`: the symbol table `sym`, the records `code` taken from a
 * `Parser`, the next variable address `varStart` and the output `compiled`.
 * The two JSON tables are the constants `predefined` and `translation`;
 * a thrown error is a `false` result of the method that throws.
 */
module Assembling {
  import opened Wrappers
  import opened Binary
  import opened Text
  import Lines
  import opened Commands
  import opened Symbols
  import opened Encoding
  import opened Parsing

  class Assembler {
    /** `predsym.json`: the default of `setup`'s `initials`. */
    const predefined: map<string, nat>
    /** `translations.json`. */
    const translation: Translation
    /** `undefined` (null) until `setup` has run. */
    var parser: Parser?
    var code: seq<Command>
    var sym: map<string, nat>
    var compiled: seq<string>
    var varStart: nat

    /** `new Assembler(code)`. */
    constructor (text: string, predefined: map<string, nat>, translation: Translation)
      ensures this.predefined == predefined && this.translation == translation
      ensures code == ParseLines(Lines.Preprocess(text)) && sym == predefined
      ensures compiled == [] && varStart == 16
    {
      this.predefined, this.translation := predefined, translation;
      parser, code, sym, compiled, varStart := null, [], map[], [], 0;
      new;
      Setup(text, predefined);
    }

    /** A fresh parser over `text`; its records become `code`. */
    method Setup(text: string, initials: map<string, nat>)
      modifies this
      ensures parser != null && fresh(parser)
      ensures code == ParseLines(Lines.Preprocess(text)) && sym == initials
      ensures compiled == [] && varStart == 16
    {
      var p := new Parser(text);
      ghost var lines := p.code;
      var records := p.Parse("");
      assert p.code == lines && records == [] + ParseLines(lines);
      assert [] + ParseLines(lines) == ParseLines(lines);
      parser, code := p, records;
      sym := initials;
      compiled := [];
      varStart := 16;
    }

    /**
     * Drops the label records, binding each label to the index of the next
     * A- or C-record. A label that is already a symbol throws (`ok` is
     * false): `code` is then left as it was, while `sym` keeps the labels
     * bound before the clash.
     */
    method HandleLabels() returns (ok: bool)
      modifies this`code, this`sym
      ensures ok <==> ScanLabels(old(code), old(sym)).duplicate.None?
      ensures sym == ScanLabels(old(code), old(sym)).table
      ensures code == if ok then NonLabels(old(code)) else old(code)
    {
      var commands: seq<Command>, table: map<string, nat> := code, sym;
      var rm := 0;
      var kept: seq<Command> := [];
      var i := 0;
      while i < |commands|
        invariant code == commands && sym == old(sym) && 0 <= i <= |commands|
        invariant ScanLabels(commands[..i], old(sym)) == LabelScan(table, None)
        invariant kept == NonLabels(commands[..i])
        invariant rm + |kept| == i
      {
        var command := commands[i];
        NonLabelsPrefix(commands, i);
        ScanLabelsStep(commands, i, old(sym));
        if command.L? {
          if command.labelName !in table {
            table := table[command.labelName := i - rm];
            rm := rm + 1;
          } else {
            ScanLabelsStops(commands[..i + 1], commands[i + 1..], old(sym));
            assert commands[..i + 1] + commands[i + 1..] == commands;
            sym := table;
            return false;
          }
        } else {
          kept := kept + [command];
        }
        i := i + 1;
      }
      assert commands[..i] == commands;
      code, sym := kept, table;
      ok := true;
    }

    /**
     * Rewrites each digit-led operand with `parseInt` and gives every other
     * operand that is not yet a symbol the next address from `varStart`.
     */
    method HandleVariables()
      modifies this`code, this`sym, this`varStart
      ensures var v := AllocVars(old(code), old(sym), old(varStart));
        code == v.code && sym == v.table && varStart == v.next
    {
      var commands := code;
      var done: seq<Command>, table: map<string, nat>, next: nat := [], sym, varStart;
      var i := 0;
      while i < |commands|
        invariant 0 <= i <= |commands|
        invariant AllocVars(commands[..i], old(sym), old(varStart)) == VarScan(done, table, next)
      {
        var command := commands[i];
        AllocVarsStep(commands, i, old(sym), old(varStart));
        if command.A? && command.value.Name? && StartsWithDigit(command.value.name) {
          var n := ParseInt(command.value.name);
          command := A(if n.Some? then Number(n.value) else NotANumber);
        } else if command.A? {
          var key := VarKey(command).value;
          if key !in table {
            table := table[key := next];
            next := next + 1;
          }
        }
        done := done + [command];
        i := i + 1;
      }
      assert commands[..i] == commands;
      code, sym, varStart := done, table, next;
    }

    /**
     * The callback of `translate`'s `map`, for one record: "0" and
     * `itoB(value, 15)` for an A-record (a name is looked up in `sym`), "111" and the three table entries
     * for a C-record; `None` where it throws "Unidentified Command".
     */
    method Encode(command: Command) returns (word: Option<string>)
      ensures word.None? <==> command.L?
      ensures word.Some? ==> word.value == Word(command, sym, translation)
    {
      if command.A? {
        var bits;
        match command.value {
          case Name(x) =>
            if x in sym {
              bits := ItoB(sym[x], 15);
            } else {
              bits := NaNBits(15);
            }
          case Number(n) => bits := ItoB(n, 15);
          case NotANumber => bits := NaNBits(15);
        }
        word := Some("0" + bits);
      } else if command.C? {
        var comp := Lookup(translation.comp, command.comp);
        var dest := Lookup(translation.dest, KeyOf(command.dest));
        var jump := Lookup(translation.jump, KeyOf(command.jmp));
        word := Some("111" + comp + dest + jump);
      } else {
        word := None;
      }
    }

    /**
     * `translate`: one word per record, in order. A label record throws
     * (`ok` is false, `compiled` is left as it was).
     */
    method Translate() returns (ok: bool)
      modifies this`compiled
      ensures ok <==> forall i :: 0 <= i < |code| ==> !code[i].L?
      ensures ok ==> compiled == Words(code, sym, translation)
      ensures !ok ==> compiled == old(compiled)
    {
      var commands := code;
      var out: seq<string> := [];
      var i := 0;
      while i < |commands|
        invariant compiled == old(compiled) && 0 <= i <= |commands| && |out| == i
        invariant forall k :: 0 <= k < i ==> !commands[k].L? && out[k] == Word(commands[k], sym, translation)
      {
        var word := Encode(commands[i]);
        if word.None? {
          assert code[i].L?;
          return false;
        }
        out := out + [word.value];
        i := i + 1;
      }
      compiled := out;
      ok := true;
    }

    /**
     * `assemble(code)`: a non-empty text is set up afresh with the
     * predefined symbols; an empty one reassembles the current state. The
     * result is the pure pipeline `Run`, so the label clash is the only
     * error and "Unidentified Command" is never thrown.
     */
    method Assemble(text: string) returns (r: Result<seq<string>, AsmError>)
      modifies this
      ensures text != "" ==> r == AssembleText(text, predefined, translation)
      ensures text == "" ==> r == Run(old(code), old(sym), old(varStart), translation)
      ensures r.Ok? ==> compiled == r.value
      ensures text != "" && r.Ok? ==>
        var c0 := ParseLines(Lines.Preprocess(text));
        ScanLabels(c0, predefined).duplicate.None? && VarScan(code, sym, varStart) == Passes(c0, predefined, 16)
      ensures text == "" && r.Ok? ==>
        ScanLabels(old(code), old(sym)).duplicate.None? && VarScan(code, sym, varStart) == Passes(old(code), old(sym), old(varStart))
      ensures text != "" && r.Err? ==>
        var c0 := ParseLines(Lines.Preprocess(text));
        code == c0 && sym == ScanLabels(c0, predefined).table
      ensures text == "" && r.Err? ==> code == old(code) && sym == ScanLabels(old(code), old(sym)).table
      ensures r.Err? ==> compiled == (if text != "" then [] else old(compiled))
      ensures r.Err? ==> varStart == (if text != "" then 16 else old(varStart))
      ensures text != "" ==> parser != null && fresh(parser)
      ensures text == "" ==> parser == old(parser)
    {
      if text != "" {
        Setup(text, predefined);
      }
      ghost var code0, sym0, next0 := code, sym, varStart;
      var ok := HandleLabels();
      if !ok {
        return Err(LabelExists);
      }
      NonLabelsHasNone(code0);
      VarPassEncodable(code, sym, varStart);
      HandleVariables();
      ok := Translate();
      assert ok;
      r := Ok(compiled);
    }
  }
}
