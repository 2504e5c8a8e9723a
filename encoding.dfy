/**
 * Encoding (`Assembler.translate`) and the whole assembly run as one
 * function of the program text and the two tables.
 */
module Encoding {
  import opened Wrappers
  import opened Binary
  import opened Text
  import opened Lines
  import opened Commands
  import opened Symbols

  /** The three tables of `translations.json`: mnemonic to bit pattern. */
  datatype Translation = Translation(comp: map<string, string>, dest: map<string, string>, jump: map<string, string>)

  /**
   * Why a run stops: `handleLabels` threw "Label already exists". The other
   * throw, "Unidentified Command" in `translate`, cannot happen in a run
   * (see `Assembler.Assemble`).
   */
  datatype AsmError = LabelExists

  /** `table[key]` inside a template literal: the entry, or the text "undefined" when there is none. */
  function Lookup(table: map<string, string>, key: string): string {
    if key in table then table[key] else "undefined"
  }

  /** The property key an optional field is looked up under: an absent field is `undefined`. */
  function KeyOf(field: Option<string>): string {
    field.GetOr("undefined")
  }

  /** `this.sym[command.value]` is defined for a named operand. */
  predicate Resolvable(c: Command, sym: map<string, nat>) {
    c.A? && c.value.Name? ==> c.value.name in sym
  }

  /** What `itoB` returns for `NaN`: "NaN" once per bit. */
  function NaNBits(k: nat): (r: string)
    ensures |r| == 3 * k
  {
    if k == 0 then "" else NaNBits(k - 1) + "NaN"
  }

  /** The number an A-record loads. */
  function OperandValue(v: Operand, sym: map<string, nat>): nat
    requires !v.NotANumber? && (v.Name? ==> v.name in sym)
  {
    match v
    case Name(x) => sym[x]
    case Number(n) => n
  }

  /**
   * The per-record mapping of `translate`, for a record that is not a label.
   * A name that is not a symbol reads as `undefined`, which `itoB` turns
   * into `NaN` bits.
   */
  function Word(c: Command, sym: map<string, nat>, tr: Translation): (w: string)
    requires !c.L?
    ensures c.A? ==> |w| >= 1 && w[0] == '0'
    ensures c.C? ==> |w| >= 3 && w[..3] == "111"
  {
    match c
    case A(Name(x)) => "0" + (if x in sym then Bits(sym[x], 15) else NaNBits(15))
    case A(Number(n)) => "0" + Bits(n, 15)
    case A(NotANumber) => "0" + NaNBits(15)
    case C(comp, dest, jmp) =>
      "111" + Lookup(tr.comp, comp) + Lookup(tr.dest, KeyOf(dest)) + Lookup(tr.jump, KeyOf(jmp))
  }

  /** No label record is left. */
  predicate LabelFree(code: seq<Command>) {
    forall i :: 0 <= i < |code| ==> !code[i].L?
  }

  /** Every record can be encoded from a symbol: no label is left and every name is a symbol. */
  predicate Encodable(code: seq<Command>, sym: map<string, nat>) {
    forall i :: 0 <= i < |code| ==> !code[i].L? && Resolvable(code[i], sym)
  }

  /** `translate` when no label is left: one word per record, in order. */
  function Words(code: seq<Command>, sym: map<string, nat>, tr: Translation): (ws: seq<string>)
    requires LabelFree(code)
    ensures |ws| == |code|
    ensures forall i :: 0 <= i < |code| ==> ws[i] == Word(code[i], sym, tr)
  {
    seq(|code|, i requires 0 <= i < |code| => Word(code[i], sym, tr))
  }

  lemma {:induction false} PrefixedBits(n: nat, k: nat)
    ensures var w := "0" + Bits(n, k);
      |w| == k + 1 && w[0] == '0' && IsBitString(w) && w[1..] == Bits(n, k)
  {
    var b := Bits(n, k);
    var w := "0" + b;
    assert w[1..] == b;
    forall i | 0 <= i < |w| ensures w[i] == '0' || w[i] == '1' {
      if i > 0 {
        assert w[i] == b[i - 1];
      }
    }
  }

  /**
   * An A-word is "0" and then the value modulo 2^15 in 15 binary digits;
   * a value below 2^15 decodes back from the word.
   */
  lemma AWord(v: Operand, sym: map<string, nat>, tr: Translation)
    requires !v.NotANumber? && (v.Name? ==> v.name in sym)
    ensures var w := Word(A(v), sym, tr);
      && |w| == 16 && w[0] == '0' && IsBitString(w)
      && FromBits(w[1..]) == OperandValue(v, sym) % Pow2(15)
      && (OperandValue(v, sym) < Pow2(15) ==> FromBits(w[1..]) == OperandValue(v, sym))
  {
    var n := OperandValue(v, sym);
    WordOfA(v, sym, tr);
    PrefixedBits(n, 15);
    BitsValue(n, 15);
    if n < Pow2(15) {
      BitsRoundTrip(n, 15);
    }
  }

  lemma WordOfA(v: Operand, sym: map<string, nat>, tr: Translation)
    requires !v.NotANumber? && (v.Name? ==> v.name in sym)
    ensures Word(A(v), sym, tr) == "0" + Bits(OperandValue(v, sym), 15)
  {
    match v
    case Name(x) =>
    case Number(m) =>
  }

  /** Each entry of `table` is a string of `width` binary digits. */
  predicate FixedWidth(table: map<string, string>, width: nat) {
    forall k :: k in table ==> |table[k]| == width && IsBitString(table[k])
  }

  /** Tables of the Hack encoding: 7-bit computations, 3-bit destinations and jumps. */
  predicate HackWidths(tr: Translation) {
    FixedWidth(tr.comp, 7) && FixedWidth(tr.dest, 3) && FixedWidth(tr.jump, 3)
  }

  /** The mnemonics of a C-record, absent fields included, are in the tables. */
  predicate Known(c: Command, tr: Translation) {
    c.C? ==> c.comp in tr.comp && KeyOf(c.dest) in tr.dest && KeyOf(c.jmp) in tr.jump
  }

  /**
   * A C-word is "111", the computation pattern, the destination pattern and
   * the jump pattern; with Hack-width tables it is 16 binary digits and each
   * field can be read back at its place.
   */
  lemma CWord(c: Command, sym: map<string, nat>, tr: Translation)
    requires c.C? && Known(c, tr) && HackWidths(tr)
    ensures var w := Word(c, sym, tr);
      && |w| == 16 && IsBitString(w) && w[..3] == "111"
      && w[3..10] == tr.comp[c.comp]
      && w[10..13] == tr.dest[KeyOf(c.dest)]
      && w[13..] == tr.jump[KeyOf(c.jmp)]
  {
    var w := Word(c, sym, tr);
    var p, d, j := tr.comp[c.comp], tr.dest[KeyOf(c.dest)], tr.jump[KeyOf(c.jmp)];
    assert w == "111" + p + d + j;
  }

  /**
   * With Hack-width tables, known mnemonics and no `NaN` operand, every
   * word of the output is 16 binary digits.
   */
  lemma WordsBinary(code: seq<Command>, sym: map<string, nat>, tr: Translation)
    requires Encodable(code, sym) && HackWidths(tr)
    requires forall i :: 0 <= i < |code| ==> Known(code[i], tr) && !(code[i].A? && code[i].value.NotANumber?)
    ensures forall i :: 0 <= i < |code| ==> |Words(code, sym, tr)[i]| == 16 && IsBitString(Words(code, sym, tr)[i])
  {
    forall i | 0 <= i < |code|
      ensures |Words(code, sym, tr)[i]| == 16 && IsBitString(Words(code, sym, tr)[i])
    {
      if code[i].A? {
        AWord(code[i].value, sym, tr);
      } else {
        CWord(code[i], sym, tr);
      }
    }
  }

  lemma VarPassEncodable(code: seq<Command>, sym: map<string, nat>, next: nat)
    requires forall i :: 0 <= i < |code| ==> !code[i].L?
    ensures var v := AllocVars(code, sym, next); Encodable(v.code, v.table)
  {
    var v := AllocVars(code, sym, next);
    AllocVarsRewrites(code, sym, next);
    AllocVarsBinds(code, sym, next);
    forall i | 0 <= i < |v.code| ensures !v.code[i].L? && Resolvable(v.code[i], v.table) {
      assert v.code[i] == Rewrite(code[i]);
    }
  }

  /**
   * `handleLabels`, `handleVariables` and `translate` on the parsed records
   * `code`, from the symbol table `sym` and the first variable address
   * `next`. A label clash is the only way it fails.
   */
  function Run(code: seq<Command>, sym: map<string, nat>, next: nat, tr: Translation): (r: Result<seq<string>, AsmError>)
    ensures r.Err? <==> !LabelsFresh(code, sym)
    ensures r.Ok? ==> |r.value| == |NonLabels(code)|
  {
    ScanLabelsOutcome(code, sym);
    var scan := ScanLabels(code, sym);
    if scan.duplicate.Some? then Err(LabelExists)
    else
      var vars := AllocVars(NonLabels(code), scan.table, next);
      NonLabelsHasNone(code);
      VarPassEncodable(NonLabels(code), scan.table, next);
      AllocVarsRewrites(NonLabels(code), scan.table, next);
      Ok(Words(vars.code, vars.table, tr))
  }

  /** An operand that gives a number: a digit-led operand must not be `0x` without hex digits. */
  predicate Numeric(c: Command) {
    c.A? ==> match c.value
      case Name(x) => !StartsWithDigit(x) || ParseInt(x).Some?
      case Number(_) => true
      case NotANumber => false
  }

  /**
   * With Hack-width tables, known mnemonics and operands that give numbers,
   * every word a successful run outputs is 16 binary digits.
   */
  lemma RunBinary(code: seq<Command>, sym: map<string, nat>, next: nat, tr: Translation)
    requires HackWidths(tr)
    requires forall i :: 0 <= i < |code| ==> Known(code[i], tr) && Numeric(code[i])
    ensures var r := Run(code, sym, next, tr);
      r.Ok? ==> forall i :: 0 <= i < |r.value| ==> |r.value[i]| == 16 && IsBitString(r.value[i])
  {
    var scan := ScanLabels(code, sym);
    if scan.duplicate.None? {
      var kept := NonLabels(code);
      var vars := AllocVars(kept, scan.table, next);
      NonLabelsHasNone(code);
      NonLabelsFrom(code);
      VarPassEncodable(kept, scan.table, next);
      AllocVarsRewrites(kept, scan.table, next);
      forall i | 0 <= i < |vars.code|
        ensures Known(vars.code[i], tr) && !(vars.code[i].A? && vars.code[i].value.NotANumber?)
      {
        assert kept[i] in code;
      }
      WordsBinary(vars.code, vars.table, tr);
    }
  }

  /** The records, symbols and next address a successful run leaves behind. */
  function Passes(code: seq<Command>, sym: map<string, nat>, next: nat): VarScan
    requires ScanLabels(code, sym).duplicate.None?
  {
    AllocVars(NonLabels(code), ScanLabels(code, sym).table, next)
  }

  lemma {:induction false} ScanLabelFree(code: seq<Command>, sym: map<string, nat>)
    requires LabelFree(code)
    ensures ScanLabels(code, sym) == LabelScan(sym, None)
  {
    if code != [] {
      var prefix := code[..|code| - 1];
      assert forall i :: 0 <= i < |prefix| ==> prefix[i] == code[i];
      ScanLabelFree(prefix, sym);
    }
  }

  lemma {:induction false} NonLabelsLabelFree(code: seq<Command>)
    requires LabelFree(code)
    ensures NonLabels(code) == code
  {
    if code != [] {
      assert forall i :: 0 <= i < |code[1..]| ==> code[1..][i] == code[i + 1];
      NonLabelsLabelFree(code[1..]);
      assert [code[0]] + code[1..] == code;
    }
  }

  /** An operand already turned into a number is not rewritten again. */
  lemma RewriteTwice(c: Command)
    ensures Rewrite(Rewrite(c)) == Rewrite(c)
  {
  }

  /** A second variable pass leaves the records of the first one as they are. */
  lemma {:induction false} AllocVarsAgain(code: seq<Command>, sym: map<string, nat>, next: nat)
    ensures var p := AllocVars(code, sym, next);
      AllocVars(p.code, p.table, p.next).code == p.code
  {
    var p := AllocVars(code, sym, next);
    var q := AllocVars(p.code, p.table, p.next);
    AllocVarsRewrites(code, sym, next);
    AllocVarsRewrites(p.code, p.table, p.next);
    forall i | 0 <= i < |q.code| ensures q.code[i] == p.code[i] {
      RewriteTwice(code[i]);
    }
  }

  /** The words only read the symbols the records name: a larger table with the same entries gives the same words. */
  lemma WordsAgree(code: seq<Command>, t1: map<string, nat>, t2: map<string, nat>, tr: Translation)
    requires Encodable(code, t1)
    requires forall x :: x in t1 ==> x in t2 && t2[x] == t1[x]
    ensures Words(code, t1, tr) == Words(code, t2, tr)
  {
    var w1, w2 := Words(code, t1, tr), Words(code, t2, tr);
    forall i | 0 <= i < |code| ensures w1[i] == w2[i] {
      assert Resolvable(code[i], t1);
    }
  }

  /**
   * Assembling again from what a successful run left behind gives the same
   * words: the operands already turned into numbers stay numbers, and their
   * decimal texts, now taken for variables, are never read.
   */
  lemma Reassemble(code: seq<Command>, sym: map<string, nat>, next: nat, tr: Translation)
    requires Run(code, sym, next, tr).Ok?
    ensures ScanLabels(code, sym).duplicate.None?
    ensures var p := Passes(code, sym, next);
      Run(p.code, p.table, p.next, tr) == Run(code, sym, next, tr)
  {
    ScanLabelsOutcome(code, sym);
    var kept, table := NonLabels(code), ScanLabels(code, sym).table;
    var p := AllocVars(kept, table, next);
    NonLabelsHasNone(code);
    VarPassEncodable(kept, table, next);
    ScanLabelFree(p.code, p.table);
    NonLabelsLabelFree(p.code);
    AllocVarsAgain(kept, table, next);
    AllocVarsKeeps(p.code, p.table, p.next);
    var q := AllocVars(p.code, p.table, p.next);
    WordsAgree(p.code, p.table, q.table, tr);
  }

  /** `new Assembler(code).assemble()` with the predefined symbols and the tables. */
  function AssembleText(text: string, predefined: map<string, nat>, tr: Translation): Result<seq<string>, AsmError> {
    Run(ParseLines(Preprocess(text)), predefined, 16, tr)
  }

  /** The number of lines that are instructions rather than labels: those not starting with `(`. */
  function Instructions(lines: seq<string>): nat {
    if lines == [] then 0
    else Instructions(lines[..|lines| - 1]) + (if StartsWith(lines[|lines| - 1], '(') then 0 else 1)
  }

  lemma {:induction false} NonLabelsCount(lines: seq<string>)
    ensures |NonLabels(ParseLines(lines))| == Instructions(lines)
  {
    if lines != [] {
      var n := |lines| - 1;
      NonLabelsCount(lines[..n]);
      var code := ParseLines(lines);
      assert code[..n] == ParseLines(lines[..n]);
      NonLabelsPrefix(code, n);
      assert code[..n + 1] == code;
    }
  }

  /**
   * One word per A- or C-line of the cleaned program, none per label line;
   * a label clash is the only error.
   */
  lemma OneWordPerInstruction(text: string, predefined: map<string, nat>, tr: Translation)
    ensures var r := AssembleText(text, predefined, tr);
      && (r.Err? <==> !LabelsFresh(ParseLines(Preprocess(text)), predefined))
      && (r.Ok? ==> |r.value| == Instructions(Preprocess(text)))
  {
    NonLabelsCount(Preprocess(text));
  }

  /** `@21` is an A-record whose operand is the text "21". */
  lemma ExampleParse()
    ensures ParseLine("@21") == A(Name("21"))
  {
    assert "@21" == Show(A(Name("21")));
    ParseLineShow(A(Name("21")));
  }

  /** `handleVariables` turns the operand "21" into the number 21. */
  lemma ExampleRewrite()
    ensures Rewrite(A(Name("21"))) == A(Number(21))
  {
    assert Decimal(21) == "21";
    ParseIntDecimal(21, "");
    assert "21" + "" == "21";
  }

  /** The record for 21 is encoded as "0" and 21 in 15 bits. */
  lemma ExampleWord(sym: map<string, nat>, tr: Translation)
    ensures Word(A(Number(21)), sym, tr) == "0000000000010101"
  {
    TwentyOne();
  }

  /** `D=D+A` becomes "111", comp of D+A, dest of D, and the entry under "undefined" for the absent jump. */
  lemma ExampleC(sym: map<string, nat>, tr: Translation)
    ensures ParseLine("D=D+A") == C("D+A", Some("D"), None)
    ensures Word(C("D+A", Some("D"), None), sym, tr) ==
              "111" + Lookup(tr.comp, "D+A") + Lookup(tr.dest, "D") + Lookup(tr.jump, "undefined")
  {
    assert "D=D+A" == ShowC("D+A", Some("D"), None);
    ParseCShow("D+A", Some("D"), None);
  }
}
