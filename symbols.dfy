/**
 * Symbol resolution of `Assembler`: the label pass (`handleLabels`) and the
 * variable pass (`handleVariables`), as functions of the record sequence
 * and the symbol table they start from.
 */
module Symbols {
  import opened Wrappers
  import opened Text
  import opened Commands

  /* ---------- Label pass ---------- */

  /** What the label filter keeps of one record. */
  function Kept(c: Command): seq<Command> {
    if c.L? then [] else [c]
  }

  /** The records that survive `handleLabels`: every A- and C-record, in order. */
  function NonLabels(code: seq<Command>): (r: seq<Command>)
    ensures |r| <= |code|
  {
    if code == [] then [] else Kept(code[0]) + NonLabels(code[1..])
  }

  /** No label record survives the label pass. */
  lemma {:induction false} NonLabelsHasNone(code: seq<Command>)
    ensures forall i :: 0 <= i < |NonLabels(code)| ==> !NonLabels(code)[i].L?
  {
    if code != [] {
      NonLabelsHasNone(code[1..]);
    }
  }

  /** Every record that survives the label pass comes from the program. */
  lemma {:induction false} NonLabelsFrom(code: seq<Command>)
    ensures forall i :: 0 <= i < |NonLabels(code)| ==> NonLabels(code)[i] in code
  {
    if code != [] {
      NonLabelsFrom(code[1..]);
      var k, rest := Kept(code[0]), NonLabels(code[1..]);
      forall i | 0 <= i < |k + rest| ensures (k + rest)[i] in code {
        if i >= |k| {
          assert (k + rest)[i] == rest[i - |k|];
          assert rest[i - |k|] in code[1..];
        }
      }
    }
  }

  lemma {:induction false} NonLabelsConcat(a: seq<Command>, b: seq<Command>)
    ensures NonLabels(a + b) == NonLabels(a) + NonLabels(b)
  {
    if a == [] {
      assert a + b == b;
    } else {
      var ab := a + b;
      assert ab[0] == a[0] && ab[1..] == a[1..] + b;
      NonLabelsConcat(a[1..], b);
      var k, x, y := Kept(a[0]), NonLabels(a[1..]), NonLabels(b);
      assert NonLabels(ab) == k + (x + y);
      assert NonLabels(a) == k + x;
      assert k + (x + y) == (k + x) + y;
    }
  }

  lemma NonLabelsPrefix(code: seq<Command>, j: nat)
    requires j < |code|
    ensures NonLabels(code[..j + 1]) == NonLabels(code[..j]) + Kept(code[j])
  {
    assert code[..j + 1] == code[..j] + [code[j]];
    NonLabelsConcat(code[..j], [code[j]]);
    assert [code[j]][1..] == [];
  }

  /**
   * Order is kept: the A- or C-record at index `j` of the parsed program is
   * at index "number of A- and C-records before it" after the label pass.
   */
  lemma NonLabelsAt(code: seq<Command>, j: nat)
    requires j < |code| && !code[j].L?
    ensures |NonLabels(code[..j])| < |NonLabels(code)|
    ensures NonLabels(code)[|NonLabels(code[..j])|] == code[j]
  {
    NonLabelsPrefix(code, j);
    NonLabelsConcat(code[..j + 1], code[j + 1..]);
    assert code[..j + 1] + code[j + 1..] == code;
  }

  /** State of the label pass: the symbol table, and the label that made it throw, if any. */
  datatype LabelScan = LabelScan(table: map<string, nat>, duplicate: Option<string>)

  /**
   * `handleLabels` on the symbol table `sym`: each label is bound to the
   * number of A- and C-records before it (`i - rm`), unless its name is
   * already a symbol, which throws "Label already exists" and stops the pass.
   * Entries are only added: what `sym` held is never overwritten.
   */
  function ScanLabels(code: seq<Command>, sym: map<string, nat>): LabelScan {
    if code == [] then LabelScan(sym, None)
    else
      var prefix := code[..|code| - 1];
      var s := ScanLabels(prefix, sym);
      var c := code[|code| - 1];
      if s.duplicate.Some? || !c.L? then s
      else if c.labelName in s.table then LabelScan(s.table, Some(c.labelName))
      else LabelScan(s.table[c.labelName := |NonLabels(prefix)|], None)
  }

  /** A symbol that was already there keeps its value: the label pass never rebinds it. */
  lemma {:induction false} ScanLabelsKeeps(code: seq<Command>, sym: map<string, nat>, x: string)
    requires x in sym
    ensures x in ScanLabels(code, sym).table && ScanLabels(code, sym).table[x] == sym[x]
  {
    if code != [] {
      ScanLabelsKeeps(code[..|code| - 1], sym, x);
    }
  }

  /** One more record scanned: `ScanLabels` unfolded at index `j`. */
  lemma ScanLabelsStep(code: seq<Command>, j: nat, sym: map<string, nat>)
    requires j < |code|
    ensures var s, c := ScanLabels(code[..j], sym), code[j];
      ScanLabels(code[..j + 1], sym) ==
        if s.duplicate.Some? || !c.L? then s
        else if c.labelName in s.table then LabelScan(s.table, Some(c.labelName))
        else LabelScan(s.table[c.labelName := |NonLabels(code[..j])|], None)
  {
    assert code[..j + 1][..j] == code[..j];
    assert code[..j + 1][j] == code[j];
  }

  /** `code` declares the label `x`. */
  predicate Declares(code: seq<Command>, x: string) {
    exists j :: 0 <= j < |code| && code[j] == L(x)
  }

  /** No label clashes with a symbol of `sym` or with another label. */
  predicate LabelsFresh(code: seq<Command>, sym: map<string, nat>) {
    && (forall j :: 0 <= j < |code| && code[j].L? ==> code[j].labelName !in sym)
    && (forall i, j :: 0 <= i < j < |code| && code[i].L? && code[j].L? ==> code[i].labelName != code[j].labelName)
  }

  /**
   * When the label pass succeeds, its table holds the old symbols and the
   * declared labels and nothing else.
   */
  lemma {:induction false} ScanLabelsTable(code: seq<Command>, sym: map<string, nat>)
    requires ScanLabels(code, sym).duplicate.None?
    ensures forall x :: x in ScanLabels(code, sym).table <==> x in sym || Declares(code, x)
  {
    if code != [] {
      var prefix, c := code[..|code| - 1], code[|code| - 1];
      ScanLabelsTable(prefix, sym);
      forall x ensures Declares(code, x) <==> Declares(prefix, x) || c == L(x) {
        if Declares(code, x) {
          var j :| 0 <= j < |code| && code[j] == L(x);
          if j < |prefix| {
            assert prefix[j] == L(x);
          }
        }
        if Declares(prefix, x) {
          var j :| 0 <= j < |prefix| && prefix[j] == L(x);
          assert code[j] == L(x);
        }
      }
    }
  }

  /** A last label that is already in the table clashes with a symbol or with an earlier label. */
  lemma ScanLabelsClash(code: seq<Command>, sym: map<string, nat>)
    requires |code| > 0 && code[|code| - 1].L?
    requires ScanLabels(code[..|code| - 1], sym).duplicate.None?
    requires code[|code| - 1].labelName in ScanLabels(code[..|code| - 1], sym).table
    ensures !LabelsFresh(code, sym)
  {
    var n := |code| - 1;
    var x := code[n].labelName;
    ScanLabelsTable(code[..n], sym);
    if x !in sym {
      var j :| 0 <= j < n && code[..n][j] == L(x);
      assert code[j] == L(x);
    }
  }

  /** A last label not yet in the table keeps a fresh prefix fresh. */
  lemma ScanLabelsFreshLast(code: seq<Command>, sym: map<string, nat>)
    requires |code| > 0 && code[|code| - 1].L?
    requires LabelsFresh(code[..|code| - 1], sym)
    requires ScanLabels(code[..|code| - 1], sym).duplicate.None?
    requires code[|code| - 1].labelName !in ScanLabels(code[..|code| - 1], sym).table
    ensures LabelsFresh(code, sym)
  {
    var n := |code| - 1;
    var prefix := code[..n];
    var x := code[n].labelName;
    ScanLabelsTable(prefix, sym);
    forall j | 0 <= j < n && code[j].L?
      ensures code[j].labelName != x && code[j].labelName !in sym
    {
      assert prefix[j] == L(code[j].labelName);
    }
    forall i, j | 0 <= i < j < |code| && code[i].L? && code[j].L?
      ensures code[i].labelName != code[j].labelName
    {
      if j < n {
        assert prefix[i] == code[i] && prefix[j] == code[j];
      }
    }
  }

  /**
   * The label pass fails exactly when some label is already a symbol:
   * predefined, or declared earlier.
   */
  lemma {:induction false} ScanLabelsOutcome(code: seq<Command>, sym: map<string, nat>)
    ensures ScanLabels(code, sym).duplicate.None? <==> LabelsFresh(code, sym)
  {
    if code != [] {
      var n := |code| - 1;
      var prefix, c := code[..n], code[n];
      ScanLabelsOutcome(prefix, sym);
      assert forall j :: 0 <= j < n ==> prefix[j] == code[j];
      assert LabelsFresh(code, sym) ==> LabelsFresh(prefix, sym);
      if ScanLabels(prefix, sym).duplicate.None? && c.L? {
        if c.labelName in ScanLabels(prefix, sym).table {
          ScanLabelsClash(code, sym);
        } else {
          ScanLabelsFreshLast(code, sym);
        }
      }
    }
  }

  lemma {:induction false} ScanLabelsStops(p: seq<Command>, q: seq<Command>, sym: map<string, nat>)
    requires ScanLabels(p, sym).duplicate.Some?
    ensures ScanLabels(p + q, sym) == ScanLabels(p, sym)
    decreases |q|
  {
    if q != [] {
      ScanLabelsStops(p, q[..|q| - 1], sym);
      assert (p + q)[..|p + q| - 1] == p + q[..|q| - 1];
    } else {
      assert p + q == p;
    }
  }

  /** The table only grows along the program: an entry made early stays. */
  lemma {:induction false} ScanLabelsGrows(code: seq<Command>, k: nat, sym: map<string, nat>)
    requires k <= |code|
    requires ScanLabels(code, sym).duplicate.None?
    ensures ScanLabels(code[..k], sym).duplicate.None?
    ensures forall x :: x in ScanLabels(code[..k], sym).table ==>
              x in ScanLabels(code, sym).table && ScanLabels(code, sym).table[x] == ScanLabels(code[..k], sym).table[x]
    decreases |code| - k
  {
    if k < |code| {
      var prefix := code[..|code| - 1];
      assert prefix[..k] == code[..k];
      ScanLabelsGrows(prefix, k, sym);
    } else {
      assert code[..k] == code;
    }
  }

  /** Each label is bound to the number of A- and C-records that precede it. */
  lemma LabelBound(code: seq<Command>, sym: map<string, nat>, j: nat)
    requires j < |code| && code[j].L?
    requires ScanLabels(code, sym).duplicate.None?
    ensures code[j].labelName in ScanLabels(code, sym).table
    ensures ScanLabels(code, sym).table[code[j].labelName] == |NonLabels(code[..j])|
  {
    ScanLabelsGrows(code, j + 1, sym);
    assert code[..j + 1][..j] == code[..j];
    assert code[..j + 1][j] == code[j];
  }

  lemma {:induction false} LabelsAddNothing(code: seq<Command>, j: nat, k: nat)
    requires j <= k <= |code|
    requires forall i :: j <= i < k ==> code[i].L?
    ensures NonLabels(code[..k]) == NonLabels(code[..j])
    decreases k - j
  {
    if j < k {
      LabelsAddNothing(code, j, k - 1);
      NonLabelsPrefix(code, k - 1);
    }
  }

  /**
   * A label, referenced before or after its declaration, addresses the
   * first A- or C-record that follows it once the labels are removed.
   */
  lemma LabelTargetsNext(code: seq<Command>, sym: map<string, nat>, j: nat, k: nat)
    requires j < k < |code| && code[j].L? && !code[k].L?
    requires forall i :: j < i < k ==> code[i].L?
    requires ScanLabels(code, sym).duplicate.None?
    ensures code[j].labelName in ScanLabels(code, sym).table
    ensures var t := ScanLabels(code, sym).table[code[j].labelName];
      t < |NonLabels(code)| && NonLabels(code)[t] == code[k]
  {
    LabelBound(code, sym, j);
    LabelsAddNothing(code, j, k);
    NonLabelsPrefix(code, j);
    NonLabelsAt(code, k);
  }

  /** Two declarations of one label are rejected wherever they stand. */
  lemma DuplicateRejected(code: seq<Command>, sym: map<string, nat>, i: nat, j: nat)
    requires i < j < |code| && code[i].L? && code[j] == code[i]
    ensures ScanLabels(code, sym).duplicate.Some?
  {
    ScanLabelsOutcome(code, sym);
  }

  /* ---------- Variable pass ---------- */

  /**
   * The property key `handleVariables` looks up for a record it does not
   * rewrite: the operand name, or the decimal text of an operand that an
   * earlier run already turned into a number (`NaN` for not-a-number).
   */
  function VarKey(c: Command): (r: Option<string>)
    ensures r.Some? <==> c.A? && !(c.value.Name? && StartsWithDigit(c.value.name))
  {
    match c
    case A(Name(x)) => if StartsWithDigit(x) then None else Some(x)
    case A(Number(n)) => Some(Decimal(n))
    case A(NotANumber) => Some("NaN")
    case _ => None
  }

  /** `command.value = parseInt(command.value)` for an operand that starts with a digit. */
  function Rewrite(c: Command): (r: Command)
    ensures r.A? == c.A? && r.C? == c.C? && r.L? == c.L?
    ensures r.A? && r.value.Name? ==> VarKey(c) == Some(r.value.name)
    ensures !(c.A? && c.value.Name? && StartsWithDigit(c.value.name)) ==> r == c
    ensures c.A? && c.value.Name? && StartsWithDigit(c.value.name) ==> !r.value.Name?
  {
    if c.A? && c.value.Name? && StartsWithDigit(c.value.name) then
      A(match ParseInt(c.value.name) case Some(n) => Number(n) case None => NotANumber)
    else c
  }

  /** State of the variable pass: the records, the symbol table and `varStart`. */
  datatype VarScan = VarScan(code: seq<Command>, table: map<string, nat>, next: nat)

  /**
   * `handleVariables` from the symbol table `sym` and the next free address
   * `next`: digit-led operands become numbers, every other key that is not
   * yet a symbol gets the next address.
   */
  function AllocVars(code: seq<Command>, sym: map<string, nat>, next: nat): (r: VarScan)
    ensures |r.code| == |code| && next <= r.next <= next + |code|
  {
    if code == [] then VarScan([], sym, next)
    else
      var prefix := code[..|code| - 1];
      var s := AllocVars(prefix, sym, next);
      var c := code[|code| - 1];
      var key := VarKey(c);
      if key.Some? && key.value !in s.table then VarScan(s.code + [Rewrite(c)], s.table[key.value := s.next], s.next + 1)
      else VarScan(s.code + [Rewrite(c)], s.table, s.next)
  }

  /** The variable pass rewrites each record on its own, in place. */
  lemma {:induction false} AllocVarsRewrites(code: seq<Command>, sym: map<string, nat>, next: nat)
    ensures var r := AllocVars(code, sym, next);
      |r.code| == |code| && forall i :: 0 <= i < |code| ==> r.code[i] == Rewrite(code[i])
  {
    if code != [] {
      var prefix := code[..|code| - 1];
      AllocVarsRewrites(prefix, sym, next);
      assert forall i :: 0 <= i < |prefix| ==> prefix[i] == code[i];
    }
  }

  /** A symbol that was already there keeps its value: the variable pass never rebinds it. */
  lemma {:induction false} AllocVarsKeeps(code: seq<Command>, sym: map<string, nat>, next: nat)
    ensures var r := AllocVars(code, sym, next);
      forall x :: x in sym ==> x in r.table && r.table[x] == sym[x]
  {
    if code != [] {
      AllocVarsKeeps(code[..|code| - 1], sym, next);
    }
  }

  /** After the variable pass every key of the program is a symbol. */
  lemma {:induction false} AllocVarsBinds(code: seq<Command>, sym: map<string, nat>, next: nat)
    ensures var r := AllocVars(code, sym, next);
      forall i :: 0 <= i < |code| && VarKey(code[i]).Some? ==> VarKey(code[i]).value in r.table
  {
    if code != [] {
      var prefix := code[..|code| - 1];
      AllocVarsBinds(prefix, sym, next);
      assert forall i :: 0 <= i < |prefix| ==> prefix[i] == code[i];
    }
  }

  /** One more record seen: `AllocVars` unfolded at index `j`. */
  lemma AllocVarsStep(code: seq<Command>, j: nat, sym: map<string, nat>, next: nat)
    requires j < |code|
    ensures var s, c := AllocVars(code[..j], sym, next), code[j];
      var key := VarKey(c);
      AllocVars(code[..j + 1], sym, next) ==
        if key.Some? && key.value !in s.table then VarScan(s.code + [Rewrite(c)], s.table[key.value := s.next], s.next + 1)
        else VarScan(s.code + [Rewrite(c)], s.table, s.next)
  {
    assert code[..j + 1][..j] == code[..j];
    assert code[..j + 1][j] == code[j];
  }

  /** A key of `code` names `x`. */
  predicate Occurs(code: seq<Command>, x: string) {
    exists j :: 0 <= j < |code| && VarKey(code[j]) == Some(x)
  }

  /**
   * The variables of `code`: each key that is not a symbol of `sym`, once,
   * in the order of first occurrence.
   */
  function FreshNames(code: seq<Command>, sym: map<string, nat>): (f: seq<string>)
    ensures forall i, j :: 0 <= i < j < |f| ==> f[i] != f[j]
    ensures forall i :: 0 <= i < |f| ==> f[i] !in sym
  {
    if code == [] then []
    else
      var f := FreshNames(code[..|code| - 1], sym);
      var key := VarKey(code[|code| - 1]);
      if key.Some? && key.value !in sym && key.value !in f then f + [key.value] else f
  }

  /** A name is a variable exactly when it is a key of the program and not a symbol. */
  lemma {:induction false} FreshNamesOccur(code: seq<Command>, sym: map<string, nat>, x: string)
    ensures x in FreshNames(code, sym) <==> x !in sym && Occurs(code, x)
  {
    if code != [] {
      var prefix := code[..|code| - 1];
      FreshNamesOccur(prefix, sym, x);
      if Occurs(code, x) {
        var j :| 0 <= j < |code| && VarKey(code[j]) == Some(x);
        if j < |prefix| {
          assert VarKey(prefix[j]) == Some(x);
        }
      }
      if Occurs(prefix, x) {
        var j :| 0 <= j < |prefix| && VarKey(prefix[j]) == Some(x);
        assert VarKey(code[j]) == Some(x);
      }
    }
  }

  /**
   * Each variable gets exactly one address, `next` for the first seen, then
   * one more for each new one; the table holds the old symbols and the
   * variables and nothing else.
   */
  lemma {:induction false} AllocVarsTable(code: seq<Command>, sym: map<string, nat>, next: nat)
    ensures var r, f := AllocVars(code, sym, next), FreshNames(code, sym);
      && r.next == next + |f|
      && (forall i :: 0 <= i < |f| ==> f[i] in r.table && r.table[f[i]] == next + i)
      && (forall x :: x in r.table <==> x in sym || x in f)
  {
    if code != [] {
      var prefix := code[..|code| - 1];
      AllocVarsTable(prefix, sym, next);
    }
  }

  /** The variables found in a prefix of the program come first, in the same order. */
  lemma {:induction false} FreshNamesPrefix(code: seq<Command>, sym: map<string, nat>, k: nat)
    requires k <= |code|
    ensures var p := FreshNames(code[..k], sym); |p| <= |FreshNames(code, sym)| && p == FreshNames(code, sym)[..|p|]
    decreases |code| - k
  {
    if k < |code| {
      var prefix := code[..|code| - 1];
      assert prefix[..k] == code[..k];
      FreshNamesPrefix(prefix, sym, k);
    } else {
      assert code[..k] == code;
    }
  }

  /**
   * A variable first seen before another gets the smaller address: if `x`
   * occurs before index `j` and `y` does not, `x`'s address is below `y`'s;
   * every variable address is at least `next`.
   */
  lemma FirstSeenFirst(code: seq<Command>, sym: map<string, nat>, next: nat, x: string, y: string, j: nat)
    requires j <= |code|
    requires x !in sym && y !in sym && Occurs(code[..j], x) && !Occurs(code[..j], y) && Occurs(code, y)
    ensures var t := AllocVars(code, sym, next).table;
      x in t && y in t && next <= t[x] < t[y]
  {
    var f := FreshNames(code, sym);
    var p := FreshNames(code[..j], sym);
    FreshNamesPrefix(code, sym, j);
    FreshNamesOccur(code[..j], sym, x);
    FreshNamesOccur(code[..j], sym, y);
    FreshNamesOccur(code, sym, y);
    AllocVarsTable(code, sym, next);
    var ix :| 0 <= ix < |p| && p[ix] == x;
    var iy :| 0 <= iy < |f| && f[iy] == y;
    assert f[ix] == x;
    assert forall i :: 0 <= i < |p| ==> p[i] == f[i];
    assert y !in p;
    assert iy >= |p|;
  }
}
