# Hack assembler, modelled in Dafny

This project models the assembler of `src/assembler.js`: the program that turns
Hack assembly text (the machine language of the Nand2Tetris computer) into
16-character binary words. The model follows the source's own structure:

- `Parser` pre-processes the text and builds one instruction record per line.
  Pre-processing means trimming, splitting into lines, deleting white characters,
  dropping blank lines, dropping comment lines and cutting other lines at their
  first `//`.
- There are three kinds of record:
  - an A-record for `@value`;
  - a C-record for `dest=comp;jmp`;
  - an L-record for a label `(name)`.
- `Assembler` copies the predefined symbols into its symbol table `sym`, then
  runs three passes over the records:
  - `handleLabels` removes the label records and binds each label to the index
    of the next instruction. A label that is already a symbol throws
    "Label already exists".
  - `handleVariables` rewrites every operand that starts with a digit to its
    `parseInt` value. It gives every other operand that is not yet a symbol the
    next free address, counting up from 16.
  - `translate` turns an A-record into "0" followed by `itoB(value, 15)`, and a
    C-record into "111" followed by the comp, dest and jump bit patterns from
    the translation tables.

The modules:

| file | module | models |
|---|---|---|
| `wrappers.dfy` | `Wrappers` | `Option` (also stands for JavaScript's `undefined`) and `Result` |
| `binary.dfy` | `Binary` | `itoB`, as the method `ItoB` (the source's loop) proved equal to the function `Bits` |
| `text.dfy` | `Text` | `isWhite`, `isNumber`, and the JavaScript string operations the source relies on: `trim`, one-character `split`, `parseInt` on digit-led text, and a number turned into a property key |
| `lines.dfy` | `Lines` | `removeWhitespace` and `removeComments` as functions over lines |
| `commands.dfy` | `Commands` | `createCommand`'s three record shapes as one datatype, and `handleA`, `handleC`, `handleL` and `parse` for a single line |
| `symbols.dfy` | `Symbols` | `handleLabels` and `handleVariables` as functions of the records and the symbol table |
| `encoding.dfy` | `Encoding` | `translate` for one record, and the whole run `assemble` as the function `Run` |
| `parser.dfy` | `Parsing` | `class Parser`, with the fields `code`, `curr` and `parsed` and the methods that update them |
| `assembler.dfy` | `Assembling` | `class Assembler`, with the fields `parser`, `code`, `sym`, `compiled` and `varStart` and the methods that update them |

Each method of the two classes is proved against the function that specifies
it. Each function's properties are proved as lemmas:

- the round trips of `itoB`;
- parsing as the inverse of writing a record out;
- labels addressing the next instruction;
- variables allocated once each, in order of first occurrence;
- the label clash as the only error;
- one word per instruction line;
- 16 binary digits per word;
- re-assembly giving the same output.

Integers are unbounded; where the source truncates (`itoB` keeps 15 bits), the
truncation is written out.

The behaviour follows the code where it differs from the assembler's documented
design:

- An address that does not fit in 15 bits is not rejected. It is truncated
  modulo 2^15 without a word of warning (`Binary.BitsValue`).
- A mnemonic missing from a translation table is not an error. The word contains
  the text `undefined` in its place (`Encoding.Lookup`). An absent dest or jump
  field is looked up under the key `"undefined"`.
- There is no malformed-instruction error:
  - every line that starts with neither `@` nor `(` is a C-record, even one with
    an empty computation;
  - a label without its `)` loses its last character.
- Whether an operand is a number is decided by its first character only. The
  value is then what `parseInt` reads: `1abc` is 1, `0x1F` is 31, and `0x` is
  `NaN`, which `itoB` prints as "NaN" fifteen times.
- The label pass adds to the symbol table in place before it throws. After a
  clash, `sym` holds the labels bound before it, and the records are unchanged.
- Calling `assemble()` again with no text re-runs the passes on the rewritten
  records:
  - the numbers the first run produced are then taken for variable names (their
    decimal text) and are given addresses;
  - the output is nonetheless the same (`Encoding.Reassemble`).

## Model

| member | source | states |
|---|---|---|
| Binary.Bits | src/assembler.js:9-17 | `itoB(n, k)` is a string of exactly `k` binary digits |
| Binary.ItoB | src/assembler.js:9-17 | the loop that prepends `tmp % 2` and halves `tmp` `bits` times returns `Bits(n, bits)` |
| Binary.FromBits | src/assembler.js:9-17 | the reference decoder of a binary string: its value is below 2 to the power of its length |
| Binary.BitsValue | src/assembler.js:9-17 | `itoB(n, k)` keeps exactly `n` modulo 2^k: values too large are truncated |
| Binary.BitsRoundTrip | src/assembler.js:9-17 | a value below 2^k decodes back from `itoB(n, k)` |
| Binary.FromBitsRoundTrip | src/assembler.js:9-17 | every binary string of length `k` is `itoB` of its own value |
| Binary.TwentyOne | src/assembler.js:9-17 | `itoB(21, 15)` is `000000000010101` |
| Text.IsWhite | src/assembler.js:19-22 | `isWhite`: a character is white exactly when it is space, newline, backspace, tab or carriage return (a predicate; it has no contract of its own) |
| Text.IsNumber | src/assembler.js:24-27 | `isNumber`: a character is a digit exactly when it lies between `0` and `9` (a predicate; it has no contract of its own) |
| Text.TrimStart | src/assembler.js:51 | removes exactly the leading JavaScript white space: the result is a suffix, all removed characters are spaces, the first kept one is not |
| Text.TrimEnd | src/assembler.js:51 | removes exactly the trailing JavaScript white space, symmetrically |
| Text.Trim | src/assembler.js:51 | `trim` leaves no space at either end and leaves a string that has none there unchanged |
| Text.Split | src/assembler.js:51 | `split` on one character gives at least one part, no part holds the separator, and there are two or more parts exactly when the separator occurs |
| Text.SplitJoinBack | src/assembler.js:51 | the parts of a split, joined with the separator, give the text back |
| Text.SplitJoin | src/assembler.js:51 | splitting parts joined with a separator none of them holds gives the parts back |
| Text.SplitNoSep | src/assembler.js:74-75 | a text without the separator splits into itself alone |
| Text.SplitPrefix | src/assembler.js:74-75 | splitting `p` + separator + `t` gives `p` followed by the parts of `t` |
| Text.Leading | src/assembler.js:129 | the longest prefix whose characters all pass the test: every character passes, and the next one does not |
| Text.ParseInt | src/assembler.js:129 | `parseInt` on a digit-led operand gives `NaN` exactly when the operand starts with `0x` or `0X` and no hex digit follows |
| Text.Decimal | src/assembler.js:130 | a number used as a property key is a non-empty string of decimal digits with no leading zero |
| Text.DecimalValue | src/assembler.js:130 | the decimal key of a number reads back as that number |
| Text.LeadingExact | src/assembler.js:129 | the digits read stop exactly where a non-digit follows |
| Text.ParseIntDecimal | src/assembler.js:128-130 | `parseInt` of a number's decimal text, followed by text that starts with neither a digit nor `x`/`X`, gives the number back |
| Text.ValueOfZeros | src/assembler.js:129 | leading zeros add nothing to the value of a digit string |
| Text.ParseIntZeros | src/assembler.js:129 | `parseInt` of any run of zeros, then a number's decimal text, then text that starts with neither a digit nor `x`/`X`, gives the number (`007` is 7) |
| Lines.StripWhite | src/assembler.js:53-55 | the character filter leaves no white character in the line |
| Lines.StripWhiteClean | src/assembler.js:53-55 | the filter leaves a line with no white character unchanged |
| Lines.StripWhiteConcat | src/assembler.js:53-55 | the filter works character by character: the two halves of a line are filtered separately, in order |
| Lines.Stripped | src/assembler.js:53-57 | what `removeWhitespace` keeps of one raw line: the line with its white characters deleted, or nothing when that leaves it empty (a plain function; `Lines.DropBlank` and `Lines.DropBlankConcat` state its effect on a program) |
| Lines.DropBlank | src/assembler.js:52-57 | every line kept is non-empty and holds no white character |
| Lines.RemoveWhitespace | src/assembler.js:50-58 | after `removeWhitespace` every line is non-empty and holds no white character |
| Lines.CutComment | src/assembler.js:62 | `split("//")[0]` is the prefix of the line up to, and not including, its first `//`, or the whole line when it has none |
| Lines.Uncommented | src/assembler.js:61-62 | one line gives at most one line, and that line holds no `//` |
| Lines.UncommentedKeeps | src/assembler.js:61-62 | cutting a non-empty line free of white characters leaves such a line, if anything |
| Lines.RemoveComments | src/assembler.js:60-63 | after `removeComments` no line holds `//` |
| Lines.RemoveCommentsKeeps | src/assembler.js:60-63 | `removeComments` keeps lines non-empty and free of white characters |
| Lines.PreprocessClean | src/assembler.js:43-47 | after `setup` every line in `code` is non-empty, holds no white character and no `//` |
| Lines.Preprocess | src/assembler.js:43-47 | the lines `setup` leaves in `code`: `removeComments` after `removeWhitespace`; `Lines.PreprocessClean` and `Lines.PreprocessJoin` state what they are |
| Lines.DropBlankConcat | src/assembler.js:52-57 | whitespace removal works line by line: a program in two pieces is cleaned piece by piece, in order |
| Lines.RemoveCommentsConcat | src/assembler.js:61-62 | comment removal works line by line, in order |
| Lines.Clean | src/assembler.js:45-46 | both passes of `setup` applied to the lines after the split (a plain function; `Lines.CleanConcat`, `Lines.NoiseVanishes` and `Lines.CleanLinesStay` state its properties) |
| Lines.CleanConcat | src/assembler.js:45-46 | both passes together work line by line, in order |
| Lines.NoiseCleansToNothing | src/assembler.js:45-46 | a blank line, or a line that is a comment once its white characters are deleted, leaves nothing |
| Lines.NoiseVanishes | src/assembler.js:45-46 | inserting a blank or comment line anywhere does not change the cleaned program |
| Lines.CleanLinesStay | src/assembler.js:45-46 | lines that are already clean pass through both passes unchanged |
| Lines.PreprocessJoin | src/assembler.js:43-63 | pre-processing clean lines joined with newlines gives the lines back, in order |
| Commands.SplitHead | src/assembler.js:70 | the first part of a split is the text up to the first separator |
| Commands.ParseA | src/assembler.js:69-71 | `handleA` makes an A-record whose operand is the text after the leading `@`, up to the next `@` |
| Commands.ParseL | src/assembler.js:83-85 | `handleL` makes an L-record whose name is the line without its first and last character (empty for a shorter line) |
| Commands.ParseC | src/assembler.js:73-81 | `handleC` makes a C-record: a jump exactly when there is a `;`; comp and dest hold neither `;` nor `=`; a dest only with a non-empty comp |
| Commands.ParseLine | src/assembler.js:89-94 | the record kind is decided by the first character: A for `@`, L for `(`, C otherwise |
| Commands.ParseLines | src/assembler.js:87-96 | `parse` gives one record per line, at the same index |
| Commands.SplitJump | src/assembler.js:74 | splitting `exp;jmp` at `;` gives back the expression and the jump |
| Commands.SplitDest | src/assembler.js:75-79 | splitting `dest=comp` at `=` gives back the destination and the computation |
| Commands.ParseCShow | src/assembler.js:73-81 | `handleC` reads back every C-record written as `dest=comp;jmp` whose fields hold no separator |
| Commands.ParseCEmptyComp | src/assembler.js:74-80 | for `dest=` with nothing after the `=` (perhaps followed by `;jmp`), the computation is the text before `=` and there is no destination |
| Commands.ParseCExtraJump | src/assembler.js:74 | text after a second `;` is ignored: the jump is the text between the first and the second `;` |
| Commands.ParseLineShow | src/assembler.js:89-94 | parsing a record written out as a line gives the record back, for every record a line can express |
| Symbols.Kept | src/assembler.js:116-121 | the filter callback of `handleLabels` for one record: nothing for a label, the record itself otherwise (a plain function; `Symbols.NonLabelsPrefix` and `Symbols.NonLabelsHasNone` state its effect) |
| Symbols.NonLabels | src/assembler.js:115-122 | the records the label filter keeps: never more than it was given; `Symbols.NonLabelsHasNone`, `Symbols.NonLabelsAt` and `Symbols.NonLabelsConcat` state which ones and in what order |
| Symbols.ScanLabels | src/assembler.js:113-123 | the label pass over the records and the symbol table; `Symbols.ScanLabelsOutcome`, `Symbols.ScanLabelsTable` and `Symbols.LabelBound` state when it throws, what its table holds and what each label is bound to |
| Symbols.ScanLabelsClash | src/assembler.js:117-118 | a label already in the table makes the program's labels not fresh |
| Symbols.ScanLabelsFreshLast | src/assembler.js:117 | a label not yet in the table, after fresh labels, leaves the labels fresh |
| Symbols.NonLabelsHasNone | src/assembler.js:115-122 | no label record survives the label filter |
| Symbols.NonLabelsFrom | src/assembler.js:115-122 | every record that survives the filter comes from the program |
| Symbols.NonLabelsConcat | src/assembler.js:115-122 | the filter works record by record, in order |
| Symbols.NonLabelsAt | src/assembler.js:115-122 | order is kept: the instruction at index `j` moves to the index given by the number of instructions before it |
| Symbols.ScanLabelsKeeps | src/assembler.js:117 | a symbol already in the table keeps its value: the label pass never rebinds it |
| Symbols.ScanLabelsTable | src/assembler.js:117 | after a successful label pass the table holds the old symbols and the declared labels, and nothing else |
| Symbols.ScanLabelsOutcome | src/assembler.js:116-118 | the label pass throws exactly when a label is already a symbol, whether predefined or declared earlier |
| Symbols.ScanLabelsStops | src/assembler.js:118 | once the pass has thrown, later records change nothing |
| Symbols.ScanLabelsGrows | src/assembler.js:117 | a binding made early in the pass stays with the same value |
| Symbols.LabelBound | src/assembler.js:117 | each label is bound to the number of A- and C-records before it (`i - rm`) |
| Symbols.LabelsAddNothing | src/assembler.js:115-122 | a run of labels adds nothing to the filtered records |
| Symbols.LabelTargetsNext | src/assembler.js:113-123 | a label's address is the index of the first A- or C-record that follows it, once the labels are removed |
| Symbols.DuplicateRejected | src/assembler.js:118 | two declarations of one label are always rejected |
| Symbols.VarKey | src/assembler.js:128-130 | a record has a key for the `in` test exactly when it is an A-record whose operand is not a digit-led name |
| Symbols.Rewrite | src/assembler.js:127-129 | a record that is not an A-record with a digit-led operand is returned unchanged; a digit-led operand becomes a number or `NaN`; the record kind is kept, and an operand left as a name is the key the pass looks up |
| Symbols.AllocVarsRewrites | src/assembler.js:126-133 | the variable pass rewrites each record on its own, in place, and keeps their number |
| Symbols.AllocVarsKeeps | src/assembler.js:130-131 | a symbol already in the table keeps its value: the variable pass never rebinds it |
| Symbols.AllocVarsBinds | src/assembler.js:130-131 | after the variable pass every operand key of the program is a symbol |
| Symbols.AllocVars | src/assembler.js:125-134 | the variable pass keeps the number of records and moves `varStart` up by at most one per record; `Symbols.AllocVarsTable` and `Symbols.FirstSeenFirst` state which address each variable gets |
| Symbols.FreshNames | src/assembler.js:130-131 | the variables are distinct and none is an existing symbol |
| Symbols.FreshNamesOccur | src/assembler.js:130-131 | a name is a variable exactly when it is an operand key of the program and not an existing symbol |
| Symbols.AllocVarsTable | src/assembler.js:130-131 | the i-th variable gets address `varStart + i`, `varStart` ends past the last one, and the table holds the old symbols and the variables and nothing else |
| Symbols.FreshNamesPrefix | src/assembler.js:126-133 | the variables found in a prefix of the program come first, in the same order |
| Symbols.FirstSeenFirst | src/assembler.js:130-131 | a variable seen before another gets the smaller address, and every variable address is at least `varStart` |
| Encoding.Lookup | src/assembler.js:145-148 | a table entry inside a template literal: the entry, or the text `undefined` when the key is missing (a plain function; `Encoding.ExampleC` shows it in use) |
| Encoding.KeyOf | src/assembler.js:146-147 | the key an optional field is looked up under: its text, or `undefined` when it is absent (a plain function) |
| Encoding.NaNBits | src/assembler.js:9-17 | `itoB` of `NaN`: "NaN" once per bit, so three characters per bit |
| Encoding.OperandValue | src/assembler.js:140-142 | the number an A-record loads: the symbol's address for a name, the number itself otherwise (a plain function; `Encoding.WordOfA` and `Encoding.AWord` state the word built from it) |
| Encoding.Word | src/assembler.js:137-151 | the word of one A- or C-record: an A-word starts with `0`, a C-word with `111`; `Encoding.AWord` and `Encoding.CWord` state the rest |
| Encoding.Words | src/assembler.js:137-151 | `translate` gives one word per record, in order, each the record's own word |
| Encoding.PrefixedBits | src/assembler.js:139-143 | "0" + `itoB(n, k)` has `k + 1` binary digits, starting with 0 |
| Encoding.WordOfA | src/assembler.js:138-143 | an A-word is "0" + `itoB` of the operand's number or of its symbol's address |
| Encoding.AWord | src/assembler.js:138-143 | an A-word has 16 binary digits, a leading 0, and the value modulo 2^15 in the rest, so a value below 2^15 decodes back |
| Encoding.CWord | src/assembler.js:144-148 | with Hack-width tables a C-word has 16 binary digits: "111", then the comp, dest and jump patterns, each at its place |
| Encoding.WordsBinary | src/assembler.js:136-152 | with Hack-width tables, known mnemonics and no `NaN` operand, every word has 16 binary digits |
| Encoding.VarPassEncodable | src/assembler.js:125-134 | after the label and variable passes no label is left and every operand name is a symbol |
| Encoding.Run | src/assembler.js:154-160 | `assemble` fails exactly when a label clashes with a symbol, and otherwise outputs one word per A- or C-record |
| Encoding.RunBinary | src/assembler.js:154-160 | a successful run outputs only 16-digit binary words when the tables have Hack widths, every mnemonic is known and every operand gives a number |
| Encoding.ScanLabelFree | src/assembler.js:113-123 | with no labels, the label pass changes nothing and cannot throw |
| Encoding.NonLabelsLabelFree | src/assembler.js:115-122 | with no labels, the filter keeps every record |
| Encoding.AllocVarsAgain | src/assembler.js:127-129 | a second variable pass leaves the records of the first as they are |
| Encoding.WordsAgree | src/assembler.js:136-152 | the words read only the symbols the records name: a larger table with the same entries gives the same words |
| Encoding.Reassemble | src/assembler.js:154-160 | assembling again from the state a successful run leaves gives the same output |
| Encoding.Passes | src/assembler.js:113-134 | the records, symbols and `varStart` that `handleLabels` and then `handleVariables` leave after a run without a clash (a plain function; `Assembling.Assembler.Assemble` and `Encoding.Reassemble` state what follows from it) |
| Encoding.AssembleText | src/assembler.js:101-111 | `new Assembler(text).assemble()`: the run over the parsed records of the text, from the predefined symbols and address 16 (a plain function; `Encoding.OneWordPerInstruction` and `Assembling.Assembler.Assemble` state its outcome) |
| Encoding.NonLabelsCount | src/assembler.js:115-122 | the records kept by the label pass are as many as the lines that do not start with `(` |
| Encoding.OneWordPerInstruction | src/assembler.js:154-160 | a run over a text fails exactly on a label clash, and otherwise outputs one word per cleaned line not starting with `(` |
| Encoding.ExampleParse | src/assembler.js:69-71 | `@21` parses to an A-record with the operand text "21" |
| Encoding.ExampleRewrite | src/assembler.js:128-129 | the operand "21" becomes the number 21 |
| Encoding.ExampleWord | src/assembler.js:138-143 | the number 21 assembles to `0000000000010101` |
| Encoding.ExampleC | src/assembler.js:144-148 | `D=D+A` parses to comp `D+A`, dest `D`, no jump; its word uses the jump table's entry under "undefined" |
| Parsing.Parser.constructor | src/assembler.js:39-41 | After `new Parser(text)`, `code` is the pre-processed lines of `text` and `parsed` is empty. |
| Parsing.Parser.Setup | src/assembler.js:43-48 | `code` becomes the pre-processed lines and `parsed` becomes empty |
| Parsing.Parser.RemoveWhitespace | src/assembler.js:50-58 | `code` becomes the trimmed, split, stripped, non-blank lines |
| Parsing.Parser.RemoveComments | src/assembler.js:60-63 | `code` becomes its lines with comment lines dropped and the rest cut at `//` |
| Parsing.Parser.Add | src/assembler.js:65-67 | one record is appended to `parsed` |
| Parsing.Parser.HandleA | src/assembler.js:69-71 | appends the A-record of `curr` |
| Parsing.Parser.HandleC | src/assembler.js:73-81 | appends the C-record of `curr` |
| Parsing.Parser.HandleL | src/assembler.js:83-85 | appends the L-record of `curr` |
| Parsing.Parser.HandleLines | src/assembler.js:89-94 | the loop appends the record of every line of `code`, in order, and leaves `curr` at the last line (unchanged when there is none) |
| Parsing.Parser.Parse | src/assembler.js:87-96 | a non-empty text is set up first; the records of all lines are appended to `parsed`, which is returned; `curr` is left at the last line (unchanged when there is none) |
| Assembling.Assembler.constructor | src/assembler.js:101-103 | a new assembler holds the parsed records, the predefined symbols, no output and `varStart` 16 |
| Assembling.Assembler.Setup | src/assembler.js:105-111 | a fresh parser; `code` is its records, `sym` a copy of the initial symbols, `compiled` empty, `varStart` 16 |
| Assembling.Assembler.HandleLabels | src/assembler.js:113-123 | throws exactly when the label pass meets a clash; otherwise `code` loses its labels; `sym` is the label pass's table either way, partial on a throw |
| Assembling.Assembler.HandleVariables | src/assembler.js:125-134 | `code`, `sym` and `varStart` become the result of the variable pass |
| Assembling.Assembler.Encode | src/assembler.js:137-151 | the `map` callback: a label throws, any other record gives its word |
| Assembling.Assembler.Translate | src/assembler.js:136-152 | throws exactly when a label is left; otherwise `compiled` is the words of `code`, in order |
| Assembling.Assembler.Assemble | src/assembler.js:154-160 | returns `Run` of the state after the optional setup, leaves `compiled` as the output and the passes' records, symbols and `varStart` behind, and on a clash leaves the records unchanged, the partial table, and `compiled` and `varStart` as `setup` made them (or as they were, with no text); with no text `parser` is unchanged, otherwise it is a fresh one |

## Left out

- `main` (src/assembler.js:163-174), and reading `predsym.json` and `translations.json`: file and console I/O. The two tables are parameters of `Assembler`'s constructor.
- `require("assert")` (src/assembler.js:3) is never used.
- JavaScript's `in` also finds inherited properties such as `toString` or `constructor`. The model's symbol table is a plain map with no prototype, so such names are treated as ordinary variables. The same holds for the translation tables: for a mnemonic such as `constructor` the source prints the text of a function, where `Encoding.Lookup` gives `undefined`.
- Strings are sequences of Unicode code points, where JavaScript strings are UTF-16 code units. For a label ending in a character outside the Basic Multilingual Plane, `handleL`'s `slice` (src/assembler.js:84) drops only the low surrogate, while `Commands.ParseL` drops the whole character.
- Numbers are unbounded integers. JavaScript's floating-point precision is lost above 2^53, and `String(n)` switches to exponent notation from 10^21. Neither is modelled, for operands or addresses.
- `createCommand` (src/assembler.js:29-36) is the datatype `Commands.Command`, whose three constructors are the three shapes it builds. The `type` tag strings are the constructor names.
- Aliasing is not modelled: `Assembler.setup` shares `parser.parsed` with `this.code`, and `handleVariables` assigns `value` on the shared record objects. The model keeps the records as values: `HandleVariables` replaces the sequence, so `parser.parsed` is not changed alongside.
- `Parsing.Parser.RemoveWhitespace`: in the source, `code` first holds the raw text and then the array of lines. The model's `code` holds lines only, so the raw text is passed as a parameter.
- `Parsing.Parser.HandleLines` is the `for` loop of `parse`, and `Assembling.Assembler.Encode` is the callback of `translate`'s `map`. Each is a method of its own, so that each proof stays small.
- `Assembling.Assembler.HandleLabels` and `Assembling.Assembler.Translate` report a throw as a `false` result, and `Assembling.Assembler.Assemble` reports it as `Err(LabelExists)`, without the error's message text. `Translate` never throws in a run (`Encoding.Run`), so it has no error value of its own.
- `Assembling.Assembler.Setup` takes the `initials` table as a parameter: the default parameter value of the source is filled in by its callers, which pass `predefined`.
