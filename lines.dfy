/**
 * Line pre-processing of `Parser.setup`: `removeWhitespace` then
 * `removeComments`, each a map and a filter over the program's lines.
 */
module Lines {
  import opened Text

  predicate NoWhite(s: string) {
    forall i :: 0 <= i < |s| ==> !IsWhite(s[i])
  }

  /** A `//` starts at index `i` of `s`. */
  predicate CommentAt(s: string, i: int) {
    0 <= i && i + 1 < |s| && s[i] == '/' && s[i + 1] == '/'
  }

  predicate NoComment(s: string) {
    forall i :: 0 <= i < |s| ==> !CommentAt(s, i)
  }

  predicate StartsWithComment(line: string) {
    CommentAt(line, 0)
  }

  /** What the character filter keeps of one character. */
  function Keep(c: char): string {
    if IsWhite(c) then [] else [c]
  }

  /** One line with every character of `White` deleted (`filter(l => !isWhite(l))`). */
  function StripWhite(line: string): (r: string)
    ensures NoWhite(r)
  {
    if line == [] then [] else Keep(line[0]) + StripWhite(line[1..])
  }

  /** A line with no white character is left as it is. */
  lemma {:induction false} StripWhiteClean(line: string)
    requires NoWhite(line)
    ensures StripWhite(line) == line
  {
    if line != [] {
      StripWhiteClean(line[1..]);
      assert [line[0]] + line[1..] == line;
    }
  }

  /**
   * Stripping works character by character: what is kept of a line is what
   * is kept of its two halves, in their order.
   */
  lemma {:induction false} StripWhiteConcat(a: string, b: string)
    ensures StripWhite(a + b) == StripWhite(a) + StripWhite(b)
  {
    if a == [] {
      assert a + b == b;
    } else {
      var ab := a + b;
      assert ab[0] == a[0] && ab[1..] == a[1..] + b;
      StripWhiteConcat(a[1..], b);
      var k, x, y := Keep(a[0]), StripWhite(a[1..]), StripWhite(b);
      assert StripWhite(ab) == k + (x + y);
      assert StripWhite(a) == k + x;
      assert k + (x + y) == (k + x) + y;
    }
  }

  /** What `removeWhitespace` keeps of one raw line: the stripped line, unless it is empty. */
  function Stripped(line: string): seq<string> {
    var w := StripWhite(line);
    if w == "" then [] else [w]
  }

  /** Each line stripped of white characters, and the lines left empty dropped. */
  function DropBlank(raw: seq<string>): (lines: seq<string>)
    ensures forall i :: 0 <= i < |lines| ==> lines[i] != "" && NoWhite(lines[i])
  {
    if raw == [] then [] else Stripped(raw[0]) + DropBlank(raw[1..])
  }

  /** `removeWhitespace`: trim the text, split it at newlines, strip and drop blank lines. */
  function RemoveWhitespace(code: string): (lines: seq<string>)
    ensures forall i :: 0 <= i < |lines| ==> lines[i] != "" && NoWhite(lines[i])
  {
    DropBlank(Split(Trim(code), '\n'))
  }

  /** `line.split("//")[0]`: the line up to its first `//`. */
  function CutComment(line: string): (r: string)
    ensures |r| <= |line| && r == line[..|r|]
    ensures forall i :: 0 <= i < |r| ==> !CommentAt(line, i)
    ensures r == line || CommentAt(line, |r|)
  {
    if |line| < 2 then line
    else if line[0] == '/' && line[1] == '/' then ""
    else
      var r := [line[0]] + CutComment(line[1..]);
      assert forall i :: 1 <= i < |r| ==> (CommentAt(line, i) <==> CommentAt(line[1..], i - 1));
      r
  }

  /** What `removeComments` keeps of one line: nothing for a comment line, else the line cut at `//`. */
  function Uncommented(line: string): (r: seq<string>)
    ensures |r| <= 1
    ensures forall i :: 0 <= i < |r| ==> NoComment(r[i])
  {
    var cut := CutComment(line);
    assert NoComment(cut) by {
      forall i | 0 <= i < |cut| ensures !CommentAt(cut, i) {
        assert CommentAt(cut, i) ==> CommentAt(line, i);
      }
    }
    if StartsWithComment(line) then [] else [cut]
  }

  /** Cutting a non-empty line that holds no white character leaves such a line, if anything. */
  lemma UncommentedKeeps(line: string)
    requires line != "" && NoWhite(line)
    ensures forall i :: 0 <= i < |Uncommented(line)| ==>
              Uncommented(line)[i] != "" && NoWhite(Uncommented(line)[i])
  {
    var cut := CutComment(line);
    assert forall i :: 0 <= i < |cut| ==> cut[i] == line[i];
  }

  /** `removeComments`: drop the lines that begin with `//`, cut the others at their first `//`. */
  function RemoveComments(lines: seq<string>): (r: seq<string>)
    ensures forall i :: 0 <= i < |r| ==> NoComment(r[i])
  {
    if lines == [] then [] else Uncommented(lines[0]) + RemoveComments(lines[1..])
  }

  /** Lines that are non-empty and free of white characters stay so once cut. */
  lemma {:induction false} RemoveCommentsKeeps(lines: seq<string>)
    requires forall i :: 0 <= i < |lines| ==> lines[i] != "" && NoWhite(lines[i])
    ensures forall i :: 0 <= i < |RemoveComments(lines)| ==>
              RemoveComments(lines)[i] != "" && NoWhite(RemoveComments(lines)[i])
  {
    if lines != [] {
      var rest := lines[1..];
      assert forall i :: 0 <= i < |rest| ==> rest[i] == lines[i + 1];
      UncommentedKeeps(lines[0]);
      RemoveCommentsKeeps(rest);
      var u, v := Uncommented(lines[0]), RemoveComments(rest);
      assert RemoveComments(lines) == u + v;
      forall i | 0 <= i < |u + v| ensures (u + v)[i] != "" && NoWhite((u + v)[i]) {
        if i < |u| {
          assert (u + v)[i] == u[i];
        } else {
          assert (u + v)[i] == v[i - |u|];
        }
      }
    }
  }

  /**
   * What `Parser.setup` leaves in `code`: every line is non-empty, holds no
   * white character and no `//` (so it does not start with one either).
   */
  function Preprocess(code: string): seq<string> {
    RemoveComments(RemoveWhitespace(code))
  }

  lemma PreprocessClean(code: string)
    ensures var lines := Preprocess(code);
      forall i :: 0 <= i < |lines| ==>
        lines[i] != "" && NoWhite(lines[i]) && NoComment(lines[i]) && !StartsWithComment(lines[i])
  {
    var raw := RemoveWhitespace(code);
    RemoveCommentsKeeps(raw);
    var lines := RemoveComments(raw);
    forall i | 0 <= i < |lines|
      ensures lines[i] != "" && NoWhite(lines[i]) && NoComment(lines[i]) && !StartsWithComment(lines[i])
    {
      assert !CommentAt(lines[i], 0);
    }
  }

  /** Both passes work line by line: a program split in two is cleaned in two, in order. */
  lemma {:induction false} DropBlankConcat(a: seq<string>, b: seq<string>)
    ensures DropBlank(a + b) == DropBlank(a) + DropBlank(b)
  {
    if a == [] {
      assert a + b == b;
    } else {
      var ab := a + b;
      assert ab[0] == a[0] && ab[1..] == a[1..] + b;
      DropBlankConcat(a[1..], b);
      var k, x, y := Stripped(a[0]), DropBlank(a[1..]), DropBlank(b);
      assert DropBlank(ab) == k + (x + y);
      assert DropBlank(a) == k + x;
      assert k + (x + y) == (k + x) + y;
    }
  }

  lemma {:induction false} RemoveCommentsConcat(a: seq<string>, b: seq<string>)
    ensures RemoveComments(a + b) == RemoveComments(a) + RemoveComments(b)
  {
    if a == [] {
      assert a + b == b;
    } else {
      var ab := a + b;
      assert ab[0] == a[0] && ab[1..] == a[1..] + b;
      RemoveCommentsConcat(a[1..], b);
      var k, x, y := Uncommented(a[0]), RemoveComments(a[1..]), RemoveComments(b);
      assert RemoveComments(ab) == k + (x + y);
      assert RemoveComments(a) == k + x;
      assert k + (x + y) == (k + x) + y;
    }
  }

  /** Both passes after the split into lines. */
  function Clean(raw: seq<string>): seq<string> {
    RemoveComments(DropBlank(raw))
  }

  /** A blank line, or one that is a comment once its white characters are gone. */
  predicate IsNoise(line: string) {
    var w := StripWhite(line);
    w == "" || StartsWithComment(w)
  }

  lemma {:induction false} CleanConcat(a: seq<string>, b: seq<string>)
    ensures Clean(a + b) == Clean(a) + Clean(b)
  {
    DropBlankConcat(a, b);
    RemoveCommentsConcat(DropBlank(a), DropBlank(b));
  }

  lemma NoiseCleansToNothing(noise: string)
    requires IsNoise(noise)
    ensures Clean([noise]) == []
  {
    var w := StripWhite(noise);
    assert [noise][1..] == [];
    assert DropBlank([noise]) == Stripped(noise);
    if w != "" {
      assert [w][1..] == [];
      assert RemoveComments([w]) == Uncommented(w);
    }
  }

  /**
   * Blank and comment lines vanish without a trace: the lines around them
   * are cleaned exactly as if they were not there.
   */
  lemma NoiseVanishes(a: seq<string>, noise: string, b: seq<string>)
    requires IsNoise(noise)
    ensures Clean(a + [noise] + b) == Clean(a + b)
  {
    NoiseCleansToNothing(noise);
    CleanConcat(a + [noise], b);
    CleanConcat(a, [noise]);
    CleanConcat(a, b);
    assert Clean(a) + [] == Clean(a);
  }

  /** A clean line: what the two passes leave as it is. */
  predicate IsClean(line: string) {
    line != "" && NoWhite(line) && NoComment(line)
  }

  lemma {:induction false} CleanLinesStay(lines: seq<string>)
    requires forall i :: 0 <= i < |lines| ==> IsClean(lines[i])
    ensures Clean(lines) == lines
  {
    if lines != [] {
      CleanLinesStay(lines[1..]);
      assert [lines[0]] + lines[1..] == lines;
      CleanConcat([lines[0]], lines[1..]);
      StripWhiteClean(lines[0]);
      assert DropBlank([lines[0]]) == Stripped(lines[0]) + DropBlank([]) == [lines[0]];
      assert !CommentAt(lines[0], 0);
      assert CutComment(lines[0]) == lines[0];
      assert RemoveComments([lines[0]]) == Uncommented(lines[0]) + RemoveComments([]);
    }
  }

  lemma {:induction false} JoinEnds(parts: seq<string>, sep: char)
    requires |parts| >= 1 && forall i :: 0 <= i < |parts| ==> parts[i] != ""
    ensures var s := Join(parts, sep);
      |s| > 0 && s[0] == parts[0][0] && s[|s| - 1] == parts[|parts| - 1][|parts[|parts| - 1]| - 1]
  {
    if |parts| > 1 {
      var t := Join(parts[1..], sep);
      JoinEnds(parts[1..], sep);
      var s := parts[0] + [sep] + t;
      assert Join(parts, sep) == s;
      assert s[0] == parts[0][0];
      assert s[|s| - 1] == t[|t| - 1];
      assert parts[1..][|parts| - 2] == parts[|parts| - 1];
    }
  }

  /**
   * Pre-processing is the identity on a program that is already clean:
   * the clean lines joined with newlines come back as they were, in order.
   */
  lemma PreprocessJoin(lines: seq<string>)
    requires |lines| >= 1
    requires forall i :: 0 <= i < |lines| ==> IsClean(lines[i])
    requires var first, last := lines[0], lines[|lines| - 1];
      first != "" && last != "" && !IsJsSpace(first[0]) && !IsJsSpace(last[|last| - 1])
    ensures Preprocess(Join(lines, '\n')) == lines
  {
    var text := Join(lines, '\n');
    JoinEnds(lines, '\n');
    assert Trim(text) == text;
    forall i | 0 <= i < |lines| ensures '\n' !in lines[i] {
      assert IsWhite('\n');
    }
    SplitJoin(lines, '\n');
    CleanLinesStay(lines);
  }
}
