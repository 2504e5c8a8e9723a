/** `class Parser`: pre-processed lines in `code`, records pushed onto `parsed`. */
module Parsing {
  import Lines
  import opened Commands

  lemma AppendAssoc<T>(a: seq<T>, b: seq<T>, c: seq<T>)
    ensures (a + b) + c == a + (b + c)
  {
  }

  class Parser {
    var code: seq<string>
    var curr: string
    var parsed: seq<Command>

    /** `new Parser(code)`. */
    constructor (text: string)
      ensures code == Lines.Preprocess(text) && parsed == []
    {
      code, curr, parsed := [], "", [];
      new;
      Setup(text);
    }

    method Setup(text: string)
      modifies this`code, this`parsed
      ensures code == Lines.Preprocess(text) && parsed == []
    {
      RemoveWhitespace(text);
      RemoveComments();
      parsed := [];
    }

    /** The raw program text is a parameter here: `code` holds lines once this has run. */
    method RemoveWhitespace(text: string)
      modifies this`code
      ensures code == Lines.RemoveWhitespace(text)
    {
      code := Lines.RemoveWhitespace(text);
    }

    method RemoveComments()
      modifies this`code
      ensures code == Lines.RemoveComments(old(code))
    {
      code := Lines.RemoveComments(code);
    }

    method Add(v: Command)
      modifies this`parsed
      ensures parsed == old(parsed) + [v]
    {
      parsed := parsed + [v];
    }

    method HandleA()
      requires StartsWith(curr, '@')
      modifies this`parsed
      ensures parsed == old(parsed) + [ParseA(curr)]
    {
      Add(ParseA(curr));
    }

    method HandleC()
      modifies this`parsed
      ensures parsed == old(parsed) + [ParseC(curr)]
    {
      Add(ParseC(curr));
    }

    method HandleL()
      modifies this`parsed
      ensures parsed == old(parsed) + [ParseL(curr)]
    {
      Add(ParseL(curr));
    }

    /**
     * `parse(code)`: a non-empty text is set up first (an empty one is
     * falsy and skips `setup`); then one record per line is appended to
     * `parsed`, which is returned.
     */
    method Parse(text: string) returns (r: seq<Command>)
      modifies this
      ensures code == if text != "" then Lines.Preprocess(text) else old(code)
      ensures parsed == (if text != "" then [] else old(parsed)) + ParseLines(code)
      ensures r == parsed
      ensures code != [] ==> curr == code[|code| - 1]
      ensures code == [] ==> curr == old(curr)
    {
      if text != "" {
        Setup(text);
      }
      HandleLines();
      r := parsed;
    }

    /**
     * The `for` loop of `parse`: each line in turn becomes `curr` and is
     * handed to `handleA`, `handleL` or `handleC` by its first character.
     */
    method HandleLines()
      modifies this`curr, this`parsed
      ensures parsed == old(parsed) + ParseLines(code)
      ensures code != [] ==> curr == code[|code| - 1]
      ensures code == [] ==> curr == old(curr)
    {
      ghost var start := parsed;
      var i := 0;
      while i < |code|
        invariant 0 <= i <= |code|
        invariant parsed == start + ParseLines(code[..i])
        invariant i == 0 ==> curr == old(curr)
        invariant i > 0 ==> curr == code[i - 1]
      {
        curr := code[i];
        if StartsWith(curr, '@') {
          HandleA();
        } else if StartsWith(curr, '(') {
          HandleL();
        } else {
          HandleC();
        }
        assert curr == code[i];
        ghost var done, next := ParseLines(code[..i]), [ParseLine(code[i])];
        assert ParseLines(code[..i + 1]) == done + next by {
          assert code[..i + 1][..i] == code[..i];
        }
        AppendAssoc(start, done, next);
        i := i + 1;
      }
      assert code[..i] == code;
    }
  }
}
