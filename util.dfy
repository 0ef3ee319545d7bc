/** The helpers of the ETL scripts: join, resolve and the guard of the date
    parsers that dateparser makes. */
module Util {
  import opened Outcomes
  import opened Text
  import opened PyValues

  /** join spells out every truthy argument with str(). */
  predicate AllPrintable(args: seq<Py>) {
    forall a :: a in args && Truthy(a) ==> Printable(a)
  }

  /** The text of one argument as join sees it: str(arg) when arg is truthy,
      nothing when it is falsy. */
  function Shown(a: Py): seq<string> {
    if Truthy(a) && Printable(a) then [Str(a)] else []
  }

  /** What join appends for one argument: " %s" % arg when arg is truthy. */
  function Piece(a: Py): string {
    if Truthy(a) && Printable(a) then " " + Str(a) else ""
  }

  /** The text join accumulates before its final strip. */
  function Spaced(args: seq<Py>): string {
    if args == [] then "" else Spaced(args[..|args| - 1]) + Piece(args[|args| - 1])
  }

  /** The result of join(*args). */
  function Joined(args: seq<Py>): string
    requires AllPrintable(args)
  {
    Strip(Spaced(args))
  }

  /** join(*args): concatenates " %s" % arg for the truthy arguments and
      strips the result. */
  method Join(args: seq<Py>) returns (r: string)
    requires AllPrintable(args)
    ensures r == Joined(args)
  {
    var result := "";
    for i := 0 to |args|
      invariant result == Spaced(args[..i])
    {
      assert args[..i + 1][..i] == args[..i];
      if Truthy(args[i]) {
        assert args[i] in args;
        result := result + " " + Str(args[i]);
      }
    }
    assert args[..|args|] == args;
    r := Strip(result);
  }

  /** The texts of the truthy arguments, in order. */
  function Words(args: seq<Py>): seq<string> {
    if args == [] then [] else Words(args[..|args| - 1]) + Shown(args[|args| - 1])
  }

  /** " ".join(words) */
  function Unwords(words: seq<string>): string {
    if |words| == 0 then ""
    else if |words| == 1 then words[0]
    else Unwords(words[..|words| - 1]) + " " + words[|words| - 1]
  }

  /** A text that strip leaves alone: not empty, no whitespace at either end. */
  predicate Word(w: string) {
    |w| > 0 && !IsSpace(w[0]) && !IsSpace(w[|w| - 1])
  }

  /** Appending a word to the words: it follows a single space, unless it
      is the only word. */
  lemma UnwordsSnoc(ws: seq<string>, w: string)
    ensures Unwords(ws + [w]) == if ws == [] then w else Unwords(ws) + " " + w
  {
    if ws != [] {
      assert (ws + [w])[..|ws|] == ws;
    }
  }

  lemma SpaceBefore(u: string, w: string)
    ensures (" " + u) + (" " + w) == " " + (u + " " + w)
  {
  }

  /** What join strips is a space followed by the words of the truthy
      arguments separated by single spaces. */
  lemma {:induction false} SpacedWords(args: seq<Py>)
    ensures Spaced(args) == if Words(args) == [] then "" else " " + Unwords(Words(args))
  {
    if args != [] {
      var init := args[..|args| - 1];
      var last := args[|args| - 1];
      SpacedWords(init);
      var ws := Words(init);
      assert Spaced(args) == Spaced(init) + Piece(last);
      assert Words(args) == ws + Shown(last);
      if Truthy(last) && Printable(last) {
        var w := Str(last);
        UnwordsSnoc(ws, w);
        if ws != [] {
          SpaceBefore(Unwords(ws), w);
        }
      } else {
        assert ws + [] == ws;
      }
    }
  }

  lemma {:induction false} UnwordsIsWord(words: seq<string>)
    requires words != []
    requires forall w :: w in words ==> Word(w)
    ensures Word(Unwords(words))
  {
    if |words| > 1 {
      var init := words[..|words| - 1];
      assert forall w :: w in init ==> w in words;
      UnwordsIsWord(init);
      assert words[|words| - 1] in words;
    } else {
      assert words[0] in words;
    }
  }

  /** strip() takes off a leading space and leaves a word alone. */
  lemma StripSpacedWord(w: string)
    requires Word(w)
    ensures Strip(" " + w) == w
  {
    var s := " " + w;
    assert s[1..] == w;
    assert StartCut(s, IsSpace) == 1 + StartCut(w, IsSpace);
    assert s[1..][..|w|] == w;
  }

  /** When every truthy argument prints as a word, join puts single spaces
      between the words of the truthy arguments and skips the falsy ones. */
  lemma JoinWords(args: seq<Py>)
    requires AllPrintable(args)
    requires forall w :: w in Words(args) ==> Word(w)
    ensures Joined(args) == Unwords(Words(args))
  {
    SpacedWords(args);
    if Words(args) != [] {
      UnwordsIsWord(Words(args));
      StripSpacedWord(Unwords(Words(args)));
    }
  }

  /** join() == "" */
  lemma JoinNothing()
    ensures Joined([]) == ""
  {
  }

  /** Words of three arguments. */
  lemma WordsOfThree(args: seq<Py>)
    requires |args| == 3
    ensures Words(args) == Shown(args[0]) + Shown(args[1]) + Shown(args[2])
  {
    var two := args[..2];
    var one := two[..1];
    assert one[..0] == [];
    assert Words(one) == Shown(args[0]);
    assert Words(two) == Words(one) + Shown(args[1]);
    assert Words(args) == Words(two) + Shown(args[2]);
  }

  /** " ".join(["1", "2"]) == "1 2" */
  lemma UnwordsOneTwo(ws: seq<string>)
    requires ws == ["1", "2"]
    ensures Unwords(ws) == "1 2"
  {
    assert ws[..1] == ["1"];
  }

  /** " ".join(["1", "2", "3"]) == "1 2 3" */
  lemma UnwordsOneTwoThree(ws: seq<string>)
    requires ws == ["1", "2", "3"]
    ensures Unwords(ws) == "1 2 3"
  {
    assert ws[..2] == ["1", "2"];
    UnwordsOneTwo(ws[..2]);
  }

  /** join(1, 2, 3) == "1 2 3" */
  lemma JoinNumbers(args: seq<Py>)
    requires |args| == 3 && args[0] == PyInt(1) && args[1] == PyInt(2) && args[2] == PyInt(3)
    ensures AllPrintable(args) && Joined(args) == "1 2 3"
  {
    WordsOfThree(args);
    var ws := Words(args);
    assert ws == ["1", "2", "3"];
    assert Word("1") && Word("2") && Word("3");
    JoinWords(args);
    UnwordsOneTwoThree(ws);
  }

  /** join("1", 2, None) == "1 2" */
  lemma JoinSkipsNone(args: seq<Py>)
    requires |args| == 3 && args[0] == PyStr("1") && args[1] == PyInt(2) && args[2] == PyNone
    ensures AllPrintable(args) && Joined(args) == "1 2"
  {
    WordsOfThree(args);
    var ws := Words(args);
    assert ws == ["1", "2"];
    assert Word("1") && Word("2");
    JoinWords(args);
    UnwordsOneTwo(ws);
  }

  /** resolve(path) with the command line argv: the first argument is the
      root directory, "." when there is none. */
  function Resolve(argv: seq<string>, path: string): (r: string)
    ensures |r| == (if |argv| > 1 then |argv[1]| else 1) + 1 + |path|
    ensures r[|r| - |path|..] == path
    ensures |argv| > 1 ==> r[..|argv[1]|] == argv[1] && r[|argv[1]|] == '/'
    ensures |argv| <= 1 ==> r[..2] == "./"
  {
    var root := if |argv| > 1 then argv[1] else ".";
    root + "/" + path
  }

  /** The parser dateparser(input_format, output_format) returns, applied to
      text; parse stands for datetime.strptime with input_format followed by
      FormattedDateTime with output_format. Falsy text parses to None. */
  function ParseDate(parse: string -> Result<Py>, text: Py): (r: Result<Py>)
    ensures !Truthy(text) ==> r == Ok(PyNone)
    ensures Truthy(text) && text.PyStr? ==> r == parse(text.s)
    ensures Truthy(text) && !text.PyStr? ==> r == Err(TypeError)
  {
    if Truthy(text) then
      if text.PyStr? then parse(text.s) else Err(TypeError)
    else Ok(PyNone)
  }
}
