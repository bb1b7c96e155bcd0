/**
 * The todo list's command parser: one input line becomes a `Command` or a
 * `BuildError`. The first word names the command (compared after
 * lowercasing); the id-taking commands parse a `usize`, and `add` collects
 * a possibly quoted text from the remaining words.
 */
module TodoCommand {
  import opened Wrappers
  import opened RustStr
  import opened TodoTask

  datatype Command =
    | List
    | Add(text: string)
    | Do(id: TaskId)
    | UnDo(id: TaskId)
    | Delete(id: TaskId)
    | Exit

  datatype BuildError =
    | MissingCommandName
    | MissingArgument(usage: string)
    | UnknownCommand
    | NotUsizeTaskId
  {
    /** `BuildError::val`: the message shown to the user. */
    function Val(): string {
      match this
      case MissingCommandName => "Missing command name"
      case MissingArgument(text) => "Missing argument: " + text
      case UnknownCommand => "Unknown command"
      case NotUsizeTaskId => "Given task id is not an usize"
    }
  }

  const MISSING_ARGUMENT_PREFIX: string := "Missing argument: "

  /** Every error has its own message, and a missing-argument message carries its usage text. */
  lemma {:induction false} ValInjective(e1: BuildError, e2: BuildError)
    ensures e1.Val() == e2.Val() <==> e1 == e2
  {
    if e1 != e2 {
      if e1.MissingArgument? && e2.MissingArgument? {
        assert e1.Val()[|MISSING_ARGUMENT_PREFIX|..] == e1.usage;
        assert e2.Val()[|MISSING_ARGUMENT_PREFIX|..] == e2.usage;
      } else if e1.MissingArgument? || e2.MissingArgument? {
        // "Missing argument: …" differs from every fixed message at position 8
        assert e1.Val()[8] != e2.Val()[8];
      }
    }
  }

  /** A message starts with "Missing argument: " exactly when it reports a missing argument. */
  lemma MissingArgumentMessage(e: BuildError)
    ensures e.MissingArgument? <==>
      (|e.Val()| >= |MISSING_ARGUMENT_PREFIX| && e.Val()[..|MISSING_ARGUMENT_PREFIX|] == MISSING_ARGUMENT_PREFIX)
    ensures e.MissingArgument? ==> e.Val()[|MISSING_ARGUMENT_PREFIX|..] == e.usage
  {
    if !e.MissingArgument? && |e.Val()| >= |MISSING_ARGUMENT_PREFIX| {
      assert e.Val()[8] != MISSING_ARGUMENT_PREFIX[8];
    }
  }

  // ---------------------------------------------------------------------------
  // parse_text_arg
  // ---------------------------------------------------------------------------

  predicate IsQuote(c: char) {
    c == '"' || c == '\''
  }

  /** A one-character quote on its own: slicing it between its quotes panics. */
  predicate IsLoneQuote(s: string) {
    |s| == 1 && IsQuote(s[0])
  }

  /** What `parse_text_arg` may be called with without panicking. */
  predicate TextArgDefined(input: seq<string>) {
    !(|input| == 1 && IsLoneQuote(input[0]))
  }

  predicate EndsWith(s: string, c: char) {
    |s| > 0 && s[|s| - 1] == c
  }

  /** The one-element case: one surrounding pair of matching quotes is stripped. */
  function Unquote(s: string): string
    requires !IsLoneQuote(s)
  {
    if |s| > 0 && IsQuote(s[0]) && s[|s| - 1] == s[0] then s[1..|s| - 1] else s
  }

  /** Every piece trimmed, as the loop trims each piece before looking at it. */
  function TrimAll(input: seq<string>): (r: seq<string>)
    ensures |r| == |input|
    ensures forall k :: 0 <= k < |input| ==> r[k] == Trim(input[k])
  {
    if input == [] then [] else [Trim(input[0])] + TrimAll(input[1..])
  }

  /** Trimming leaves the pieces `split_whitespace` yields as they are. */
  lemma TrimAllOfWords(ws: seq<string>)
    requires forall k :: 0 <= k < |ws| ==> IsWord(ws[k])
    ensures TrimAll(ws) == ws
  {
  }

  /**
   * The accumulation after an opening quote `d`, with `arg` collected so far,
   * over trimmed pieces: they are appended, separated by one space once `arg`
   * is non-empty, up to the first piece ending in `d`, whose `d` is dropped;
   * without such a piece the result is "".
   */
  function Closing(pieces: seq<string>, d: char, arg: string): string {
    if pieces == [] then ""
    else
      var piece := pieces[0];
      var spaced := if arg != [] then arg + " " else arg;
      if EndsWith(piece, d) then spaced + piece[..|piece| - 1]
      else Closing(pieces[1..], d, spaced + piece)
  }

  /** What `parse_text_arg` returns. */
  function TextArg(input: seq<string>): string
    requires TextArgDefined(input)
  {
    if |input| == 1 then Unquote(input[0])
    else if input == [] then ""
    else
      var pieces := TrimAll(input);
      var first := pieces[0];
      if |first| > 0 && IsQuote(first[0]) then Closing(pieces[1..], first[0], first[1..])
      else first
  }

  /** `parse_text_arg`, with its loop over the pieces. */
  method ParseTextArg(input: seq<string>) returns (arg: string)
    requires TextArgDefined(input)
    ensures arg == TextArg(input)
  {
    arg := "";
    var delimiter: Option<char> := None;
    var gotClosingDelimiter := false;

    if |input| == 1 {
      arg := arg + input[0];
      if |arg| > 0 && ((arg[0] == '"' && arg[|arg| - 1] == '"') || (arg[0] == '\'' && arg[|arg| - 1] == '\'')) {
        arg := arg[1..|arg| - 1];
      }
      return;
    }

    var i := 0;
    while i < |input|
      invariant 0 <= i <= |input|
      invariant !gotClosingDelimiter
      invariant delimiter.None? <==> i == 0
      invariant i == 0 ==> arg == ""
      invariant i > 0 ==> TextArg(input) == Closing(TrimAll(input)[i..], delimiter.value, arg)
    {
      var piece := Trim(input[i]);
      assert piece == TrimAll(input)[i];

      if delimiter.None? {
        if |piece| > 0 && (piece[0] == '"' || piece[0] == '\'') {
          assert TextArg(input) == Closing(TrimAll(input)[1..], piece[0], piece[1..]);
          delimiter := Some(piece[0]);
          arg := arg + piece[1..];
          assert arg == piece[1..];
          i := i + 1;
          continue;
        } else {
          return piece;
        }
      }

      ghost var pieces := TrimAll(input)[i..];
      assert pieces[0] == piece;
      // The source also breaks here when no delimiter is set; one always is.
      if arg != [] {
        arg := arg + " ";
      }

      if EndsWith(piece, delimiter.value) {
        arg := arg + piece[..|piece| - 1];
        gotClosingDelimiter := true;
        break;
      }

      assert pieces[1..] == TrimAll(input)[i + 1..];
      assert TextArg(input) == Closing(pieces[1..], delimiter.value, arg + piece);
      arg := arg + piece;
      i := i + 1;
    }

    if !gotClosingDelimiter {
      return "";
    }
  }

  /**
   * After an opening quote `d`, with a non-empty text collected, the pieces
   * up to the first one ending in `d` are joined by single spaces, that
   * piece's `d` is dropped, and everything after it is ignored.
   */
  lemma {:induction false} ClosingJoins(mids: seq<string>, last: string, extra: seq<string>, d: char, arg: string)
    requires arg != []
    requires forall k :: 0 <= k < |mids| ==> !EndsWith(mids[k], d)
    ensures Closing(mids + [last + [d]] + extra, d, arg) == Join([arg] + mids + [last], " ")
  {
    var pieces := mids + [last + [d]] + extra;
    if mids == [] {
      assert pieces[0] == last + [d];
      assert (last + [d])[..|last|] == last;
      assert [arg] + mids + [last] == [arg, last];
      assert Join([arg, last], " ") == arg + " " + Join([last], " ");
    } else {
      assert pieces[0] == mids[0];
      assert pieces[1..] == mids[1..] + [last + [d]] + extra;
      ClosingJoins(mids[1..], last, extra, d, arg + " " + mids[0]);
      var tail := mids[1..] + [last];
      assert [arg + " " + mids[0]] + mids[1..] + [last] == [arg + " " + mids[0]] + tail;
      assert ([arg] + mids + [last])[1..] == [mids[0]] + tail;
      assert Join([arg] + mids + [last], " ") == arg + " " + Join([mids[0]] + tail, " ");
      assert Join([arg + " " + mids[0]] + tail, " ") == (arg + " " + mids[0]) + " " + Join(tail, " ");
      assert Join([mids[0]] + tail, " ") == mids[0] + " " + Join(tail, " ");
    }
  }

  /** Without a later piece ending in the opening quote the result is empty. */
  lemma {:induction false} ClosingUnclosed(pieces: seq<string>, d: char, arg: string)
    requires forall k :: 0 <= k < |pieces| ==> !EndsWith(pieces[k], d)
    ensures Closing(pieces, d, arg) == ""
  {
    if pieces != [] {
      var spaced := if arg != [] then arg + " " else arg;
      ClosingUnclosed(pieces[1..], d, spaced + pieces[0]);
    }
  }

  /** Several pieces whose first is not quoted: that first piece alone. */
  lemma TextArgUnquoted(input: seq<string>)
    requires |input| >= 2 && IsWord(input[0]) && !IsQuote(input[0][0])
    ensures TextArg(input) == input[0]
  {
  }

  predicate AllWords(ws: seq<string>) {
    forall k :: 0 <= k < |ws| ==> IsWord(ws[k])
  }

  lemma AllWordsConcat(a: seq<string>, b: seq<string>)
    requires AllWords(a) && AllWords(b)
    ensures AllWords(a + b)
  {
  }

  /** With a quoted first word `d…`, the words after it are scanned for the closing `d`. */
  lemma TextArgQuotedStart(input: seq<string>, d: char, first: string)
    requires |input| >= 2 && input[0] == [d] + first && IsQuote(d)
    requires AllWords(input)
    ensures TextArg(input) == Closing(input[1..], d, first)
  {
    TrimAllOfWords(input);
    assert ([d] + first)[1..] == first;
  }

  /**
   * A quoted text over several words: `'a m1 … mk b'` followed by anything
   * gives "a m1 … mk b".
   */
  lemma QuotedTextArg(d: char, first: string, mids: seq<string>, last: string, extra: seq<string>)
    requires IsQuote(d) && first != []
    requires IsWord([d] + first) && IsWord(last + [d])
    requires forall k :: 0 <= k < |mids| ==> IsWord(mids[k]) && !EndsWith(mids[k], d)
    requires forall k :: 0 <= k < |extra| ==> IsWord(extra[k])
    ensures TextArgDefined([[d] + first] + (mids + [last + [d]] + extra))
    ensures TextArg([[d] + first] + (mids + [last + [d]] + extra)) == Join([first] + mids + [last], " ")
  {
    var rest := mids + [last + [d]] + extra;
    var input := [[d] + first] + rest;
    AllWordsConcat(mids, [last + [d]]);
    AllWordsConcat(mids + [last + [d]], extra);
    AllWordsConcat([[d] + first], rest);
    assert input[0] == [d] + first;
    TextArgQuotedStart(input, d, first);
    assert input[1..] == rest;
    ClosingJoins(mids, last, extra, d, first);
  }

  /** A quoted first word that no later word closes gives "". */
  lemma UnclosedTextArg(d: char, first: string, rest: seq<string>)
    requires IsQuote(d) && IsWord([d] + first) && |rest| >= 1
    requires forall k :: 0 <= k < |rest| ==> IsWord(rest[k]) && !EndsWith(rest[k], d)
    ensures TextArg([[d] + first] + rest) == ""
  {
    var input := [[d] + first] + rest;
    AllWordsConcat([[d] + first], rest);
    TextArgQuotedStart(input, d, first);
    assert input[1..] == rest;
    ClosingUnclosed(rest, d, first);
  }

  // ---------------------------------------------------------------------------
  // build_command
  // ---------------------------------------------------------------------------

  /** The first word and the remaining words of a line. */
  function CommandWords(input: string): seq<string> {
    Words(Trim(input))
  }

  /** `add` followed by a lone quote: `parse_text_arg` panics on it. */
  predicate AddPanics(input: string) {
    var words := CommandWords(input);
    |words| == 2 && ToAsciiLower(words[0]) == "add" && IsLoneQuote(words[1])
  }

  /** `build_command` once the line is split into words. */
  function BuildFromWords(words: seq<string>): Result<Command, BuildError>
    requires !(|words| == 2 && ToAsciiLower(words[0]) == "add" && IsLoneQuote(words[1]))
  {
    if words == [] then Err(MissingCommandName)
    else
      var name := ToAsciiLower(words[0]);
      var args := words[1..];
      if name == "list" then Ok(List)
      else if name == "add" then
        var text := TextArg(args);
        if text == "" then Err(MissingArgument("add 'tast text'")) else Ok(Add(text))
      else if name == "do" || name == "undo" || name == "delete" then
        if args == [] then Err(MissingArgument(name + " TASK_ID"))
        else match ParseUsize(args[0])
          case None => Err(NotUsizeTaskId)
          case Some(n) =>
            var id := TaskId.New(n);
            Ok(if name == "do" then Do(id) else if name == "undo" then UnDo(id) else Delete(id))
      else if name == "exit" then Ok(Exit)
      else Err(UnknownCommand)
  }

  /** `build_command`: the line is trimmed and split at whitespace. */
  function BuildCommand(input: string): Result<Command, BuildError>
    requires !AddPanics(input)
  {
    BuildFromWords(CommandWords(input))
  }

  /** The names the parser recognises, after lowercasing. */
  predicate IsCommandName(name: string) {
    name in {"list", "add", "do", "undo", "delete", "exit"}
  }

  /** Only an empty list of words lacks a command name. */
  lemma MissingCommandNameIffNoWords(words: seq<string>)
    requires !(|words| == 2 && ToAsciiLower(words[0]) == "add" && IsLoneQuote(words[1]))
    ensures BuildFromWords(words) == Err(MissingCommandName) <==> words == []
  {
    if words != [] {
      var name := ToAsciiLower(words[0]);
      var r := BuildFromWords(words);
      if name == "list" {
        assert r == Ok(List);
      } else if name == "add" {
        assert r.Ok? || r == Err(MissingArgument("add 'tast text'"));
      } else if name == "do" || name == "undo" || name == "delete" {
        assert r.Ok? || r.error.MissingArgument? || r.error.NotUsizeTaskId?;
      } else if name == "exit" {
        assert r == Ok(Exit);
      } else {
        assert r == Err(UnknownCommand);
      }
    }
  }

  /** A line is blank exactly when the parser reports the command name missing. */
  lemma MissingCommandNameIffBlank(input: string)
    requires !AddPanics(input)
    ensures BuildCommand(input) == Err(MissingCommandName) <==> Words(input) == []
  {
    WordsOfTrim(input);
    MissingCommandNameIffNoWords(CommandWords(input));
  }

  /** A first word that is no command name, in any case, is an unknown command. */
  lemma UnknownCommandIffUnknownName(input: string)
    requires Words(input) != [] && !AddPanics(input)
    ensures BuildCommand(input) == Err(UnknownCommand) <==> !IsCommandName(ToAsciiLower(Words(input)[0]))
  {
    WordsOfTrim(input);
    UnknownCommandIffUnknownWord(CommandWords(input));
  }

  /** The first word decides whether the command is unknown. */
  lemma UnknownCommandIffUnknownWord(words: seq<string>)
    requires words != []
    requires !(|words| == 2 && ToAsciiLower(words[0]) == "add" && IsLoneQuote(words[1]))
    ensures BuildFromWords(words) == Err(UnknownCommand) <==> !IsCommandName(ToAsciiLower(words[0]))
  {
    var name := ToAsciiLower(words[0]);
    var r := BuildFromWords(words);
    if name == "list" {
      assert r == Ok(List);
    } else if name == "add" {
      assert r.Ok? || r == Err(MissingArgument("add 'tast text'"));
    } else if name == "do" || name == "undo" || name == "delete" {
      assert r.Ok? || r.error.MissingArgument? || r.error.NotUsizeTaskId?;
    } else if name == "exit" {
      assert r == Ok(Exit);
    } else {
      assert !IsCommandName(name);
    }
  }

  /** The line made of the given words separated by single spaces. */
  function Line(words: seq<string>): string {
    Join(words, " ")
  }

  lemma {:induction false} CommandWordsOfLine(words: seq<string>)
    requires forall k :: 0 <= k < |words| ==> IsWord(words[k])
    ensures CommandWords(Line(words)) == words
  {
    WordsOfTrim(Line(words));
    WordsOfJoin(words);
  }

  /** `list` and `exit`, in any case, ignore whatever words follow them. */
  lemma ListAndExitIgnoreArguments(name: string, rest: seq<string>)
    requires IsWord(name) && ToAsciiLower(name) in {"list", "exit"}
    requires forall k :: 0 <= k < |rest| ==> IsWord(rest[k])
    ensures !AddPanics(Line([name] + rest))
    ensures BuildCommand(Line([name] + rest)) == if ToAsciiLower(name) == "list" then Ok(List) else Ok(Exit)
  {
    CommandWordsOfLine([name] + rest);
  }

  /** The command an id-taking name builds around an id. */
  function IdCommand(name: string, id: TaskId): Command {
    if name == "do" then Do(id) else if name == "undo" then UnDo(id) else Delete(id)
  }

  /** `do`, `undo` or `delete` with no argument reports the usage `<name> TASK_ID`. */
  lemma IdCommandMissingArgument(name: string)
    requires IsWord(name) && ToAsciiLower(name) in {"do", "undo", "delete"}
    ensures !AddPanics(Line([name]))
    ensures BuildCommand(Line([name])) == Err(MissingArgument(ToAsciiLower(name) + " TASK_ID"))
  {
    CommandWordsOfLine([name]);
  }

  /**
   * `do`, `undo` or `delete` followed by an argument: a usize gives the
   * matching command on that id, anything else `NotUsizeTaskId`; further
   * words are ignored.
   */
  lemma IdCommandWithArgument(name: string, arg: string, rest: seq<string>)
    requires IsWord(name) && ToAsciiLower(name) in {"do", "undo", "delete"}
    requires IsWord(arg)
    requires forall k :: 0 <= k < |rest| ==> IsWord(rest[k])
    ensures !AddPanics(Line([name, arg] + rest))
    ensures BuildCommand(Line([name, arg] + rest)) ==
      match ParseUsize(arg)
      case None => Err(NotUsizeTaskId)
      case Some(n) => Ok(IdCommand(ToAsciiLower(name), TaskId.New(n)))
  {
    var words := [name, arg] + rest;
    CommandWordsOfLine(words);
    IdCommandOfWords(words);
  }

  /** `BuildFromWords` on an id-taking command name followed by an argument. */
  lemma IdCommandOfWords(words: seq<string>)
    requires |words| >= 2 && ToAsciiLower(words[0]) in {"do", "undo", "delete"}
    ensures ToAsciiLower(words[0]) != "add"
    ensures BuildFromWords(words) ==
      match ParseUsize(words[1])
      case None => Err(NotUsizeTaskId)
      case Some(n) => Ok(IdCommand(ToAsciiLower(words[0]), TaskId.New(n)))
  {
    var name := ToAsciiLower(words[0]);
    assert name == "do" || name == "undo" || name == "delete";
    assert name != "list" && name != "add";
    assert words[1..][0] == words[1];
  }

  /** Writing an id-taking command with a usize id and parsing the line gives the command back. */
  lemma IdCommandRoundTrip(name: string, n: nat)
    requires name in {"do", "undo", "delete"}
    requires n <= USIZE_MAX
    ensures !AddPanics(Line([name, NatToString(n)]))
    ensures BuildCommand(Line([name, NatToString(n)])) == Ok(IdCommand(name, TaskId(n)))
  {
    var digits := NatToString(n);
    assert IsWord(digits);
    LowerCaseName(name);
    IdCommandWithArgument(name, digits, []);
    assert [name, digits] + [] == [name, digits];
    ParseUsizeOfNatToString(n);
  }

  /** Lowercasing leaves a string without capital letters as it is. */
  lemma LowerCaseUnchanged(s: string)
    requires |s| > 0 && forall i :: 0 <= i < |s| ==> 'a' <= s[i] <= 'z'
    ensures IsWord(s) && ToAsciiLower(s) == s
  {
    var lower := ToAsciiLower(s);
    forall i | 0 <= i < |s|
      ensures !IsWhitespace(s[i]) && lower[i] == s[i]
    {
    }
  }

  /** The id-taking command names are lower-case words. */
  lemma LowerCaseName(name: string)
    requires name in {"do", "undo", "delete"}
    ensures IsWord(name) && ToAsciiLower(name) == name
  {
    LowerCaseUnchanged(name);
  }

  /** `add` gives `Add(s)` exactly when the text argument `s` is non-empty, and the usage error otherwise. */
  lemma AddIffNonEmptyText(name: string, args: seq<string>)
    requires IsWord(name) && ToAsciiLower(name) == "add"
    requires forall k :: 0 <= k < |args| ==> IsWord(args[k])
    requires TextArgDefined(args)
    ensures !AddPanics(Line([name] + args))
    ensures TextArg(args) != "" ==> BuildCommand(Line([name] + args)) == Ok(Add(TextArg(args)))
    ensures TextArg(args) == "" ==> BuildCommand(Line([name] + args)) == Err(MissingArgument("add 'tast text'"))
  {
    CommandWordsOfLine([name] + args);
    assert ([name] + args)[1..] == args;
  }

  // ---------------------------------------------------------------------------
  // The crate's own test cases
  // ---------------------------------------------------------------------------

  /** Printable ASCII without the space: such a string is one word. */
  lemma GraphicWord(s: string)
    requires s != []
    requires forall i :: 0 <= i < |s| ==> '!' <= s[i] <= '~'
    ensures IsWord(s)
  {
  }

  /** A single piece loses one pair of surrounding quotes. */
  lemma ParseTextArgSingleExamples()
    ensures TextArg(["input"]) == "input"
    ensures TextArg(["'input'"]) == "input"
  {
  }

  /** Several words without a quote give the first word. */
  lemma ParseTextArgUnquotedExample()
    ensures TextArg(["input", "with", "more", "words", "that", "should", "be", "one"]) == "input"
  {
    GraphicWord("input");
    TextArgUnquoted(["input", "with", "more", "words", "that", "should", "be", "one"]);
  }

  /** A quoted text over several words is collected without its quotes. */
  lemma ParseTextArgSingleQuotedExample()
    ensures TextArg(["'input", "with", "more", "words'"]) == "input with more words"
  {
    var mids := ["with", "more"];
    QuotedExamplePieces();
    QuotedExampleJoined();
    GraphicWord("'input");
    GraphicWord("words'");
    GraphicWord("with");
    GraphicWord("more");
    QuotedTextArg('\'', "input", mids, "words", []);
  }

  lemma QuotedExamplePieces()
    ensures [['\''] + "input"] + (["with", "more"] + ["words" + ['\'']] + []) == ["'input", "with", "more", "words'"]
  {
    assert ['\''] + "input" == "'input";
    assert "words" + ['\''] == "words'";
  }

  lemma QuotedExampleJoined()
    ensures Join(["input"] + ["with", "more"] + ["words"], " ") == "input with more words"
  {
    assert ["input"] + ["with", "more"] + ["words"] == ["input", "with", "more", "words"];
    assert Join(["words"], " ") == "words";
    assert Join(["more", "words"], " ") == "more words";
    assert Join(["with", "more", "words"], " ") == "with more words";
  }

  /** A quote that no later word closes gives the empty text. */
  lemma ParseTextArgUnclosedExample()
    ensures TextArg(["\"not", "closed"]) == ""
  {
    GraphicWord("\"not");
    GraphicWord("closed");
    assert ['"'] + "not" == "\"not";
    assert [['"'] + "not"] + ["closed"] == ["\"not", "closed"];
    UnclosedTextArg('"', "not", ["closed"]);
  }

  /** Words after the closing quote are ignored. */
  lemma ParseTextArgTrailingWordsExample()
    ensures TextArg(["\"input", "text\"", "more", "'other", "text'"]) == "input text"
  {
    var extra := ["more", "'other", "text'"];
    assert [['"'] + "input"] + ([] + ["text" + ['"']] + extra) == ["\"input", "text\"", "more", "'other", "text'"] by {
      assert ['"'] + "input" == "\"input";
      assert "text" + ['"'] == "text\"";
    }
    assert Join(["input"] + [] + ["text"], " ") == "input text" by {
      assert ["input"] + [] + ["text"] == ["input", "text"];
      assert Join(["text"], " ") == "text";
    }
    GraphicWord("\"input");
    GraphicWord("text\"");
    forall k | 0 <= k < |extra| ensures IsWord(extra[k]) {
      GraphicWord(extra[k]);
    }
    QuotedTextArg('"', "input", [], "text", extra);
  }

  // ---------------------------------------------------------------------------
  // Lines with extra whitespace
  // ---------------------------------------------------------------------------

  /** Only the words of a line matter: the line and its words rejoined by single spaces build the same command. */
  lemma BuildCommandOfWords(input: string)
    ensures CommandWords(input) == Words(input)
    ensures AddPanics(input) <==> AddPanics(Line(Words(input)))
    ensures !AddPanics(input) ==> BuildCommand(input) == BuildFromWords(Words(input))
    ensures !AddPanics(input) ==> BuildCommand(input) == BuildCommand(Line(Words(input)))
  {
    WordsOfTrim(input);
    CommandWordsOfLine(Words(input));
  }

  /** Whitespace before and after a line of words adds no word. */
  lemma PaddedLineWords(pre: string, words: seq<string>, post: string)
    requires AllWhitespace(pre) && AllWhitespace(post) && AllWords(words)
    ensures Words(pre + Line(words) + post) == words
  {
    WordsIgnoreTrailingWhitespace(pre + Line(words), post);
    WordsSkipWhitespace(pre, Line(words));
    WordsOfJoin(words);
  }

  /** `build_command` on a line of words with whitespace around it is `BuildFromWords` on those words. */
  lemma BuildCommandOfPaddedLine(pre: string, words: seq<string>, post: string)
    requires AllWhitespace(pre) && AllWhitespace(post) && AllWords(words)
    requires !(|words| == 2 && ToAsciiLower(words[0]) == "add" && IsLoneQuote(words[1]))
    ensures !AddPanics(pre + Line(words) + post)
    ensures BuildCommand(pre + Line(words) + post) == BuildFromWords(words)
  {
    PaddedLineWords(pre, words, post);
    WordsOfTrim(pre + Line(words) + post);
  }

  /** A word followed by more words, joined by single spaces. */
  lemma LineCons(w: string, ws: seq<string>)
    requires ws != []
    ensures Line([w] + ws) == w + " " + Line(ws)
  {
    assert ([w] + ws)[1..] == ws;
  }

  /** The empty line has no command name. */
  lemma EmptyLineTest()
    ensures !AddPanics("") && BuildCommand("") == Err(MissingCommandName)
  {
    BuildCommandOfWords("");
  }

  /** `list` and `exit` followed by two spaces. */
  lemma ListAndExitTest(name: string)
    requires name == "list" || name == "exit"
    ensures !AddPanics(name + "  ")
    ensures BuildCommand(name + "  ") == if name == "list" then Ok(List) else Ok(Exit)
  {
    LowerCaseUnchanged(name);
    assert name + "  " == "" + Line([name]) + "  ";
    PaddedLineWords("", [name], "  ");
    BuildCommandOfWords(name + "  ");
    assert [name] + [] == [name];
    ListAndExitIgnoreArguments(name, []);
  }

  /** `do`, `undo` and `delete` alone report their usage. */
  lemma IdMissingArgumentTest(name: string)
    requires name in {"do", "undo", "delete"}
    ensures !AddPanics(name) && BuildCommand(name) == Err(MissingArgument(name + " TASK_ID"))
    ensures MISSING_ARGUMENT_PREFIX + name <= BuildCommand(name).error.Val()
  {
    LowerCaseName(name);
    assert Line([name]) == name;
    IdCommandMissingArgument(name);
    assert MISSING_ARGUMENT_PREFIX + name + " TASK_ID" == (MISSING_ARGUMENT_PREFIX + name) + " TASK_ID";
  }

  /** ` do 1`, ` undo 1` and ` delete 1` act on task 1. */
  lemma IdOneTest(name: string)
    requires name in {"do", "undo", "delete"}
    ensures !AddPanics(" " + name + " 1") && BuildCommand(" " + name + " 1") == Ok(IdCommand(name, TaskId(1)))
  {
    LowerCaseName(name);
    assert NatToString(1) == "1";
    GraphicWord("1");
    var input := " " + name + " 1";
    assert input == " " + Line([name, "1"]) + "" by {
      TwoWordLine(name, "1");
      assert input == " " + name + " " + "1";
    }
    PaddedLineWords(" ", [name, "1"], "");
    BuildCommandOfWords(input);
    IdCommandRoundTrip(name, 1);
  }

  /** ` do not_a_number` and its `undo` and `delete` forms have no usize id. */
  lemma IdNotANumberTest(name: string)
    requires name in {"do", "undo", "delete"}
    ensures !AddPanics(" " + name + " not_a_number")
    ensures BuildCommand(" " + name + " not_a_number") == Err(NotUsizeTaskId)
  {
    NotANumberWord();
    IdBadArgument(name, "not_a_number");
    assert " " + name + " not_a_number" == " " + name + " " + "not_a_number";
  }

  /** `not_a_number` is one word and no usize. */
  lemma NotANumberWord()
    ensures IsWord("not_a_number") && ParseUsize("not_a_number") == None
  {
    var nan := "not_a_number";
    GraphicWord(nan);
    assert !IsDigit(nan[0]);
  }

  /** After a leading space, an id-taking name followed by a word that is no usize builds `NotUsizeTaskId`. */
  lemma IdBadArgument(name: string, arg: string)
    requires name in {"do", "undo", "delete"}
    requires IsWord(arg) && ParseUsize(arg) == None
    ensures !AddPanics(" " + name + " " + arg)
    ensures BuildCommand(" " + name + " " + arg) == Err(NotUsizeTaskId)
  {
    LowerCaseName(name);
    TwoWordLine(name, arg);
    PaddedLineWords(" ", [name, arg], "");
    BuildCommandOfWords(" " + name + " " + arg);
    assert [name, arg] + [] == [name, arg];
    IdCommandWithArgument(name, arg, []);
  }

  /** A space, a word, a space and a word form the line of those two words after a space. */
  lemma TwoWordLine(a: string, b: string)
    ensures " " + a + " " + b == " " + Line([a, b]) + ""
  {
    assert " " + a + " " + b == " " + (a + " " + b) + "";
    LineCons(a, [b]);
    assert [a] + [b] == [a, b];
  }

  /** `add` alone reports the usage of `add`. */
  lemma AddMissingTextTest()
    ensures !AddPanics("add") && BuildCommand("add") == Err(MissingArgument("add 'tast text'"))
    ensures MISSING_ARGUMENT_PREFIX + "add" <= BuildCommand("add").error.Val()
  {
    LowerCaseUnchanged("add");
    assert "add" == "" + Line(["add"]) + "";
    BuildCommandOfPaddedLine("", ["add"], "");
    assert TextArg([]) == "";
  }

  /** ` add` followed by `Test task` between single or double quotes. */
  lemma AddQuotedTextTest(d: char)
    requires d == '\'' || d == '"'
    ensures !AddPanics(" add " + [d] + "Test task" + [d])
    ensures BuildCommand(" add " + [d] + "Test task" + [d]) == Ok(Add("Test task"))
  {
    var first, last := [d] + "Test", "task" + [d];
    var words := ["add", first, last];
    QuotedTestArg(d);
    QuotedTestLine(d);
    LowerCaseUnchanged("add");
    BuildCommandOfPaddedLine(" ", words, "");
    assert words[1..] == [first, last];
  }

  /** The text argument of the quoted `Test task`. */
  lemma QuotedTestArg(d: char)
    requires d == '\'' || d == '"'
    ensures IsWord([d] + "Test") && IsWord("task" + [d])
    ensures TextArgDefined([[d] + "Test", "task" + [d]])
    ensures TextArg([[d] + "Test", "task" + [d]]) == "Test task"
  {
    var first, last := [d] + "Test", "task" + [d];
    GraphicWord(first);
    GraphicWord(last);
    QuotedTextArg(d, "Test", [], "task", []);
    assert [first] + ([] + [last] + []) == [first, last];
    LineCons("Test", ["task"]);
    assert ["Test"] + [] + ["task"] == ["Test"] + ["task"];
  }

  /** The quoted `add` test line is its three words after a space. */
  lemma QuotedTestLine(d: char)
    ensures " add " + [d] + "Test task" + [d] == " " + Line(["add", [d] + "Test", "task" + [d]]) + ""
  {
    var first, last := [d] + "Test", "task" + [d];
    LineCons(first, [last]);
    assert [first] + [last] == [first, last];
    LineCons("add", [first, last]);
    assert ["add"] + [first, last] == ["add", first, last];
  }

  /** A line starting with the word `an` or `this` is an unknown command, whatever follows. */
  lemma UnknownCommandTest(first: string, rest: string)
    requires first == "an" || first == "this"
    ensures !AddPanics(first + " " + rest) && BuildCommand(first + " " + rest) == Err(UnknownCommand)
  {
    LowerCaseUnchanged(first);
    WordThenSpace(first, rest);
    WordsOfTrim(first + " " + rest);
    UnknownCommandIffUnknownName(first + " " + rest);
  }

  /** A line whose first word names no command is an unknown command, whatever follows. */
  lemma UnknownFirstWord(name: string, rest: seq<string>)
    requires IsWord(name) && !IsCommandName(ToAsciiLower(name)) && AllWords(rest)
    ensures !AddPanics(Line([name] + rest)) && BuildCommand(Line([name] + rest)) == Err(UnknownCommand)
  {
    BuildCommandOfPaddedLine("", [name] + rest, "");
    assert "" + Line([name] + rest) + "" == Line([name] + rest);
    UnknownCommandIffUnknownWord([name] + rest);
  }
}
