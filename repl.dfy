/**
 * The interactive prompt of main.go: a typed line is split on single spaces
 * and its first word picks the command; a line that is a 32-bit integer
 * shows the stored event with that index in full.
 */
module Repl {
  import opened Text
  import opened Events
  import Store

  datatype Command =
    | Summary(args: seq<string>)
    | Clear
    | Quit
    | Reload
    | Show(args: seq<string>)
    | Detail(index: int)
    | Unrecognised(line: string)

  /** The command a prompt line stands for. */
  function ParseCommand(line: string): (c: Command)
    ensures c.Detail? ==> Int32Min <= c.index <= Int32Max
  {
    var args := Split(line);
    match args[0]
    case "" => Summary(["last-prompt"])
    case "clear" => Clear
    case "quit" => Quit
    case "reload" => Reload
    case "show" => Show(args[1..])
    case "summary" => Summary(args[1..])
    case _ =>
      match ParseInt32(line)
      case Some(index) => Detail(index)
      case None => Unrecognised(line)
  }

  /** A line without spaces is a single word. */
  lemma SplitWord(s: string)
    requires ' ' !in s
    ensures Split(s) == [s]
  {
    assert Join([s]) == s;
    SplitJoin([s]);
  }

  /** A line accepted by the integer parser holds no space. */
  lemma {:induction false} NumeralHasNoSpace(line: string)
    requires ParseInt32(line).Some?
    ensures ' ' !in line
  {
    var digits := if line[0] == '-' || line[0] == '+' then line[1..] else line;
    assert IsDigits(digits);
    forall j | 0 <= j < |line| ensures line[j] != ' ' {
      if digits != line && j > 0 {
        assert line[j] == digits[j - 1];
      }
    }
  }

  /** Typing the decimal form of any 32-bit integer asks for the event with that index. */
  lemma DetailRoundTrip(n: int)
    requires Int32Min <= n <= Int32Max
    ensures ParseCommand(FormatInt(n)) == Detail(n)
  {
    var s := FormatInt(n);
    FormatIntRoundTrip(n);
    NumeralHasNoSpace(s);
    SplitWord(s);
    assert s[0] == '-' || IsDigit(s[0]);
    assert s != "" && s != "clear" && s != "quit" && s != "reload" && s != "show" && s != "summary";
  }

  /** A detail command comes only from a line that is one word, read as a 32-bit integer. */
  lemma DetailOnlyFromNumeral(line: string)
    requires ParseCommand(line).Detail?
    ensures Split(line) == [line]
    ensures ParseInt32(line) == Some(ParseCommand(line).index)
  {
    NumeralHasNoSpace(line);
    SplitWord(line);
  }

  /**
   * A line whose first word is no command word asks for an event exactly when
   * it is a 32-bit numeral, and then for the numeral's signed value; any other
   * such line is unrecognised.
   */
  lemma NonCommandLine(line: string)
    requires Split(line)[0] !in {"", "clear", "quit", "reload", "show", "summary"}
    ensures ParseCommand(line).Detail? <==> IsInt32Numeral(line)
    ensures !IsInt32Numeral(line) ==> ParseCommand(line) == Unrecognised(line)
    ensures forall sign, digits | SignedNumeral(line, sign, digits) && Int32Min <= SignedValue(sign, digits) <= Int32Max ::
      ParseCommand(line) == Detail(SignedValue(sign, digits))
  {
    ParseInt32Numeral(line);
  }

  /** A signed numeral asks for the event with its signed value. */
  lemma SignedNumeralLines()
    ensures ParseCommand("-3") == Detail(-3)
    ensures ParseCommand("+3") == Detail(3)
  {
    SplitWord("-3");
    SplitWord("+3");
    assert DecimalValue("3") == 3;
    NumeralParse("-3", "-", "3");
    NumeralParse("+3", "+", "3");
  }

  /** A bare sign, or a word with a letter in it, is not a numeral. */
  lemma NonNumeralLines()
    ensures ParseCommand("-") == Unrecognised("-")
    ensures ParseCommand("abc") == Unrecognised("abc")
    ensures ParseCommand("1x") == Unrecognised("1x")
  {
    SplitWord("-");
    SplitWord("abc");
    SplitWord("1x");
    assert !IsDigit("abc"[0]) && !IsDigit("1x"[1]);
  }

  /** `show` followed by space-separated words passes exactly those words on. */
  lemma ShowRoundTrip(args: seq<string>)
    requires forall a | a in args :: ' ' !in a
    ensures ParseCommand(Join(["show"] + args)) == Show(args)
  {
    SplitJoin(["show"] + args);
    assert (["show"] + args)[1..] == args;
  }

  /** `summary` followed by space-separated words passes exactly those words on. */
  lemma SummaryRoundTrip(args: seq<string>)
    requires forall a | a in args :: ' ' !in a
    ensures ParseCommand(Join(["summary"] + args)) == Summary(args)
  {
    SplitJoin(["summary"] + args);
    assert (["summary"] + args)[1..] == args;
  }

  /** An empty line, or any line that starts with a space, is `summary last-prompt`. */
  lemma LeadingSpaceIsSummary(line: string)
    requires line == [] || line[0] == ' '
    ensures ParseCommand(line) == Summary(["last-prompt"])
  {
    if line != [] {
      assert OccursAt(line, " ", 0);
      assert Index(line, " ") == Some(0);
    }
  }

  /** What the prompt does for a line. */
  datatype Outcome =
    | Lines(rows: map<string, Store.Row>)
    | Listing(listed: Option<seq<nat>>)
    | Full(event: LogEvent)
    | ClearScreen
    | Exit
    | ReloadConfig
    | Unknown(line: string)

  /**
   * One prompt line against the store. The `summary` and `show` windows are
   * parsed with `parseDuration`; `sinceLastPrompt` is the time since the
   * previous prompt. An index outside the history is a runtime panic, `Err`.
   */
  method Execute(store: Store.LogStore, line: string, parseDuration: Store.DurationParser, sinceLastPrompt: int)
    returns (r: Result<Outcome>)
    requires store.Valid()
    ensures forall key | key in store.statistics :: Store.Sound(|store.history|, store.statistics[key])
    ensures match ParseCommand(line)
      case Summary(args) =>
        r == Ok(Lines(Store.RowsOf(Store.Times(store.history), store.statistics, store.statistics.Keys,
                                   Store.SummaryWindow(args, parseDuration, sinceLastPrompt))))
      case Show(args) =>
        r == Ok(Listing(if |args| < 2 then None
                        else Some(Store.Listing(Store.Categories(store.history), Store.Times(store.history),
                                                |store.history|, args[0], "*",
                                                Store.ShowWindow(args[1], parseDuration)))))
      case Detail(index) =>
        if 0 <= index < |store.history| then r == Ok(Full(store.history[index])) else r.Err?
      case Clear => r == Ok(ClearScreen)
      case Quit => r == Ok(Exit)
      case Reload => r == Ok(ReloadConfig)
      case Unrecognised(text) => r == Ok(Unknown(text))
  {
    Store.BucketsSound(Store.Categories(store.history));
    var command := ParseCommand(line);
    match command
    case Summary(args) =>
      var rows := store.Summarize(args, parseDuration, sinceLastPrompt);
      r := Ok(Lines(rows));
    case Show(args) =>
      var listed := store.Show(args, parseDuration);
      r := Ok(Listing(listed));
    case Detail(index) =>
      var event := store.Detail(index);
      r := if event.Ok? then Ok(Full(event.value)) else Err(event.message);
    case Clear => r := Ok(ClearScreen);
    case Quit => r := Ok(Exit);
    case Reload => r := Ok(ReloadConfig);
    case Unrecognised(text) => r := Ok(Unknown(text));
  }
}
