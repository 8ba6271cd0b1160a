/**
 * The PHP parser of events/php.go: five shapes tried in turn — the
 * "PHP Stack trace:" header, an SQL error, a general PHP error (whose
 * uncaught-exception content carries a whole stack trace), a stack frame and
 * a stack frame in eval()'d code.
 */
module PhpParser {
  import opened Text
  import opened Regexp
  import opened Events
  import opened Settings

  /** `^(?P<source>.*?): PHP Stack trace:` */
  function HeaderPattern(): Re {
    Cat(Group(1, LazyStar(AnyChar)), Lit(": PHP Stack trace:"))
  }

  /** `^php: SQL Error \(store_(?P<storeId>[0-9]{1,})\): (?P<content>.{1,}) in (?P<file>[^ ]{1,}) on line (?P<line>[0-9]{1,})` */
  function SqlPattern(): Re {
    Cat(Lit("php: SQL Error (store_"), Cat(Group(1, Plus(Digit)), Cat(Lit("): "), Cat(Group(2, Plus(AnyChar)),
      Cat(Lit(" in "), Cat(Group(3, Plus(NonSpace)), Cat(Lit(" on line "), Group(4, Plus(Digit)))))))))
  }

  /** `^(?P<source>.*?): PHP (?P<level>.*?):  (?P<content>.{1,}) in (?P<file>[^ ]{1,}) on line (?P<line>[0-9]{1,})` */
  function ErrorPattern(): Re {
    Cat(Group(1, LazyStar(AnyChar)), Cat(Lit(": PHP "), Cat(Group(2, LazyStar(AnyChar)), Cat(Lit(":  "),
      Cat(Group(3, Plus(AnyChar)), Cat(Lit(" in "), Cat(Group(4, Plus(NonSpace)), Cat(Lit(" on line "),
      Group(5, Plus(Digit))))))))))
  }

  /**
   * `^Uncaught exception '(?P<type>.*?)' with message '(?P<message>.*?)' in
   * (?P<firstFile>[^ ]{1,}):(?P<firstLine>[0-9]{1,})(?P<stackTrace>.*)`, applied to
   * an error's content.
   */
  function UncaughtPattern(): Re {
    Cat(Lit("Uncaught exception '"), Cat(Group(1, LazyStar(AnyChar)), Cat(Lit("' with message '"),
      Cat(Group(2, LazyStar(AnyChar)), Cat(Lit("' in "), Cat(Group(3, Plus(NonSpace)), Cat(Lit(":"),
      Cat(Group(4, Plus(Digit)), Group(5, Star(AnyChar))))))))))
  }

  /** `#(?P<number>[0-9]{1,})#(?P<index>[0-9]{1,}) (?P<file>[^ ]{1,})\((?P<line>[0-9]{1,})\): ` */
  function EntryHead(): Re {
    Cat(Lit("#"), Cat(Group(1, Plus(Digit)), Cat(Lit("#"), Cat(Group(2, Plus(Digit)), Cat(Lit(" "),
      Cat(Group(3, Plus(NonSpace)), Cat(Lit("("), Cat(Group(4, Plus(Digit)), Lit("): ")))))))))
  }

  /** One entry of an uncaught exception's stack trace: the head, then `(?P<details>.*?)`. */
  function EntryPattern(): Re {
    Cat(EntryHead(), Group(5, LazyStar(AnyChar)))
  }

  /**
   * `^(?P<source>.*?): PHP[ ]{1,}(?P<number>[0-9]{1,})\. (?P<method>.*)\((?P<parameters>.{0,})\) `
   * `(?P<file>[^ ]*):(?P<line>[0-9]{1,})$`
   */
  function FramePattern(): Re {
    Cat(Group(1, LazyStar(AnyChar)), Cat(Lit(": PHP"), Cat(Plus(SpaceChar), Cat(Group(2, Plus(Digit)),
      Cat(Lit(". "), Cat(Group(3, Star(AnyChar)), Cat(Lit("("), Cat(Group(4, Star(AnyChar)), Cat(Lit(") "),
      Cat(Group(5, Star(NonSpace)), Cat(Lit(":"), Cat(Group(6, Plus(Digit)), EndOfText))))))))))))
  }

  /**
   * `^(?P<source>.*?): PHP[ ]{1,}(?P<number>[0-9]{1,})\. (?P<method>[^ ]*) (?P<file>[^ ]*)`
   * `\((?P<line>[0-9]{1,})\) : eval\(\)'d code:(?P<evalLine>[0-9]{1,})$`
   */
  function EvalPattern(): Re {
    Cat(Group(1, LazyStar(AnyChar)), Cat(Lit(": PHP"), Cat(Plus(SpaceChar), Cat(Group(2, Plus(Digit)),
      Cat(Lit(". "), Cat(Group(3, Star(NonSpace)), Cat(Lit(" "), Cat(Group(4, Star(NonSpace)), Cat(Lit("("),
      Cat(Group(5, Plus(Digit)), Cat(Lit(") : eval()'d code:"), Cat(Group(6, Plus(Digit)), EndOfText))))))))))))
  }

  /** The event the "PHP Stack trace:" header line stands for: a frame with every field zero. */
  function HeaderFrame(syslogTime: int): StackFrame {
    StackFrame(syslogTime, 0, "", "", "", 0)
  }

  /**
   * The frame one stack-trace entry gives.  An overflowing numeral stops the
   * process; the message then names the exception's captures, not the
   * entry's, as the source does.
   */
  function EntryFrame(syslogTime: int, exception: Captures, entry: Captures): Result<StackFrame> {
    var index := ParseInt32(Cap(entry, 2));
    var line := ParseInt32(Cap(entry, 4));
    if index.None? then Err("Could not parse number: " + Cap(exception, 2))
    else if line.None? then Err("Could not parse number: " + Cap(exception, 4))
    else Ok(StackFrame(syslogTime, index.value, Cap(entry, 5), "", Cap(entry, 3), line.value))
  }

  /** What each entry gives, in order. */
  function EntryResults(syslogTime: int, exception: Captures, entries: seq<Captures>): (rs: seq<Result<StackFrame>>)
    ensures |rs| == |entries|
    ensures forall j :: 0 <= j < |entries| ==> rs[j] == EntryFrame(syslogTime, exception, entries[j])
  {
    seq(|entries|, j requires 0 <= j < |entries| => EntryFrame(syslogTime, exception, entries[j]))
  }

  /** The frames of the entries, in order; the first entry that fails stops the process. */
  function EntryFrames(syslogTime: int, exception: Captures, entries: seq<Captures>): Result<seq<StackFrame>> {
    Collect(EntryResults(syslogTime, exception, entries))
  }

  /** The SQL-error shape: the store ID joins the content. */
  function SqlEvent(syslogTime: int, m: Captures): (r: Result<Option<LogEvent>>)
    ensures r.Err? || (r.value.Some? && r.value.value.Php? && r.value.value.syslogTime == syslogTime)
  {
    var line := ParseInt32(Cap(m, 4));
    if line.None? then Err("Could not parse line: " + Cap(m, 4))
    else Ok(Some(Php(syslogTime, "SQL Error", Cap(m, 2) + " (store ID: " + Cap(m, 1) + ")", Cap(m, 3), line.value, [])))
  }

  /** The general error, before its content is examined for an uncaught exception. */
  function PlainError(syslogTime: int, m: Captures, line: int): LogEvent {
    Php(syslogTime, Cap(m, 2), Cap(m, 3), Cap(m, 4), line, [])
  }

  /**
   * The general shape: an uncaught exception's content is rewritten to its
   * type and message, and its stack-trace entries become frames.
   */
  function ErrorEvent(syslogTime: int, m: Captures): (r: Result<Option<LogEvent>>)
    ensures r.Err? || (r.value.Some? && r.value.value.Php? && r.value.value.syslogTime == syslogTime)
  {
    var line := ParseInt32(Cap(m, 5));
    if line.None? then Err("Could not parse line: " + Cap(m, 5))
    else
      var event := PlainError(syslogTime, m, line.value);
      var exception := Submatch(UncaughtPattern(), Cap(m, 3));
      if exception.None? then Ok(Some(event))
      else
        var x := exception.value;
        var frames := EntryFrames(syslogTime, x, FindAll(EntryPattern(), Cap(x, 5), 0));
        if frames.Err? then Err(frames.message)
        else Ok(Some(event.(content := Cap(x, 1) + ": " + Cap(x, 2), stackTraceEvents := frames.value)))
  }

  /** A standalone stack frame. */
  function FrameEvent(syslogTime: int, m: Captures): (r: Result<Option<LogEvent>>)
    ensures r.Err? || (r.value.Some? && r.value.value.PhpStackTrace? && r.value.value.frame.syslogTime == syslogTime)
  {
    var number := ParseInt32(Cap(m, 2));
    var line := ParseInt32(Cap(m, 6));
    if number.None? then Err("Could not parse number: " + Cap(m, 2))
    else if line.None? then Err("Could not parse line: " + Cap(m, 6))
    else Ok(Some(PhpStackTrace(StackFrame(syslogTime, number.value, Cap(m, 3), Cap(m, 4), Cap(m, 5), line.value))))
  }

  /** A stack frame in eval()'d code: the line in parentheses, no parameters. */
  function EvalEvent(syslogTime: int, m: Captures): (r: Result<Option<LogEvent>>)
    ensures r.Err? || (r.value.Some? && r.value.value.PhpStackTrace? && r.value.value.frame.syslogTime == syslogTime)
  {
    var number := ParseInt32(Cap(m, 2));
    var line := ParseInt32(Cap(m, 5));
    if number.None? then Err("Could not parse number: " + Cap(m, 2))
    else if line.None? then Err("Could not parse line: " + Cap(m, 5))
    else Ok(Some(PhpStackTrace(StackFrame(syslogTime, number.value, Cap(m, 3), "", Cap(m, 4), line.value))))
  }

  /** `NewPhpLogEvent`: the first shape that matches decides. */
  function PhpEvent(syslogTime: int, source: string, message: string): (r: Result<Option<LogEvent>>)
    ensures r.Ok? && r.value.Some? ==>
      (r.value.value.Php? || r.value.value.PhpStackTrace?) && r.value.value.GetSyslogTime() == syslogTime
  {
    var header := Submatch(HeaderPattern(), message);
    var sql := Submatch(SqlPattern(), message);
    var error := Submatch(ErrorPattern(), message);
    var frame := Submatch(FramePattern(), message);
    var eval := Submatch(EvalPattern(), message);
    if header.Some? then Ok(Some(PhpStackTrace(HeaderFrame(syslogTime))))
    else if sql.Some? then SqlEvent(syslogTime, sql.value)
    else if error.Some? then ErrorEvent(syslogTime, error.value)
    else if frame.Some? then FrameEvent(syslogTime, frame.value)
    else if eval.Some? then EvalEvent(syslogTime, eval.value)
    else Ok(None)
  }

  /**
   * The general error with the frames of an uncaught exception's stack trace
   * attached one at a time, as the source's loop does.
   */
  method AttachEntries(event: LogEvent, exception: Captures, entries: seq<Captures>) returns (r: Result<LogEvent>)
    requires event.Php?
    ensures var frames := EntryFrames(event.syslogTime, exception, entries);
      r == if frames.Err? then Err(frames.message)
           else Ok(event.(stackTraceEvents := event.stackTraceEvents + frames.value))
  {
    ghost var results := EntryResults(event.syslogTime, exception, entries);
    ghost var done: seq<StackFrame> := [];
    var current := event;
    var i := 0;
    while i < |entries|
      invariant 0 <= i <= |entries|
      invariant Collect(results[..i]) == Ok(done)
      invariant current.Php? && current.stackTraceEvents == event.stackTraceEvents + done
      invariant current == event.(stackTraceEvents := current.stackTraceEvents)
    {
      var frame := EntryFrame(event.syslogTime, exception, entries[i]);
      if frame.Err? {
        assert results[..i + 1][..i] == results[..i];
        CollectFirstError(results, i + 1);
        return Err(frame.message);
      }
      CollectSnoc(results, i, done);
      current := current.AddStackTraceEvent(frame.value);
      done := done + [frame.value];
      i := i + 1;
    }
    assert results[..i] == results;
    return Ok(current);
  }

  /** The general shape, with the stack-trace loop written out. */
  method NewErrorEvent(syslogTime: int, m: Captures) returns (r: Result<Option<LogEvent>>)
    ensures r == ErrorEvent(syslogTime, m)
  {
    var line := ParseInt32(Cap(m, 5));
    if line.None? {
      return Err("Could not parse line: " + Cap(m, 5));
    }
    var event := PlainError(syslogTime, m, line.value);
    var exception := Submatch(UncaughtPattern(), Cap(m, 3));
    if exception.Some? {
      var x := exception.value;
      event := Php(syslogTime, Cap(m, 2), Cap(x, 1) + ": " + Cap(x, 2), Cap(m, 4), line.value, []);
      var entries := FindAll(EntryPattern(), Cap(x, 5), 0);
      var attached := AttachEntries(event, x, entries);
      if attached.Err? {
        return Err(attached.message);
      }
      assert [] + EntryFrames(syslogTime, x, entries).value == EntryFrames(syslogTime, x, entries).value;
      event := attached.value;
    }
    return Ok(Some(event));
  }

  /** `NewPhpLogEvent`: the shapes tried in turn. */
  method NewPhpLogEvent(syslogTime: int, source: string, message: string) returns (r: Result<Option<LogEvent>>)
    ensures r == PhpEvent(syslogTime, source, message)
  {
    var matches := Submatch(HeaderPattern(), message);
    if matches.Some? {
      return Ok(Some(PhpStackTrace(HeaderFrame(syslogTime))));
    }
    matches := Submatch(SqlPattern(), message);
    if matches.Some? {
      return SqlEvent(syslogTime, matches.value);
    }
    matches := Submatch(ErrorPattern(), message);
    if matches.Some? {
      r := NewErrorEvent(syslogTime, matches.value);
      return;
    }
    matches := Submatch(FramePattern(), message);
    if matches.Some? {
      return FrameEvent(syslogTime, matches.value);
    }
    matches := Submatch(EvalPattern(), message);
    if matches.Some? {
      return EvalEvent(syslogTime, matches.value);
    }
    return Ok(None);
  }

  // ---------------------------------------------------------------------------
  // What the captures hold

  lemma SqlOwners()
    ensures Owner(SqlPattern(), 1) == Some(Plus(Digit)) && Binding(SqlPattern(), 1)
    ensures Owner(SqlPattern(), 4) == Some(Plus(Digit)) && Binding(SqlPattern(), 4)
  {
  }

  /** The store ID and the line of an SQL error are decimal digits. */
  lemma SqlCaptures(message: string)
    requires Submatch(SqlPattern(), message).Some?
    ensures var m := Submatch(SqlPattern(), message).value; IsDigits(Cap(m, 1)) && IsDigits(Cap(m, 4))
  {
    SqlOwners();
    DigitsCapture(SqlPattern(), message, 1);
    DigitsCapture(SqlPattern(), message, 4);
  }

  lemma ErrorOwners()
    ensures Owner(ErrorPattern(), 5) == Some(Plus(Digit)) && Binding(ErrorPattern(), 5)
  {
  }

  /** The line of a general error is decimal digits. */
  lemma ErrorCaptures(message: string)
    requires Submatch(ErrorPattern(), message).Some?
    ensures IsDigits(Cap(Submatch(ErrorPattern(), message).value, 5))
  {
    ErrorOwners();
    DigitsCapture(ErrorPattern(), message, 5);
  }

  lemma EntryHeadOwners()
    ensures MinLength(EntryHead()) >= 1
    ensures Owner(EntryHead(), 2) == Some(Plus(Digit)) && Binding(EntryHead(), 2)
    ensures Owner(EntryHead(), 4) == Some(Plus(Digit)) && Binding(EntryHead(), 4)
  {
  }

  /** Every stack-trace entry's index and line are decimal digits. */
  lemma EntryCaptures(trace: string)
    ensures MinLength(EntryHead()) >= 1
    ensures forall h | h in FindAll(EntryHead(), trace, 0) :: IsDigits(Cap(h, 2)) && IsDigits(Cap(h, 4))
  {
    EntryHeadOwners();
    FindAllOwned(EntryHead(), trace, 2);
    FindAllOwned(EntryHead(), trace, 4);
  }

  lemma FrameOwners()
    ensures Owner(FramePattern(), 2) == Some(Plus(Digit)) && Binding(FramePattern(), 2)
    ensures Owner(FramePattern(), 6) == Some(Plus(Digit)) && Binding(FramePattern(), 6)
  {
  }

  /** The number and the line of a stack frame are decimal digits. */
  lemma FrameCaptures(message: string)
    requires Submatch(FramePattern(), message).Some?
    ensures var m := Submatch(FramePattern(), message).value; IsDigits(Cap(m, 2)) && IsDigits(Cap(m, 6))
  {
    FrameOwners();
    DigitsCapture(FramePattern(), message, 2);
    DigitsCapture(FramePattern(), message, 6);
  }

  lemma EvalOwners()
    ensures Owner(EvalPattern(), 2) == Some(Plus(Digit)) && Binding(EvalPattern(), 2)
    ensures Owner(EvalPattern(), 5) == Some(Plus(Digit)) && Binding(EvalPattern(), 5)
  {
  }

  /** The number and the parenthesised line of an eval()'d frame are decimal digits. */
  lemma EvalCaptures(message: string)
    requires Submatch(EvalPattern(), message).Some?
    ensures var m := Submatch(EvalPattern(), message).value; IsDigits(Cap(m, 2)) && IsDigits(Cap(m, 5))
  {
    EvalOwners();
    DigitsCapture(EvalPattern(), message, 2);
    DigitsCapture(EvalPattern(), message, 5);
  }

  // ---------------------------------------------------------------------------
  // The stack-trace entries

  /**
   * The entries of a stack trace are the matches of their head, each with an
   * empty `details`: the lazy group at the end of the pattern never takes a
   * character.
   */
  lemma EntriesAreHeads(trace: string)
    ensures MinLength(EntryHead()) >= 1
    ensures var entries := FindAll(EntryPattern(), trace, 0);
      var heads := FindAll(EntryHead(), trace, 0);
      |entries| == |heads| && forall j :: 0 <= j < |heads| ==> entries[j] == heads[j][5 := ""]
  {
    EntryHeadOwners();
    FindAllTail(EntryHead(), 5, AnyChar, trace, 0);
  }

  // ---------------------------------------------------------------------------
  // The shapes

  /** The "PHP Stack trace:" header is tried first and gives a frame with every field zero. */
  lemma HeaderFirst(syslogTime: int, source: string, message: string)
    requires Submatch(HeaderPattern(), message).Some?
    ensures PhpEvent(syslogTime, source, message) == Ok(Some(PhpStackTrace(StackFrame(syslogTime, 0, "", "", "", 0))))
  {
  }

  /**
   * An SQL error: level "SQL Error", the store ID appended to the content, and
   * the file and line captured; only a line beyond 32 bits stops the process.
   */
  lemma SqlShape(syslogTime: int, source: string, message: string)
    requires Submatch(HeaderPattern(), message).None? && Submatch(SqlPattern(), message).Some?
    ensures var m := Submatch(SqlPattern(), message).value;
      IsDigits(Cap(m, 1)) && IsDigits(Cap(m, 4)) &&
      (PhpEvent(syslogTime, source, message).Err? <==> !FitsInt32(Cap(m, 4)))
    ensures var m := Submatch(SqlPattern(), message).value;
      FitsInt32(Cap(m, 4)) ==> (PhpEvent(syslogTime, source, message) ==
        Ok(Some(Php(syslogTime, "SQL Error", Cap(m, 2) + " (store ID: " + Cap(m, 1) + ")", Cap(m, 3),
                    DecimalValue(Cap(m, 4)), []))))
  {
    SqlCaptures(message);
  }

  /**
   * A general error whose content is no uncaught exception: level, content,
   * file and line captured, no frames.
   */
  lemma ErrorShape(syslogTime: int, source: string, message: string)
    requires Submatch(HeaderPattern(), message).None? && Submatch(SqlPattern(), message).None?
    requires Submatch(ErrorPattern(), message).Some?
    requires Submatch(UncaughtPattern(), Cap(Submatch(ErrorPattern(), message).value, 3)).None?
    ensures var m := Submatch(ErrorPattern(), message).value;
      IsDigits(Cap(m, 5)) && (PhpEvent(syslogTime, source, message).Err? <==> !FitsInt32(Cap(m, 5)))
    ensures var m := Submatch(ErrorPattern(), message).value;
      FitsInt32(Cap(m, 5)) ==> (PhpEvent(syslogTime, source, message) ==
        Ok(Some(Php(syslogTime, Cap(m, 2), Cap(m, 3), Cap(m, 4), DecimalValue(Cap(m, 5)), []))))
  {
    ErrorCaptures(message);
  }

  /** The frame an entry gives, read off the entry's head. */
  lemma EntryFromHead(syslogTime: int, exception: Captures, h: Captures)
    requires IsDigits(Cap(h, 2)) && IsDigits(Cap(h, 4))
    ensures EntryFrame(syslogTime, exception, h[5 := ""]).Ok? <==> FitsInt32(Cap(h, 2)) && FitsInt32(Cap(h, 4))
    ensures EntryFrame(syslogTime, exception, h[5 := ""]).Ok? ==> (EntryFrame(syslogTime, exception, h[5 := ""]).value ==
      StackFrame(syslogTime, DecimalValue(Cap(h, 2)), "", "", Cap(h, 3), DecimalValue(Cap(h, 4))))
  {
    var e := h[5 := ""];
    assert Cap(e, 2) == Cap(h, 2) && Cap(e, 3) == Cap(h, 3) && Cap(e, 4) == Cap(h, 4) && Cap(e, 5) == "";
  }

  /** The `j`-th entry of a stack trace gives the frame its head describes. */
  lemma TraceEntry(syslogTime: int, exception: Captures, trace: string, j: nat)
    requires j < |FindAll(EntryHead(), trace, 0)|
    ensures var heads := FindAll(EntryHead(), trace, 0);
      var results := EntryResults(syslogTime, exception, FindAll(EntryPattern(), trace, 0));
      && |results| == |heads|
      && IsDigits(Cap(heads[j], 2)) && IsDigits(Cap(heads[j], 4))
      && (results[j].Ok? <==> FitsInt32(Cap(heads[j], 2)) && FitsInt32(Cap(heads[j], 4)))
      && (results[j].Ok? ==> (results[j].value ==
            StackFrame(syslogTime, DecimalValue(Cap(heads[j], 2)), "", "", Cap(heads[j], 3), DecimalValue(Cap(heads[j], 4)))))
  {
    var heads := FindAll(EntryHead(), trace, 0);
    var entries := FindAll(EntryPattern(), trace, 0);
    EntryCaptures(trace);
    EntriesAreHeads(trace);
    assert heads[j] in heads;
    assert entries[j] == heads[j][5 := ""];
    EntryFromHead(syslogTime, exception, heads[j]);
  }

  /**
   * The frames of a stack trace: one per entry, in order, numbered by the
   * entry's index, with its file and line and with neither method nor
   * parameters; an index or line beyond 32 bits stops the process.
   */
  lemma TraceFrames(syslogTime: int, exception: Captures, trace: string)
    ensures var heads := FindAll(EntryHead(), trace, 0);
      forall j :: 0 <= j < |heads| ==> IsDigits(Cap(heads[j], 2)) && IsDigits(Cap(heads[j], 4))
    ensures var heads := FindAll(EntryHead(), trace, 0);
      var frames := EntryFrames(syslogTime, exception, FindAll(EntryPattern(), trace, 0));
      frames.Ok? <==> forall j :: 0 <= j < |heads| ==> FitsInt32(Cap(heads[j], 2)) && FitsInt32(Cap(heads[j], 4))
    ensures var heads := FindAll(EntryHead(), trace, 0);
      var frames := EntryFrames(syslogTime, exception, FindAll(EntryPattern(), trace, 0));
      frames.Ok? ==>
        && |frames.value| == |heads|
        && forall j :: 0 <= j < |heads| ==> (frames.value[j] ==
             StackFrame(syslogTime, DecimalValue(Cap(heads[j], 2)), "", "", Cap(heads[j], 3), DecimalValue(Cap(heads[j], 4))))
  {
    var heads := FindAll(EntryHead(), trace, 0);
    var results := EntryResults(syslogTime, exception, FindAll(EntryPattern(), trace, 0));
    EntriesAreHeads(trace);
    CollectEach(results);
    forall j | 0 <= j < |heads|
      ensures IsDigits(Cap(heads[j], 2)) && IsDigits(Cap(heads[j], 4))
      ensures results[j].Ok? <==> FitsInt32(Cap(heads[j], 2)) && FitsInt32(Cap(heads[j], 4))
      ensures results[j].Ok? ==> (results[j].value ==
        StackFrame(syslogTime, DecimalValue(Cap(heads[j], 2)), "", "", Cap(heads[j], 3), DecimalValue(Cap(heads[j], 4))))
    {
      TraceEntry(syslogTime, exception, trace, j);
    }
  }

  /**
   * A general error whose content is an uncaught exception: the content
   * becomes "type: message" and the trace's entries become the frames.  It
   * stops the process exactly when its line, or the index or line of some
   * entry, exceeds 32 bits.
   */
  lemma UncaughtShape(syslogTime: int, source: string, message: string)
    requires Submatch(HeaderPattern(), message).None? && Submatch(SqlPattern(), message).None?
    requires Submatch(ErrorPattern(), message).Some?
    requires Submatch(UncaughtPattern(), Cap(Submatch(ErrorPattern(), message).value, 3)).Some?
    ensures var m := Submatch(ErrorPattern(), message).value;
      var x := Submatch(UncaughtPattern(), Cap(m, 3)).value;
      var frames := EntryFrames(syslogTime, x, FindAll(EntryPattern(), Cap(x, 5), 0));
      && IsDigits(Cap(m, 5))
      && (PhpEvent(syslogTime, source, message).Err? <==> !FitsInt32(Cap(m, 5)) || frames.Err?)
    ensures var m := Submatch(ErrorPattern(), message).value;
      var x := Submatch(UncaughtPattern(), Cap(m, 3)).value;
      var frames := EntryFrames(syslogTime, x, FindAll(EntryPattern(), Cap(x, 5), 0));
      FitsInt32(Cap(m, 5)) && frames.Ok? ==> (PhpEvent(syslogTime, source, message) ==
        Ok(Some(Php(syslogTime, Cap(m, 2), Cap(x, 1) + ": " + Cap(x, 2), Cap(m, 4), DecimalValue(Cap(m, 5)),
                    frames.value))))
  {
    var m := Submatch(ErrorPattern(), message).value;
    ErrorCaptures(message);
    assert PhpEvent(syslogTime, source, message) == ErrorEvent(syslogTime, m);
  }

  /** A standalone frame takes every field from the captures. */
  lemma FrameShape(syslogTime: int, source: string, message: string)
    requires Submatch(HeaderPattern(), message).None? && Submatch(SqlPattern(), message).None?
    requires Submatch(ErrorPattern(), message).None? && Submatch(FramePattern(), message).Some?
    ensures var m := Submatch(FramePattern(), message).value;
      IsDigits(Cap(m, 2)) && IsDigits(Cap(m, 6)) &&
      (PhpEvent(syslogTime, source, message).Err? <==> !FitsInt32(Cap(m, 2)) || !FitsInt32(Cap(m, 6)))
    ensures var m := Submatch(FramePattern(), message).value;
      FitsInt32(Cap(m, 2)) && FitsInt32(Cap(m, 6)) ==> (PhpEvent(syslogTime, source, message) ==
        Ok(Some(PhpStackTrace(StackFrame(syslogTime, DecimalValue(Cap(m, 2)), Cap(m, 3), Cap(m, 4), Cap(m, 5),
                                         DecimalValue(Cap(m, 6)))))))
  {
    FrameCaptures(message);
  }

  /**
   * A frame in eval()'d code takes its line from the parentheses, not from
   * the eval()'d code's own line, and has no parameters.
   */
  lemma EvalShape(syslogTime: int, source: string, message: string)
    requires Submatch(HeaderPattern(), message).None? && Submatch(SqlPattern(), message).None?
    requires Submatch(ErrorPattern(), message).None? && Submatch(FramePattern(), message).None?
    requires Submatch(EvalPattern(), message).Some?
    ensures var m := Submatch(EvalPattern(), message).value;
      IsDigits(Cap(m, 2)) && IsDigits(Cap(m, 5)) &&
      (PhpEvent(syslogTime, source, message).Err? <==> !FitsInt32(Cap(m, 2)) || !FitsInt32(Cap(m, 5)))
    ensures var m := Submatch(EvalPattern(), message).value;
      FitsInt32(Cap(m, 2)) && FitsInt32(Cap(m, 5)) ==> (PhpEvent(syslogTime, source, message) ==
        Ok(Some(PhpStackTrace(StackFrame(syslogTime, DecimalValue(Cap(m, 2)), Cap(m, 3), "", Cap(m, 4),
                                         DecimalValue(Cap(m, 5)))))))
  {
    EvalCaptures(message);
  }

  /** No event exactly when no shape matches. */
  lemma NoShape(syslogTime: int, source: string, message: string)
    ensures PhpEvent(syslogTime, source, message) == Ok(None) <==>
      && Submatch(HeaderPattern(), message).None? && Submatch(SqlPattern(), message).None?
      && Submatch(ErrorPattern(), message).None? && Submatch(FramePattern(), message).None?
      && Submatch(EvalPattern(), message).None?
  {
  }

  // ---------------------------------------------------------------------------
  // Categories and suppression

  /**
   * A PHP error is counted under "php-" and its level, and is suppressed
   * exactly when some configured pattern matches its content (every earlier
   * pattern compiling without a match); it is shown exactly when every pattern
   * compiles and none matches.
   */
  lemma ErrorCategory(e: LogEvent, settings: Settings, matches: RegexMatcher)
    requires e.Php?
    ensures e.Summary() == "php-" + e.logLevel
    ensures var patterns := settings.GetPhpSuppressContentRegexes();
      Suppress(e, settings, matches) == Ok(true) <==>
        exists i :: 0 <= i < |patterns| && matches(patterns[i], e.content) == Some(true) &&
          forall j :: 0 <= j < i ==> matches(patterns[j], e.content) == Some(false)
    ensures var patterns := settings.GetPhpSuppressContentRegexes();
      Suppress(e, settings, matches) == Ok(false) <==>
        forall j :: 0 <= j < |patterns| ==> matches(patterns[j], e.content) == Some(false)
  {
    ContentSuppressedMeans(settings.GetPhpSuppressContentRegexes(), e.content, matches);
  }

  /**
   * Every stack frame is counted under "php-stack-trace" — the key an error
   * of level "stack-trace" shares — and is suppressed exactly when the
   * settings suppress stack traces.
   */
  lemma FrameCategory(e: LogEvent, settings: Settings, matches: RegexMatcher)
    requires e.PhpStackTrace?
    ensures e.Summary() == "php-stack-trace"
    ensures e.Summary() == Php(e.frame.syslogTime, "stack-trace", "", "", 0, []).Summary()
    ensures Suppress(e, settings, matches) == Ok(settings.php.suppressStackTraces)
  {
  }
}
