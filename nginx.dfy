/**
 * The Nginx parser of events/nginx.go: an access-log line is tried first, an
 * error-log line only when that fails.
 */
module NginxParser {
  import opened Text
  import opened Regexp
  import opened Events
  import opened Settings


  /** The layout the access line's request time is parsed with. */
  const AccessTimeLayout := "02/Jan/2006:15:04:05 -0700"

  /** `Jan|Feb|…|Dec`: all twelve month names. */
  function MonthName(): Re {
    Alt(Lit("Jan"), Alt(Lit("Feb"), Alt(Lit("Mar"), Alt(Lit("Apr"), Alt(Lit("May"), Alt(Lit("Jun"),
      Alt(Lit("Jul"), Alt(Lit("Aug"), Alt(Lit("Sep"), Alt(Lit("Oct"), Alt(Lit("Nov"), Lit("Dec"))))))))))))
  }

  /**
   * `^nginx: (?P<hostname>.*?) (?P<ipAddress>[0-9\.]*) (?:.*?) (?:.*?) \[(?P<time>…)\]  "`
   * followed by the request part.
   */
  function AccessPattern(): Re {
    Cat(Lit("nginx: "), Cat(Group(1, LazyStar(AnyChar)), Cat(Lit(" "), Cat(Group(2, Star(DigitOrDot)), AfterAddress()))))
  }

  /** ` (?:.*?) (?:.*?) \[(?P<time>…)\]  "` and the request part. */
  function AfterAddress(): Re {
    Cat(Lit(" "), Cat(LazyStar(AnyChar), Cat(Lit(" "), Cat(LazyStar(AnyChar), Cat(Lit(" ["),
      Cat(Group(3, RequestTime()), Cat(Lit("]  \""), RequestPart())))))))
  }

  /** `[0-9]{2}/(?:Jan|…|Dec)/[0-9]{4}:[0-9]{2}:[0-9]{2}:[0-9]{2} \+[0-9]{4}` */
  function RequestTime(): Re {
    Cat(Count(Digit, 2), Cat(Lit("/"), Cat(MonthName(), Cat(Lit("/"), Cat(Count(Digit, 4), ClockZone())))))
  }

  /** `:[0-9]{2}:[0-9]{2}:[0-9]{2} \+[0-9]{4}` */
  function ClockZone(): Re {
    Cat(Lit(":"), Cat(Count(Digit, 2), Cat(Lit(":"), Cat(Count(Digit, 2), Cat(Lit(":"),
      Cat(Count(Digit, 2), Cat(Lit(" +"), Count(Digit, 4))))))))
  }

  /** `(?P<method>.*?) (?P<uri>.*?) (?P<protocolVersion>.*?)" ` and the numbers. */
  function RequestPart(): Re {
    Cat(Group(4, LazyStar(AnyChar)), Cat(Lit(" "), Cat(Group(5, LazyStar(AnyChar)), Cat(Lit(" "),
      Cat(Group(6, LazyStar(AnyChar)), Cat(Lit("\" "), Numbers()))))))
  }

  /** `(?P<statusCode>[0-9]{1,}) (?P<contentLength>[0-9]{1,})` and the trailer. */
  function Numbers(): Re {
    Cat(Group(7, Plus(Digit)), Cat(Lit(" "), Cat(Group(8, Plus(Digit)), Trailer())))
  }

  /** ` (?:.*?) (?:.*?) (?:.*?)$` */
  function Trailer(): Re {
    Cat(Lit(" "), Cat(LazyStar(AnyChar), Cat(Lit(" "), Cat(LazyStar(AnyChar), Cat(Lit(" "),
      Cat(LazyStar(AnyChar), EndOfText))))))
  }

  /**
   * `^nginx:  \[(?P<level>.*?)\] (?P<content>.*?), client: (?P<clientIp>.*), server: (?P<server>.*),
   * request: "(?P<method>.*?) (?P<uri>.*?) (?P<protocolVersion>.*?)", host: (?P<host>.*?)(?:, referrer: (?P<referrer>.*?)|)$`
   */
  function ErrorPattern(): Re {
    Cat(Lit("nginx:  ["), Cat(Group(1, LazyStar(AnyChar)), Cat(Lit("] "), Cat(Group(2, LazyStar(AnyChar)),
      Cat(Lit(", client: "), Cat(Group(3, Star(AnyChar)), Cat(Lit(", server: "), Cat(Group(4, Star(AnyChar)),
      Cat(Lit(", request: \""), Cat(Group(5, LazyStar(AnyChar)), Cat(Lit(" "), Cat(Group(6, LazyStar(AnyChar)),
      Cat(Lit(" "), Cat(Group(7, LazyStar(AnyChar)), Cat(Lit("\", host: "), Cat(Group(8, LazyStar(AnyChar)),
      Cat(Alt(Cat(Lit(", referrer: "), Group(9, LazyStar(AnyChar))), Lit("")), EndOfText)))))))))))))))))
  }

  /**
   * An access event, else an error event, else nothing.  An access line whose
   * time does not parse, or whose status code or content length exceeds 32
   * bits, stops the process: `Err`.
   */
  function NewNginxLogEvent(syslogTime: int, source: string, message: string, parseTime: TimeParser)
    : (r: Result<Option<LogEvent>>)
    ensures r.Ok? && r.value.Some? ==>
      (r.value.value.NginxAccess? || r.value.value.NginxError?) && r.value.value.syslogTime == syslogTime
  {
    var access := Submatch(AccessPattern(), message);
    if access.Some? then
      var m := access.value;
      var time := parseTime(AccessTimeLayout, Cap(m, 3));
      var statusCode := ParseInt32(Cap(m, 7));
      var contentLength := ParseInt32(Cap(m, 8));
      if time.None? then Err("Could not parse time: " + Cap(m, 3))
      else if statusCode.None? then Err("Could not parse status code: " + Cap(m, 7))
      else if contentLength.None? then Err("Could not parse content length: " + Cap(m, 8))
      else
        var request := Request(Cap(m, 4), Cap(m, 5), Cap(m, 6), statusCode.value, contentLength.value);
        Ok(Some(NginxAccess(syslogTime, source, Cap(m, 1), Cap(m, 2), time.value, request)))
    else
      var error := Submatch(ErrorPattern(), message);
      if error.None? then Ok(None)
      else
        var m := error.value;
        var request := Request(Cap(m, 5), Cap(m, 6), Cap(m, 7), 0, 0);
        Ok(Some(NginxError(syslogTime, Cap(m, 1), Cap(m, 2), Cap(m, 3), Cap(m, 4), request, Cap(m, 8), Cap(m, 9))))
  }

  // ---------------------------------------------------------------------------
  // What the captures hold

  /** `r` declares group `n` once, with body `body`, and every match of `r` binds it. */
  predicate Owns(r: Re, n: nat, body: Re) {
    Declares(r, n) && Owner(r, n) == Some(body) && Binding(r, n)
  }

  /** `r` has no group `n`. */
  predicate Lacks(r: Re, n: nat) {
    !Declares(r, n) && !Binding(r, n)
  }

  lemma NumbersOwners()
    ensures Lacks(Numbers(), 2)
    ensures Owns(Numbers(), 7, Plus(Digit)) && Owns(Numbers(), 8, Plus(Digit))
  {
    var tail := Cat(Lit(" "), Cat(Group(8, Plus(Digit)), Trailer()));
    assert GroupFree(Trailer());
    GroupFreeDeclares(Trailer(), 2);
    GroupFreeDeclares(Trailer(), 7);
    GroupFreeDeclares(Trailer(), 8);
    OwnGroup(8, Plus(Digit), Trailer());
    SkipGroup(8, Plus(Digit), Trailer(), 7);
    SkipGroup(8, Plus(Digit), Trailer(), 2);
    SkipPlain(Lit(" "), Cat(Group(8, Plus(Digit)), Trailer()), 2);
    SkipPlain(Lit(" "), Cat(Group(8, Plus(Digit)), Trailer()), 7);
    SkipPlain(Lit(" "), Cat(Group(8, Plus(Digit)), Trailer()), 8);
    OwnGroup(7, Plus(Digit), tail);
    SkipGroup(7, Plus(Digit), tail, 8);
    SkipGroup(7, Plus(Digit), tail, 2);
  }

  /** The request part passes group `n` (other than 4, 5, 6) through to the numbers. */
  lemma RequestPartSkips(n: nat)
    requires n != 4 && n != 5 && n != 6
    ensures Declares(RequestPart(), n) == Declares(Numbers(), n)
    ensures Owner(RequestPart(), n) == Owner(Numbers(), n)
    ensures Binding(RequestPart(), n) == Binding(Numbers(), n)
  {
    var r6 := Cat(Lit("\" "), Numbers());
    var r5 := Cat(Group(6, LazyStar(AnyChar)), r6);
    var r4 := Cat(Lit(" "), r5);
    var r3 := Cat(Group(5, LazyStar(AnyChar)), r4);
    var r2 := Cat(Lit(" "), r3);
    SkipPlain(Lit("\" "), Numbers(), n);
    SkipGroup(6, LazyStar(AnyChar), r6, n);
    SkipPlain(Lit(" "), r5, n);
    SkipGroup(5, LazyStar(AnyChar), r4, n);
    SkipPlain(Lit(" "), r3, n);
    SkipGroup(4, LazyStar(AnyChar), r2, n);
  }

  lemma RequestPartOwners()
    ensures Lacks(RequestPart(), 2)
    ensures Owns(RequestPart(), 7, Plus(Digit)) && Owns(RequestPart(), 8, Plus(Digit))
  {
    NumbersOwners();
    RequestPartSkips(2);
    RequestPartSkips(7);
    RequestPartSkips(8);
  }

  /** What follows the address passes group `n` (other than 3) through to the request part. */
  lemma AfterAddressSkips(n: nat)
    requires n != 3
    ensures Declares(AfterAddress(), n) == Declares(RequestPart(), n)
    ensures Owner(AfterAddress(), n) == Owner(RequestPart(), n)
    ensures Binding(AfterAddress(), n) == Binding(RequestPart(), n)
  {
    var r7 := Cat(Lit("]  \""), RequestPart());
    var r6 := Cat(Group(3, RequestTime()), r7);
    var r5 := Cat(Lit(" ["), r6);
    var r4 := Cat(LazyStar(AnyChar), r5);
    var r3 := Cat(Lit(" "), r4);
    var r2 := Cat(LazyStar(AnyChar), r3);
    assert GroupFree(RequestTime());
    SkipPlain(Lit("]  \""), RequestPart(), n);
    SkipGroup(3, RequestTime(), r7, n);
    SkipPlain(Lit(" ["), r6, n);
    SkipPlain(LazyStar(AnyChar), r5, n);
    SkipPlain(Lit(" "), r4, n);
    SkipPlain(LazyStar(AnyChar), r3, n);
    SkipPlain(Lit(" "), r2, n);
  }

  lemma AfterAddressOwners()
    ensures Lacks(AfterAddress(), 2)
    ensures Owns(AfterAddress(), 7, Plus(Digit)) && Owns(AfterAddress(), 8, Plus(Digit))
  {
    RequestPartOwners();
    AfterAddressSkips(2);
    AfterAddressSkips(7);
    AfterAddressSkips(8);
  }

  lemma AccessOwners()
    ensures Owns(AccessPattern(), 7, Plus(Digit)) && Owns(AccessPattern(), 8, Plus(Digit))
    ensures Owns(AccessPattern(), 2, Star(DigitOrDot))
  {
    AfterAddressOwners();
    var r3 := Cat(Group(2, Star(DigitOrDot)), AfterAddress());
    var r2 := Cat(Lit(" "), r3);
    var r1 := Cat(Group(1, LazyStar(AnyChar)), r2);
    OwnGroup(2, Star(DigitOrDot), AfterAddress());
    SkipGroup(2, Star(DigitOrDot), AfterAddress(), 7);
    SkipGroup(2, Star(DigitOrDot), AfterAddress(), 8);
    forall n | n == 2 || n == 7 || n == 8
      ensures Declares(AccessPattern(), n) == Declares(r3, n) && Owner(AccessPattern(), n) == Owner(r3, n)
      ensures Binding(AccessPattern(), n) == Binding(r3, n)
    {
      SkipPlain(Lit(" "), r3, n);
      SkipGroup(1, LazyStar(AnyChar), r2, n);
      SkipPlain(Lit("nginx: "), r1, n);
    }
  }

  /**
   * The status code and the content length are captured as decimal digits,
   * the IP address as digits and dots.
   */
  lemma AccessCaptures(message: string)
    requires Submatch(AccessPattern(), message).Some?
    ensures var m := Submatch(AccessPattern(), message).value;
      IsDigits(Cap(m, 7)) && IsDigits(Cap(m, 8)) && AllInClass(Cap(m, 2), DigitOrDot)
  {
    AccessOwners();
    DigitsCapture(AccessPattern(), message, 7);
    DigitsCapture(AccessPattern(), message, 8);
    ClassCapture(AccessPattern(), message, 2, DigitOrDot);
  }

  // ---------------------------------------------------------------------------
  // Which pattern decides

  /**
   * The error pattern is consulted only when the access pattern fails, and a
   * message neither matches gives no event.
   */
  lemma AccessFirst(syslogTime: int, source: string, message: string, parseTime: TimeParser)
    ensures var r := NewNginxLogEvent(syslogTime, source, message, parseTime);
      && (Submatch(AccessPattern(), message).Some? ==> r.Err? || r.value.value.NginxAccess?)
      && (Submatch(AccessPattern(), message).None? ==> r.Ok? && (r.value.Some? ==> r.value.value.NginxError?))
      && (r == Ok(None) <==> Submatch(AccessPattern(), message).None? && Submatch(ErrorPattern(), message).None?)
  {
  }

  /** Only a message starting with "nginx: " gives an access event or an error. */
  lemma AccessNeedsPrefix(syslogTime: int, source: string, message: string, parseTime: TimeParser)
    requires var r := NewNginxLogEvent(syslogTime, source, message, parseTime);
      r.Err? || (r.value.Some? && r.value.value.NginxAccess?)
    ensures StartsWith(message, "nginx: ")
  {
    PrefixNeeded("nginx: ", AccessPattern().rest, message);
  }

  /** Only a message starting with "nginx:  [" gives an error-log event. */
  lemma ErrorNeedsPrefix(syslogTime: int, source: string, message: string, parseTime: TimeParser)
    requires var r := NewNginxLogEvent(syslogTime, source, message, parseTime);
      r.Ok? && r.value.Some? && r.value.value.NginxError?
    ensures StartsWith(message, "nginx:  [")
  {
    PrefixNeeded("nginx:  [", ErrorPattern().rest, message);
  }

  /** Any other message gives no Nginx event and no error. */
  lemma OtherMessagesIgnored(syslogTime: int, source: string, message: string, parseTime: TimeParser)
    requires !StartsWith(message, "nginx: ")
    ensures NewNginxLogEvent(syslogTime, source, message, parseTime) == Ok(None)
  {
    PrefixMissing("nginx: ", AccessPattern().rest, message);
    PrefixMissing("nginx:  [", ErrorPattern().rest, message);
  }

  // ---------------------------------------------------------------------------
  // Access events

  /**
   * A matched access line stops the process exactly when its time does not
   * parse or a numeral exceeds 32 bits.
   */
  lemma AccessErrors(syslogTime: int, source: string, message: string, parseTime: TimeParser)
    requires Submatch(AccessPattern(), message).Some?
    ensures var m := Submatch(AccessPattern(), message).value;
      NewNginxLogEvent(syslogTime, source, message, parseTime).Err? <==>
        parseTime(AccessTimeLayout, Cap(m, 3)).None? || !FitsInt32(Cap(m, 7)) || !FitsInt32(Cap(m, 8))
  {
    AccessCaptures(message);
  }

  /**
   * An access event copies the source, host name, address and request line
   * through, and its status code and content length are the values of the
   * digits captured.
   */
  lemma AccessFields(syslogTime: int, source: string, message: string, parseTime: TimeParser)
    requires var r := NewNginxLogEvent(syslogTime, source, message, parseTime);
      r.Ok? && r.value.Some? && r.value.value.NginxAccess?
    ensures Submatch(AccessPattern(), message).Some?
    ensures var m := Submatch(AccessPattern(), message).value;
      var e := NewNginxLogEvent(syslogTime, source, message, parseTime).value.value;
      && e.syslogTime == syslogTime && e.source == source
      && e.hostname == Cap(m, 1) && e.ipAddress == Cap(m, 2) && AllInClass(e.ipAddress, DigitOrDot)
      && Some(e.time) == parseTime(AccessTimeLayout, Cap(m, 3))
      && e.request.requestMethod == Cap(m, 4) && e.request.uri == Cap(m, 5)
      && e.request.protocolVersion == Cap(m, 6)
      && FitsInt32(Cap(m, 7)) && e.request.statusCode == DecimalValue(Cap(m, 7))
      && FitsInt32(Cap(m, 8)) && e.request.contentLength == DecimalValue(Cap(m, 8))
  {
    AccessCaptures(message);
  }

  /**
   * The category key of an access event names its status code, and two
   * access events from this parser share a key only when they share a status.
   */
  lemma AccessKeys(e1: LogEvent, e2: LogEvent)
    requires e1.NginxAccess? && 0 <= e1.request.statusCode <= Int32Max
    requires e2.NginxAccess? && 0 <= e2.request.statusCode <= Int32Max
    ensures e1.Summary() == "nginx-access-" + FormatInt(e1.request.statusCode)
    ensures e1.Summary() == e2.Summary() <==> e1.request.statusCode == e2.request.statusCode
  {
    if e1.Summary() == e2.Summary() {
      var n := |"nginx-access-"|;
      assert FormatInt(e1.request.statusCode) == e1.Summary()[n..];
      assert FormatInt(e2.request.statusCode) == e2.Summary()[n..];
      FormatIntInjective(e1.request.statusCode, e2.request.statusCode);
    }
  }

  /** An access event is suppressed exactly when one of the configured status codes is its own. */
  lemma AccessSuppression(e: LogEvent, settings: Settings, matches: RegexMatcher)
    requires e.NginxAccess?
    ensures var codes := settings.GetNginxSuppressStatusCodes();
      Suppress(e, settings, matches) == Ok(exists i :: 0 <= i < |codes| && codes[i] == e.request.statusCode)
  {
    var codes := settings.GetNginxSuppressStatusCodes();
    if e.request.statusCode in codes {
      var i :| 0 <= i < |codes| && codes[i] == e.request.statusCode;
    }
  }

  // ---------------------------------------------------------------------------
  // Error events

  /**
   * An error event takes every field from the captures, with no status code
   * and no content length; it is never suppressed.
   */
  lemma ErrorFields(syslogTime: int, source: string, message: string, parseTime: TimeParser,
                    settings: Settings, matches: RegexMatcher)
    requires var r := NewNginxLogEvent(syslogTime, source, message, parseTime);
      r.Ok? && r.value.Some? && r.value.value.NginxError?
    ensures Submatch(AccessPattern(), message).None? && Submatch(ErrorPattern(), message).Some?
    ensures var m := Submatch(ErrorPattern(), message).value;
      var e := NewNginxLogEvent(syslogTime, source, message, parseTime).value.value;
      && e.syslogTime == syslogTime
      && e.logLevel == Cap(m, 1) && e.content == Cap(m, 2) && e.client == Cap(m, 3) && e.server == Cap(m, 4)
      && e.request == Request(Cap(m, 5), Cap(m, 6), Cap(m, 7), 0, 0)
      && e.host == Cap(m, 8) && e.referrer == Cap(m, 9)
      && e.Summary() == "nginx-error-" + Cap(m, 1)
      && Suppress(e, settings, matches) == Ok(false)
  {
  }
}
