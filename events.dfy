/**
 * The classified log event: one variant per event type of the events package,
 * with its category key (`Summary`), its timestamp and its suppression rule.
 *
 * Timestamps are integers, as time.Parse produces them; durations are
 * integers in the same unit.
 */
module Events {
  import opened Text
  import opened Settings

  /**
   * Go's time.Parse(layout, value): `Some(t)`, or `None` when the value does
   * not fit the layout.
   */
  type TimeParser = (string, string) -> Option<int>

  datatype Request = Request(
    requestMethod: string,
    uri: string,
    protocolVersion: string,
    statusCode: int,
    contentLength: int)

  datatype StoreContext = StoreContext(storeId: int, storeHash: string, domain: string)

  /** The store context of an app event whose message carried none. */
  const NoStoreContext := StoreContext(0, "", "")

  /** One PHP stack frame; also the payload of a standalone frame event. */
  datatype StackFrame = StackFrame(
    syslogTime: int,
    number: int,
    methodName: string,
    parameters: string,
    file: string,
    line: int)

  datatype LogEvent =
    | NginxAccess(syslogTime: int, source: string, hostname: string, ipAddress: string, time: int,
                  request: Request)
    | NginxError(syslogTime: int, logLevel: string, content: string, client: string, server: string,
                 request: Request, host: string, referrer: string)
    | Process(syslogTime: int, name: string, processId: int, content: string)
    | BigcommerceApp(syslogTime: int, processId: int, logLevel: string, content: string, args: string,
                     storeContext: StoreContext, originalMessage: string)
    | Php(syslogTime: int, logLevel: string, content: string, file: string, line: int,
          stackTraceEvents: seq<StackFrame>)
    | PhpStackTrace(frame: StackFrame)
    | Generic(syslogTime: int, name: string, content: string)
  {
    function GetSyslogTime(): int {
      if PhpStackTrace? then frame.syslogTime else syslogTime
    }

    /** The category key under which the event is counted and filtered. */
    function Summary(): string {
      match this
      case NginxAccess(_, _, _, _, _, request) => "nginx-access-" + FormatInt(request.statusCode)
      case NginxError(_, logLevel, _, _, _, _, _, _) => "nginx-error-" + logLevel
      case Process(_, _, _, _) => "process"
      case BigcommerceApp(_, _, logLevel, _, _, _, _) => "bigcommerce-app-" + logLevel
      case Php(_, logLevel, _, _, _, _) => "php-" + logLevel
      case PhpStackTrace(_) => "php-stack-trace"
      case Generic(_, name, _) => "generic-" + name
    }

    /** Appends a copy of `f` to the frames of a PHP error event. */
    function AddStackTraceEvent(f: StackFrame): (r: LogEvent)
      requires Php?
      ensures r.Php? && r.stackTraceEvents == stackTraceEvents + [f]
      ensures r.(stackTraceEvents := stackTraceEvents) == this
    {
      this.(stackTraceEvents := stackTraceEvents + [f])
    }
  }

  /** The event kind a category key's prefix names; PHP errors and stack frames share "php-". */
  function KeyKind(key: string): nat {
    if StartsWith(key, "nginx-access-") then 0
    else if StartsWith(key, "nginx-error-") then 1
    else if key == "process" then 2
    else if StartsWith(key, "bigcommerce-app-") then 3
    else if StartsWith(key, "php-") then 4
    else if StartsWith(key, "generic-") then 5
    else 6
  }

  /** Each event's category key carries the prefix of its kind. */
  lemma SummaryKind(e: LogEvent)
    ensures KeyKind(e.Summary()) ==
      match e
      case NginxAccess(_, _, _, _, _, _) => 0
      case NginxError(_, _, _, _, _, _, _, _) => 1
      case Process(_, _, _, _) => 2
      case BigcommerceApp(_, _, _, _, _, _, _) => 3
      case Php(_, _, _, _, _, _) => 4
      case PhpStackTrace(_) => 4
      case Generic(_, _, _) => 5
  {
    var k := e.Summary();
    match e
    case NginxAccess(_, _, _, _, _, _) =>
      assert k[..13] == "nginx-access-";
    case NginxError(_, _, _, _, _, _, _, _) =>
      assert k[6] == 'e' && k[..12] == "nginx-error-";
    case Process(_, _, _, _) =>
    case BigcommerceApp(_, _, _, _, _, _, _) =>
      assert k[0] == 'b' && k[..16] == "bigcommerce-app-";
    case Php(_, _, _, _, _, _) =>
      assert k[0] == 'p' && k[1] == 'h' && k[..4] == "php-";
    case PhpStackTrace(_) =>
      assert k[0] == 'p' && k[1] == 'h' && k[..4] == "php-";
    case Generic(_, _, _) =>
      assert k[0] == 'g' && k[..8] == "generic-";
  }

  /**
   * A category key names the kind of its event: events that share a key are
   * of the same kind, except that a PHP error of level "stack-trace" shares
   * the key of the stack-frame events.
   */
  lemma SummaryNamesKind(a: LogEvent, b: LogEvent)
    requires a.Summary() == b.Summary()
    ensures a.NginxAccess? <==> b.NginxAccess?
    ensures a.NginxError? <==> b.NginxError?
    ensures a.Process? <==> b.Process?
    ensures a.BigcommerceApp? <==> b.BigcommerceApp?
    ensures a.Generic? <==> b.Generic?
    ensures a.Php? && b.PhpStackTrace? ==> a.logLevel == "stack-trace"
    ensures a.Php? && b.Php? ==> a.logLevel == b.logLevel
  {
    SummaryKind(a);
    SummaryKind(b);
    if a.Php? && (b.PhpStackTrace? || b.Php?) {
      assert a.Summary()[4..] == a.logLevel;
      assert b.Summary()[4..] == if b.Php? then b.logLevel else "stack-trace";
    }
  }

  /**
   * Go's regexp.MatchString(pattern, text): `Some(matched)`, or `None` when
   * `pattern` does not compile.
   */
  type RegexMatcher = (string, string) -> Option<bool>

  /**
   * PHP content suppression: the first configured pattern that fails to
   * compile stops the process, the first that matches suppresses.
   */
  function ContentSuppressed(patterns: seq<string>, content: string, matches: RegexMatcher): Result<bool>
  {
    if patterns == [] then Ok(false)
    else match matches(patterns[0], content)
      case None => Err("Error while matching ignore filters: " + patterns[0])
      case Some(true) => Ok(true)
      case Some(false) => ContentSuppressed(patterns[1..], content, matches)
  }

  /**
   * Content is suppressed exactly when some pattern matches and every earlier
   * one compiled without matching; it is kept exactly when every pattern
   * compiles and none matches.
   */
  lemma {:induction false} ContentSuppressedMeans(patterns: seq<string>, content: string, matches: RegexMatcher)
    ensures ContentSuppressed(patterns, content, matches) == Ok(true) <==>
      exists i :: 0 <= i < |patterns| && matches(patterns[i], content) == Some(true) &&
        forall j :: 0 <= j < i ==> matches(patterns[j], content) == Some(false)
    ensures ContentSuppressed(patterns, content, matches) == Ok(false) <==>
      forall j :: 0 <= j < |patterns| ==> matches(patterns[j], content) == Some(false)
  {
    if patterns != [] {
      ContentSuppressedMeans(patterns[1..], content, matches);
      var tail := patterns[1..];
      assert forall j :: 0 <= j < |tail| ==> tail[j] == patterns[j + 1];
      if matches(patterns[0], content) == Some(false) {
        if ContentSuppressed(tail, content, matches) == Ok(true) {
          var i :| 0 <= i < |tail| && matches(tail[i], content) == Some(true) &&
            forall j :: 0 <= j < i ==> matches(tail[j], content) == Some(false);
          assert matches(patterns[i + 1], content) == Some(true);
          assert forall j :: 0 <= j < i + 1 ==> matches(patterns[j], content) == Some(false) by {
            forall j | 0 <= j < i + 1 ensures matches(patterns[j], content) == Some(false) {
              if j > 0 {
                assert patterns[j] == tail[j - 1];
              }
            }
          }
        }
        if forall j :: 0 <= j < |tail| ==> matches(tail[j], content) == Some(false) {
          forall j | 0 <= j < |patterns| ensures matches(patterns[j], content) == Some(false) {
            if j > 0 {
              assert patterns[j] == tail[j - 1];
            }
          }
        }
      }
    }
  }

  /**
   * Content suppression stops the process exactly when some pattern fails to
   * compile and every earlier one compiled without matching.
   */
  lemma {:induction false} ContentSuppressedFails(patterns: seq<string>, content: string, matches: RegexMatcher)
    ensures ContentSuppressed(patterns, content, matches).Err? <==>
      exists i :: 0 <= i < |patterns| && matches(patterns[i], content).None? &&
        forall j :: 0 <= j < i ==> matches(patterns[j], content) == Some(false)
  {
    if patterns != [] {
      ContentSuppressedFails(patterns[1..], content, matches);
      var tail := patterns[1..];
      if matches(patterns[0], content) == Some(false) {
        if ContentSuppressed(tail, content, matches).Err? {
          var i :| 0 <= i < |tail| && matches(tail[i], content).None? &&
            forall j :: 0 <= j < i ==> matches(tail[j], content) == Some(false);
          assert matches(patterns[i + 1], content).None?;
          forall j | 0 <= j < i + 1 ensures matches(patterns[j], content) == Some(false) {
            if j > 0 {
              assert patterns[j] == tail[j - 1];
            }
          }
        } else {
          forall i | 0 <= i < |patterns| && matches(patterns[i], content).None?
            ensures exists j :: 0 <= j < i && matches(patterns[j], content) != Some(false)
          {
            assert i > 0 && patterns[i] == tail[i - 1];
            var k :| 0 <= k < i - 1 && matches(tail[k], content) != Some(false);
            assert patterns[k + 1] == tail[k];
          }
        }
      }
    }
  }

  /** Process-name suppression: equal, or matched as a pattern; bad patterns match nothing. */
  predicate NameSuppressed(names: seq<string>, name: string, matches: RegexMatcher) {
    exists i :: 0 <= i < |names| && (names[i] == name || matches(names[i], name) == Some(true))
  }

  /** The generic-event names to suppress: the settings have no such list. */
  const GenericSuppressNames: seq<string> := []

  /** Whether live display hides the event; `Err` when the process stops instead. */
  function Suppress(e: LogEvent, settings: Settings, matches: RegexMatcher): Result<bool> {
    match e
    case NginxAccess(_, _, _, _, _, request) => Ok(request.statusCode in settings.GetNginxSuppressStatusCodes())
    case NginxError(_, _, _, _, _, _, _, _) => Ok(false)
    case Process(_, name, _, _) => Ok(NameSuppressed(settings.GetProcessSuppressNames(), name, matches))
    case BigcommerceApp(_, _, logLevel, _, _, _, _) => Ok(logLevel in settings.GetBigcommerceAppSuppressLogLevels())
    case Php(_, _, content, _, _, _) => ContentSuppressed(settings.GetPhpSuppressContentRegexes(), content, matches)
    case PhpStackTrace(_) => Ok(settings.GetPhpSuppressStackTraces())
    case Generic(_, name, _) => Ok(name in GenericSuppressNames)
  }

  /**
   * Only PHP content suppression can stop the process; application events are
   * hidden by exact level, process events by name, and generic events never.
   */
  lemma SuppressOutsidePhp(e: LogEvent, settings: Settings, matches: RegexMatcher)
    ensures Suppress(e, settings, matches).Err? ==> e.Php?
    ensures e.BigcommerceApp? ==> (Suppress(e, settings, matches) == Ok(true) <==>
      exists i :: 0 <= i < |settings.GetBigcommerceAppSuppressLogLevels()| &&
        settings.GetBigcommerceAppSuppressLogLevels()[i] == e.logLevel)
    ensures e.Process? ==> (Suppress(e, settings, matches) == Ok(true) <==>
      exists i :: 0 <= i < |settings.GetProcessSuppressNames()| &&
        (settings.GetProcessSuppressNames()[i] == e.name || matches(settings.GetProcessSuppressNames()[i], e.name) == Some(true)))
    ensures e.Generic? ==> Suppress(e, settings, matches) == Ok(false)
  {
  }
}
