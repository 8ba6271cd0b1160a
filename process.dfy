/**
 * The daemon-style parser of events/process.go: `name[pid]: content`.  The
 * BigCommerce application logs through such a process; its lines are handed on
 * to the application parser.
 */
module ProcessParser {
  import opened Text
  import opened Regexp
  import opened Events
  import AppParser

  /** `^(?P<name>.*?)\[(?P<processId>[0-9]{1,})\]: (?P<message>.*)$` */
  function ProcessPattern(): Re {
    Cat(Group(1, LazyStar(AnyChar)), Cat(Lit("["), PidRest()))
  }

  /** From the process ID on: `(?P<processId>[0-9]{1,})\]: (?P<message>.*)$` */
  function PidRest(): Re {
    Cat(Group(2, Plus(Digit)), ContentRest())
  }

  /** After the process ID: `\]: (?P<message>.*)$` */
  function ContentRest(): Re {
    Cat(Lit("]: "), Cat(Group(3, Star(AnyChar)), EndOfText))
  }

  /** The process names whose lines carry application events. */
  const AppProcessNames: set<string> := {"bigcommerce_app", "ool bigcommerce_app"}

  /** Where the digits after a `[` at `k` stop. */
  function PidEnd(s: string, k: nat): (e: nat)
    requires k < |s|
    ensures k + 1 <= e <= |s|
  {
    k + 1 + RunLength(s, k + 1, Digit)
  }

  /** Whether `[`, one or more digits and `]: ` start at `k`. */
  predicate HeadAt(s: string, k: nat) {
    k < |s| && s[k] == '[' && PidEnd(s, k) > k + 1 && OccursAt(s, "]: ", PidEnd(s, k))
  }

  /** The first head at or after `k`. */
  function FirstHead(s: string, k: nat): (r: Option<nat>)
    ensures r.Some? ==> k <= r.value && HeadAt(s, r.value)
    ensures r.Some? ==> forall j :: k <= j < r.value ==> !HeadAt(s, j)
    ensures r.None? ==> forall j :: k <= j ==> !HeadAt(s, j)
    decreases |s| - k
  {
    if k >= |s| then None
    else if HeadAt(s, k) then Some(k)
    else FirstHead(s, k + 1)
  }

  /**
   * A single-line message split at its first `[digits]: `: the name before it,
   * the digits, and the content after it.
   */
  function SplitProcess(message: string): (r: Option<(string, string, string)>)
    ensures r.Some? ==> message == r.value.0 + "[" + r.value.1 + "]: " + r.value.2
    ensures r.Some? ==> IsDigits(r.value.1) && '\n' !in message
    ensures r.Some? ==> forall j :: 0 <= j < |r.value.0| ==> !HeadAt(message, j)
    ensures r.None? <==> '\n' in message || forall j :: !HeadAt(message, j)
  {
    if '\n' in message then None
    else match FirstHead(message, 0)
      case None => None
      case Some(k) =>
        var e := PidEnd(message, k);
        var r := (message[..k], message[k + 1..e], message[e + 3..]);
        assert message[e..e + 3] == "]: ";
        assert message == message[..k] + [message[k]] + message[k + 1..e] + message[e..e + 3] + message[e + 3..];
        Some(r)
  }

  /**
   * A process event, an application event for the application's process names
   * (nothing when the application parser rejects the content), or nothing when
   * the message does not match; `Err` when the process ID does not fit in 32 bits.
   */
  function NewProcessLogEvent(syslogTime: int, source: string, message: string,
                              decode: AppParser.ContextDecoder): (r: Result<Option<LogEvent>>)
    ensures r.Ok? && r.value.Some? ==>
      (r.value.value.Process? || r.value.value.BigcommerceApp?) && r.value.value.syslogTime == syslogTime
  {
    match Submatch(ProcessPattern(), message)
    case None => Ok(None)
    case Some(caps) =>
      var name := Cap(caps, 1);
      match ParseInt32(Cap(caps, 2))
      case None => Err("Could not parse process ID: " + Cap(caps, 2))
      case Some(processId) =>
        if name in AppProcessNames then
          Ok(AppParser.NewBigcommerceAppLogEvent(syslogTime, source, processId, Cap(caps, 3), decode))
        else
          Ok(Some(Process(syslogTime, name, processId, Cap(caps, 3))))
  }

  // ---------------------------------------------------------------------------
  // The pattern's first match

  /** What `ContentRest` matches from `e`: `]: ` and a one-line rest. */
  function ContentHit(s: string, e: nat, c: Captures): Option<Hit>
    requires e <= |s|
  {
    if OccursAt(s, "]: ", e) && AllInClass(s[e + 3..], AnyChar)
    then Some(Hit(|s|, c[3 := s[e + 3..]]))
    else None
  }

  lemma ContentAt(s: string, e: nat, c: Captures)
    requires e <= |s|
    ensures FirstHit(ContentRest(), s, e, c) == ContentHit(s, e, c)
  {
    CatLit("]: ", Cat(Group(3, Star(AnyChar)), EndOfText), s, e, c);
    if OccursAt(s, "]: ", e) {
      TailToEnd(3, AnyChar, s, e + 3, c);
    }
  }

  /** The same, as the continuation a repetition hands its ends to. */
  lemma ContentAfter(s: string, e: nat, c: Captures)
    requires e <= |s|
    ensures After(ContentRest(), s)(e, c) == ContentHit(s, e, c)
  {
    ContentAt(s, e, c);
  }

  /** A shorter run of digits is followed by a digit, not by `]`. */
  lemma ShorterPid(s: string, q: nat, c: Captures, y: nat)
    requires q <= |s| && 1 <= y < Longest(s, q, Digit, None)
    ensures Try(After(ContentRest(), s), s, q, c, Some(2), 1, Longest(s, q, Digit, None), true, y).None?
  {
    var top := Longest(s, q, Digit, None);
    var len := Candidate(1, top, true, y);
    assert IsDigit(s[q + len]);
    ContentAt(s, q + len, Bind(c, Some(2), s[q..q + len]));
  }

  /** What `PidRest` matches from `q`: the whole run of digits, `]: ` and a one-line rest. */
  function PidHit(s: string, q: nat, c: Captures): Option<Hit>
    requires q <= |s|
  {
    var e := q + RunLength(s, q, Digit);
    if e > q && OccursAt(s, "]: ", e) && AllInClass(s[e + 3..], AnyChar)
    then Some(Hit(|s|, c[2 := s[q..e]][3 := s[e + 3..]]))
    else None
  }

  /** What the pattern matches after a name ending at `y`. */
  function RestHit(s: string, y: nat): Option<Hit>
    requires y <= |s|
  {
    if HeadAt(s, y) && AllInClass(s[PidEnd(s, y) + 3..], AnyChar)
    then Some(Hit(|s|, map[1 := s[..y], 2 := s[y + 1..PidEnd(s, y)], 3 := s[PidEnd(s, y) + 3..]]))
    else None
  }

  /** The whole run of digits, then the rest. */
  lemma WholePid(s: string, q: nat, c: Captures)
    requires q <= |s| && Longest(s, q, Digit, None) >= 1
    ensures Try(After(ContentRest(), s), s, q, c, Some(2), 1, Longest(s, q, Digit, None), true, 0) == PidHit(s, q, c)
  {
    var top := Longest(s, q, Digit, None);
    var e, c2 := q + top, c[2 := s[q..q + top]];
    calc {
      Try(After(ContentRest(), s), s, q, c, Some(2), 1, top, true, 0);
      { TryLongest(After(ContentRest(), s), s, q, c, 2, 1, top); }
      After(ContentRest(), s)(e, c2);
      { ContentAfter(s, e, c2); }
      ContentHit(s, e, c2);
      { WholeRun(s, q, c); }
      PidHit(s, q, c);
    }
  }

  lemma WholeRun(s: string, q: nat, c: Captures)
    requires q <= |s| && Longest(s, q, Digit, None) >= 1
    ensures var top := Longest(s, q, Digit, None);
      ContentHit(s, q + top, c[2 := s[q..q + top]]) == PidHit(s, q, c)
  {
  }

  /** The greedy digits can only be followed by `]` when they take the whole run. */
  lemma PidAt(s: string, q: nat, c: Captures)
    requires q <= |s|
    ensures FirstHit(PidRest(), s, q, c) == PidHit(s, q, c)
  {
    var top := Longest(s, q, Digit, None);
    var next := After(ContentRest(), s);
    GroupThen(2, Digit, 1, None, true, ContentRest(), s, q, c);
    if top >= 1 {
      WholePid(s, q, c);
      if Try(next, s, q, c, Some(2), 1, top, true, 0).Some? {
        SearchFound(next, s, q, c, Some(2), 1, top, true, 0, 0);
      } else {
        forall y | 0 <= y <= top - 1 ensures Try(next, s, q, c, Some(2), 1, top, true, y).None? {
          if y == 0 {
            assert Try(next, s, q, c, Some(2), 1, top, true, 0).None?;
          } else {
            ShorterPid(s, q, c, y);
          }
        }
        SearchNone(next, s, q, c, Some(2), 1, top, true, 0);
      }
    }
  }

  /** Matching from a candidate end `y` of the name. */
  lemma RestAt(s: string, y: nat)
    requires y <= |s|
    ensures FirstHit(Cat(Lit("["), PidRest()), s, y, map[1 := s[..y]]) == RestHit(s, y)
  {
    var c := map[1 := s[..y]];
    CatLit("[", PidRest(), s, y, c);
    if OccursAt(s, "[", y) {
      PidAt(s, y + 1, c);
      BracketAt(s, y);
    } else {
      assert !HeadAt(s, y);
    }
  }

  /** After a `[`, the digits and the rest decide. */
  lemma BracketAt(s: string, y: nat)
    requires OccursAt(s, "[", y)
    ensures PidHit(s, y + 1, map[1 := s[..y]]) == RestHit(s, y)
  {
    assert s[y..y + 1][0] == s[y];
    var e := PidEnd(s, y);
    if HeadAt(s, y) {
      assert map[1 := s[..y]][2 := s[y + 1..e]][3 := s[e + 3..]] == map[1 := s[..y], 2 := s[y + 1..e], 3 := s[e + 3..]];
    }
  }

  lemma CandidateAt(s: string, top: nat, y: nat)
    requires top <= |s| && y <= top
    ensures Try(After(Cat(Lit("["), PidRest()), s), s, 0, map[], Some(1), 0, top, false, y) == RestHit(s, y)
  {
    assert Candidate(0, top, false, y) == y;
    assert Bind(map[], Some(1), s[0..y]) == map[1 := s[..y]];
    RestAt(s, y);
  }

  /** The lazy search over the name's candidate ends, shortest first. */
  function NameSearch(s: string): Option<Hit> {
    SearchRepeat(After(Cat(Lit("["), PidRest()), s), s, 0, map[], Some(1), 0, Longest(s, 0, AnyChar, None), false, 0)
  }

  lemma SearchNames(s: string)
    ensures Submatch(ProcessPattern(), s) == if NameSearch(s).None? then None else Some(NameSearch(s).value.caps)
  {
    GroupThen(1, AnyChar, 0, None, false, Cat(Lit("["), PidRest()), s, 0, map[]);
  }

  /** A head is made of `[`, digits and `]: `, none of them a newline. */
  lemma NewlineAfterHead(s: string, y: nat, p: nat)
    requires HeadAt(s, y) && y <= p < |s| && s[p] == '\n'
    ensures !AllInClass(s[PidEnd(s, y) + 3..], AnyChar)
  {
    var e := PidEnd(s, y);
    assert s[e..e + 3] == "]: ";
    assert s[e] == s[e..e + 3][0] && s[e + 1] == s[e..e + 3][1] && s[e + 2] == s[e..e + 3][2];
    assert p != y && (p <= y || p >= e) && p != e && p != e + 1 && p != e + 2;
    assert p >= e + 3;
    assert s[e + 3..][p - e - 3] == s[p];
  }

  lemma NoMatchAcrossNewline(s: string)
    requires '\n' in s
    ensures Submatch(ProcessPattern(), s) == None
  {
    var top := Longest(s, 0, AnyChar, None);
    var next := After(Cat(Lit("["), PidRest()), s);
    SearchNames(s);
    var p :| 0 <= p < |s| && s[p] == '\n';
    assert p >= top;
    forall y | 0 <= y <= top ensures Try(next, s, 0, map[], Some(1), 0, top, false, y).None? {
      CandidateAt(s, top, y);
      if HeadAt(s, y) {
        NewlineAfterHead(s, y, p);
      }
    }
    SearchNone(next, s, 0, map[], Some(1), 0, top, false, 0);
  }

  /** On a single line, every head is followed by a rest the pattern accepts. */
  lemma OneLineRest(s: string, y: nat)
    requires '\n' !in s && y <= |s|
    ensures RestHit(s, y).Some? <==> HeadAt(s, y)
  {
    if HeadAt(s, y) {
      assert AllInClass(s, AnyChar);
      SuffixInClass(s, PidEnd(s, y) + 3, AnyChar);
    }
  }

  /** On a single line the search stops at the first head. */
  lemma OneLineSearch(s: string)
    requires '\n' !in s
    ensures NameSearch(s) == if FirstHead(s, 0).None? then None else RestHit(s, FirstHead(s, 0).value)
  {
    var top := Longest(s, 0, AnyChar, None);
    var next := After(Cat(Lit("["), PidRest()), s);
    assert AllInClass(s, AnyChar);
    assert s[0..] == s;
    RunToEnd(s, 0, AnyChar);
    forall y | 0 <= y <= top
      ensures Try(next, s, 0, map[], Some(1), 0, top, false, y) == RestHit(s, y)
      ensures RestHit(s, y).Some? <==> HeadAt(s, y)
    {
      CandidateAt(s, top, y);
      OneLineRest(s, y);
    }
    match FirstHead(s, 0)
    case None =>
      SearchNone(next, s, 0, map[], Some(1), 0, top, false, 0);
    case Some(k) =>
      SearchFound(next, s, 0, map[], Some(1), 0, top, false, 0, k);
  }

  /** With a head at `k` and none before it, the whole line matches, split around that head. */
  lemma MatchAtHead(s: string, k: nat)
    requires '\n' !in s && FirstHead(s, 0) == Some(k)
    ensures Submatch(ProcessPattern(), s) ==
      Some(map[1 := s[..k], 2 := s[k + 1..PidEnd(s, k)], 3 := s[PidEnd(s, k) + 3..]])
  {
    SearchNames(s);
    OneLineSearch(s);
    OneLineRest(s, k);
  }

  /** Without a head the line does not match at all. */
  lemma NoMatchWithoutHead(s: string)
    requires '\n' !in s && FirstHead(s, 0).None?
    ensures Submatch(ProcessPattern(), s).None?
  {
    SearchNames(s);
    OneLineSearch(s);
  }

  /** The pattern's first match is exactly the split at the first `[digits]: `. */
  lemma ProcessMatch(s: string)
    ensures Submatch(ProcessPattern(), s) ==
      match SplitProcess(s)
      case None => None
      case Some(split) => Some(map[1 := split.0, 2 := split.1, 3 := split.2])
  {
    if '\n' in s {
      NoMatchAcrossNewline(s);
    } else {
      match FirstHead(s, 0)
      case None => NoMatchWithoutHead(s);
      case Some(k) => MatchAtHead(s, k);
    }
  }

  /**
   * The outcome of parsing a message: nothing unless it splits at a
   * `[digits]: `; a stop when the digits exceed 32 bits; for the application's
   * process names, whatever the application parser makes of the content;
   * otherwise a process event with the name, the decimal ID and the content.
   */
  lemma ProcessEventFields(syslogTime: int, source: string, message: string, decode: AppParser.ContextDecoder)
    ensures NewProcessLogEvent(syslogTime, source, message, decode) ==
      match SplitProcess(message)
      case None => Ok(None)
      case Some((name, digits, content)) =>
        if DecimalValue(digits) > Int32Max then Err("Could not parse process ID: " + digits)
        else if name in AppProcessNames then
          Ok(AppParser.NewBigcommerceAppLogEvent(syslogTime, source, DecimalValue(digits), content, decode))
        else Ok(Some(Process(syslogTime, name, DecimalValue(digits), content)))
  {
    ProcessMatch(message);
    match SplitProcess(message)
    case None =>
    case Some((name, digits, content)) =>
      var caps := map[1 := name, 2 := digits, 3 := content];
      assert Submatch(ProcessPattern(), message) == Some(caps);
      assert Cap(caps, 1) == name && Cap(caps, 2) == digits && Cap(caps, 3) == content;
      assert IsDigits(digits);
      assert ParseInt32(digits) == if DecimalValue(digits) > Int32Max then None else Some(DecimalValue(digits));
  }

  /** The process ID the pattern captures is made of decimal digits only. */
  lemma PidIsDigits(s: string)
    requires Submatch(ProcessPattern(), s).Some?
    ensures IsDigits(Cap(Submatch(ProcessPattern(), s).value, 2))
  {
    ProcessMatch(s);
  }

  /** Every event of this parser is counted under "process" or as an application event. */
  lemma ProcessEventKinds(syslogTime: int, source: string, message: string, decode: AppParser.ContextDecoder)
    requires NewProcessLogEvent(syslogTime, source, message, decode).Ok?
    requires NewProcessLogEvent(syslogTime, source, message, decode).value.Some?
    ensures var e := NewProcessLogEvent(syslogTime, source, message, decode).value.value;
      (e.Process? && e.Summary() == "process" && e.name !in AppProcessNames && 0 <= e.processId <= Int32Max) ||
      (e.BigcommerceApp? && 0 <= e.processId <= Int32Max)
  {
    var caps := Submatch(ProcessPattern(), message).value;
    PidIsDigits(message);
    var processId := ParseInt32(Cap(caps, 2)).value;
    assert processId == DecimalValue(Cap(caps, 2)) >= 0;
    if Cap(caps, 1) in AppProcessNames {
      assert NewProcessLogEvent(syslogTime, source, message, decode) ==
        Ok(AppParser.NewBigcommerceAppLogEvent(syslogTime, source, processId, Cap(caps, 3), decode));
      AppParser.AppEventCarriesCaller(syslogTime, source, processId, Cap(caps, 3), decode);
    } else {
      var e := Process(syslogTime, Cap(caps, 1), processId, Cap(caps, 3));
      assert NewProcessLogEvent(syslogTime, source, message, decode) == Ok(Some(e));
      assert e.Summary() == "process";
    }
  }
}
