/**
 * The catch-all parser of events/generic.go: `name: content`.
 */
module GenericParser {
  import opened Text
  import opened Regexp
  import opened Events

  /** `^(?P<name>.*?): (?P<message>.*)$` */
  function GenericPattern(): Re {
    Cat(Group(1, LazyStar(AnyChar)), GenericRest())
  }

  /** What follows the name: `: (?P<message>.*)$` */
  function GenericRest(): Re {
    Cat(Lit(": "), Cat(Group(2, Star(AnyChar)), EndOfText))
  }

  /**
   * The message split at its first ": ": the text before it and the text after
   * it.  A message holding a newline does not split (`.` stops at newlines).
   */
  function SplitAtColon(message: string): (r: Option<(string, string)>)
    ensures r.Some? ==> message == r.value.0 + ": " + r.value.1
    ensures r.Some? ==> forall j :: 0 <= j < |r.value.0| ==> !OccursAt(message, ": ", j)
    ensures r.None? <==> '\n' in message || Index(message, ": ").None?
  {
    if '\n' in message then None
    else match Index(message, ": ")
      case None => None
      case Some(k) => Some((message[..k], message[k + 2..]))
  }

  function NewGenericLogEvent(syslogTime: int, source: string, message: string): (r: Option<LogEvent>)
    ensures r.Some? ==> r.value.Generic? && r.value.syslogTime == syslogTime
  {
    match Submatch(GenericPattern(), message)
    case None => None
    case Some(caps) => Some(Generic(syslogTime, Cap(caps, 1), Cap(caps, 2)))
  }

  /** Whether `y` is where the name ends, and what matching from there gives. */
  lemma RestAt(s: string, y: nat)
    requires y <= |s|
    ensures FirstHit(GenericRest(), s, y, map[1 := s[..y]]) ==
      if OccursAt(s, ": ", y) && AllInClass(s[y + 2..], AnyChar)
      then Some(Hit(|s|, map[1 := s[..y], 2 := s[y + 2..]]))
      else None
  {
    CatLit(": ", Cat(Group(2, Star(AnyChar)), EndOfText), s, y, map[1 := s[..y]]);
    if OccursAt(s, ": ", y) {
      TailToEnd(2, AnyChar, s, y + 2, map[1 := s[..y]]);
    }
  }

  /** The `y`-th (and `y`-long) candidate name, then the rest of the pattern. */
  lemma CandidateAt(s: string, top: nat, y: nat)
    requires top <= |s| && y <= top
    ensures Try(After(GenericRest(), s), s, 0, map[], Some(1), 0, top, false, y) ==
      if OccursAt(s, ": ", y) && AllInClass(s[y + 2..], AnyChar)
      then Some(Hit(|s|, map[1 := s[..y], 2 := s[y + 2..]]))
      else None
  {
    assert Candidate(0, top, false, y) == y;
    assert Bind(map[], Some(1), s[0..y]) == map[1 := s[..y]];
    RestAt(s, y);
  }

  /** The lazy name group makes the first match the one at the shortest name. */
  lemma SearchNames(s: string)
    ensures Submatch(GenericPattern(), s) ==
      var r := SearchRepeat(After(GenericRest(), s), s, 0, map[], Some(1), 0, Longest(s, 0, AnyChar, None), false, 0);
      if r.None? then None else Some(r.value.caps)
  {
    GroupThen(1, AnyChar, 0, None, false, GenericRest(), s, 0, map[]);
  }

  lemma NewlineAfterColon(s: string, y: nat, p: nat)
    requires OccursAt(s, ": ", y) && y <= p < |s| && s[p] == '\n'
    ensures !AllInClass(s[y + 2..], AnyChar)
  {
    assert s[y..y + 2][0] == ':' && s[y..y + 2][1] == ' ';
    assert s[y + 2..][p - y - 2] == s[p];
  }

  lemma NoMatchAcrossNewline(s: string)
    requires '\n' in s
    ensures Submatch(GenericPattern(), s) == None
  {
    var top := Longest(s, 0, AnyChar, None);
    var next := After(GenericRest(), s);
    SearchNames(s);
    var p :| 0 <= p < |s| && s[p] == '\n';
    assert p >= top;
    forall y | 0 <= y <= top ensures Try(next, s, 0, map[], Some(1), 0, top, false, y).None? {
      CandidateAt(s, top, y);
      if OccursAt(s, ": ", y) {
        NewlineAfterColon(s, y, p);
      }
    }
    SearchNone(next, s, 0, map[], Some(1), 0, top, false, 0);
  }

  lemma MatchOnOneLine(s: string)
    requires '\n' !in s
    ensures Submatch(GenericPattern(), s) ==
      match Index(s, ": ")
      case None => None
      case Some(k) => Some(map[1 := s[..k], 2 := s[k + 2..]])
  {
    var top := Longest(s, 0, AnyChar, None);
    var next := After(GenericRest(), s);
    SearchNames(s);
    assert AllInClass(s, AnyChar);
    assert s[0..] == s;
    RunToEnd(s, 0, AnyChar);
    forall y | 0 <= y <= top
      ensures Try(next, s, 0, map[], Some(1), 0, top, false, y) ==
        if OccursAt(s, ": ", y) then Some(Hit(|s|, map[1 := s[..y], 2 := s[y + 2..]])) else None
    {
      CandidateAt(s, top, y);
      if OccursAt(s, ": ", y) {
        SuffixInClass(s, y + 2, AnyChar);
      }
    }
    match Index(s, ": ")
    case None =>
      SearchNone(next, s, 0, map[], Some(1), 0, top, false, 0);
    case Some(k) =>
      SearchFound(next, s, 0, map[], Some(1), 0, top, false, 0, k);
  }

  /** The pattern's first match is exactly the split at the first ": ". */
  lemma GenericMatch(s: string)
    ensures Submatch(GenericPattern(), s) ==
      match SplitAtColon(s)
      case None => None
      case Some(split) => Some(map[1 := split.0, 2 := split.1])
  {
    if '\n' in s {
      NoMatchAcrossNewline(s);
    } else {
      MatchOnOneLine(s);
    }
  }

  /**
   * A generic event exists exactly when the message splits at a ": "; its name
   * is the text before the first one, its content all the text after it, and
   * it keeps the syslog time it was given.
   */
  lemma GenericEventFields(syslogTime: int, source: string, message: string)
    ensures NewGenericLogEvent(syslogTime, source, message) ==
      match SplitAtColon(message)
      case None => None
      case Some(split) => Some(Generic(syslogTime, split.0, split.1))
  {
    GenericMatch(message);
  }
}
