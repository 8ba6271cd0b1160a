/**
 * Framing of one raw syslog line (main.go, `getEvent`): a BSD-syslog header
 * `Mmm dd hh:mm:ss` (section 4.1.2 of RFC 3164), a space, the source up to the
 * next space, a space, the message, and the line's final newline.
 */
module Framing {
  import opened Text
  import opened Regexp

  /** The month names the header may start with.  September is not among them. */
  const FrameMonths: seq<string> := ["Jan", "Feb", "Mar", "Apr", "May", "Jun", "Jul", "Aug", "Oct", "Nov", "Dec"]

  /** `(?:Jan|…|Dec)(?:[ ]{1,})(?:[0-9]{1,}) [0-9]{2}:[0-9]{2}:[0-9]{2}` */
  function DatePart(): Re {
    Cat(AltOf(FrameMonths), SpacesRest())
  }

  function SpacesRest(): Re {
    Cat(Plus(SpaceChar), DayRest())
  }

  function DayRest(): Re {
    Cat(Plus(Digit), ClockRe())
  }

  /** ` [0-9]{2}:[0-9]{2}:[0-9]{2}` */
  function ClockRe(): Re {
    Cat(Lit(" "), Cat(Count(Digit, 2), Cat(Lit(":"), Cat(Count(Digit, 2), Cat(Lit(":"), Count(Digit, 2))))))
  }

  /** `^(?P<date>…) (?P<source>.*?) (?P<message>.*)\n$` */
  function FramePattern(): Re {
    Cat(Group(1, DatePart()), Cat(Lit(" "), SourceRe()))
  }

  function SourceRe(): Re {
    Cat(Group(2, LazyStar(AnyChar)), Cat(Lit(" "), MessageRe()))
  }

  function MessageRe(): Re {
    Cat(Group(3, Star(AnyChar)), Cat(Lit("\n"), EndOfText))
  }

  // ---------------------------------------------------------------------------
  // The header written out by hand

  /** ` hh:mm:ss` at `q`: a space and three two-digit fields. */
  predicate ClockAt(s: string, q: nat) {
    && q + 9 <= |s|
    && s[q] == ' ' && IsDigit(s[q + 1]) && IsDigit(s[q + 2])
    && s[q + 3] == ':' && IsDigit(s[q + 4]) && IsDigit(s[q + 5])
    && s[q + 6] == ':' && IsDigit(s[q + 7]) && IsDigit(s[q + 8])
  }

  /** Whether `s` starts with one of the month names. */
  predicate MonthAt(s: string) {
    exists j :: 0 <= j < |FrameMonths| && OccursAt(s, FrameMonths[j], 0)
  }

  /** Where a clock starting at `q` ends. */
  function ClockEnd(s: string, q: nat): (r: Option<nat>)
    ensures r.Some? ==> r.value <= |s|
  {
    if ClockAt(s, q) then Some(q + 9) else None
  }

  /** Where the day and the clock end when the day starts at `p`. */
  function DayEnd(s: string, p: nat): (r: Option<nat>)
    requires p <= |s|
    ensures r.Some? ==> r.value <= |s|
  {
    var digits := RunLength(s, p, Digit);
    if digits >= 1 then ClockEnd(s, p + digits) else None
  }

  /** Where the header ends after its month: one or more spaces, then the day and the clock. */
  function HeaderEnd(s: string): (r: Option<nat>)
    requires 3 <= |s|
    ensures r.Some? ==> r.value <= |s|
  {
    var spaces := RunLength(s, 3, SpaceChar);
    if spaces >= 1 then DayEnd(s, 3 + spaces) else None
  }

  /**
   * Where the date header of `s` ends: a month, one or more spaces, one or
   * more digits and the clock; `None` when `s` does not start with one.
   */
  function DateEnd(s: string): (r: Option<nat>)
    ensures r.Some? ==> r.value <= |s| && MonthAt(s)
  {
    if MonthAt(s) && 3 <= |s| then HeaderEnd(s) else None
  }

  /** Whether `s` from `q` on is one line ended by the final newline. */
  predicate LineEnd(s: string, q: nat) {
    q < |s| && s[|s| - 1] == '\n' && AllInClass(s[q..|s| - 1], AnyChar)
  }

  /** The first space in `s[k..end]`. */
  function SpaceFrom(s: string, k: nat, end: nat): (r: Option<nat>)
    requires end <= |s|
    ensures r.Some? ==> k <= r.value < end && s[r.value] == ' '
    ensures r.Some? ==> forall j :: k <= j < r.value ==> s[j] != ' '
    ensures r.None? ==> forall j :: k <= j < end ==> s[j] != ' '
    decreases end - k
  {
    if k >= end then None
    else if s[k] == ' ' then Some(k)
    else SpaceFrom(s, k + 1, end)
  }

  /**
   * A raw line split into its date header, its source and its message: the
   * source runs to the first space after the header, the message to the final
   * newline.  `None` when the line has no such shape.
   */
  function Frame(text: string): (r: Option<(string, string, string)>)
    ensures r.Some? ==> DateEnd(text) == Some(|r.value.0|)
  {
    match DateEnd(text)
    case None => None
    case Some(e) =>
      if e < |text| && text[e] == ' ' && LineEnd(text, e + 1) then
        match SpaceFrom(text, e + 1, |text| - 1)
        case None => None
        case Some(k) => Some((text[..e], text[e + 1..k], text[k + 1..|text| - 1]))
      else None
  }

  /** The three parts put back together give the line, and the source holds no space and no newline. */
  lemma FrameSplits(text: string)
    requires Frame(text).Some?
    ensures var (d, src, msg) := Frame(text).value;
      text == d + " " + src + " " + msg + "\n" && ' ' !in src && '\n' !in src && '\n' !in msg
  {
    var e := DateEnd(text).value;
    var k := SpaceFrom(text, e + 1, |text| - 1).value;
    Rejoin(text, e, k);
    NoNewlineIn(text, e + 1, e + 1, k);
    NoNewlineIn(text, e + 1, k + 1, |text| - 1);
  }

  /** Cutting a line at two spaces and before its last character loses nothing. */
  lemma Rejoin(text: string, e: nat, k: nat)
    requires e < k < |text| - 1 && text[e] == ' ' && text[k] == ' ' && text[|text| - 1] == '\n'
    ensures text == text[..e] + " " + text[e + 1..k] + " " + text[k + 1..|text| - 1] + "\n"
  {
    var n := |text| - 1;
    assert text[k..] == " " + text[k + 1..n] + "\n" by {
      assert text[k..] == [text[k]] + text[k + 1..n] + [text[n]];
    }
    assert text[e..] == " " + text[e + 1..k] + text[k..] by {
      assert text[e..] == [text[e]] + text[e + 1..k] + text[k..];
    }
    assert text == text[..e] + text[e..];
  }

  /** A stretch inside the part of a line that `LineEnd` vouches for holds no newline. */
  lemma NoNewlineIn(text: string, q: nat, a: nat, b: nat)
    requires q <= a <= b <= |text| - 1 && LineEnd(text, q)
    ensures '\n' !in text[a..b]
  {
    forall j | a <= j < b
      ensures text[j] != '\n'
    {
      assert text[q..|text| - 1][j - q] == text[j];
    }
  }

  // ---------------------------------------------------------------------------
  // The pattern's first match, piece by piece

  lemma ClockThen(s: string, q: nat, c: Captures, next: Next)
    requires q <= |s|
    ensures FirstThen(ClockRe(), s, q, c, Done(next)) == Resume(ClockEnd(s, q), c, next)
  {
    var tail := Cat(Count(Digit, 2), Cat(Lit(":"), Cat(Count(Digit, 2), Cat(Lit(":"), Count(Digit, 2)))));
    LitCat(" ", tail, s, q, c, Done(next));
    if OccursAt(s, " ", q) {
      assert s[q] == s[q..q + 1][0];
      ClockFields(s, q + 1, c, next);
    }
    if ClockAt(s, q) {
      assert s[q..q + 1] == [s[q]];
      ClockFields(s, q + 1, c, next);
    }
  }

  /** `hh:mm:ss` at `q`. */
  predicate FieldsAt(s: string, q: nat) {
    && q + 8 <= |s|
    && IsDigit(s[q]) && IsDigit(s[q + 1]) && s[q + 2] == ':'
    && IsDigit(s[q + 3]) && IsDigit(s[q + 4]) && s[q + 5] == ':'
    && IsDigit(s[q + 6]) && IsDigit(s[q + 7])
  }

  lemma ClockFields(s: string, q: nat, c: Captures, next: Next)
    requires q <= |s|
    ensures FirstThen(Cat(Count(Digit, 2), Cat(Lit(":"), Cat(Count(Digit, 2), Cat(Lit(":"), Count(Digit, 2))))), s, q, c, Done(next)) ==
      if FieldsAt(s, q) then next(q + 8, c) else None
  {
    var r2 := Cat(Count(Digit, 2), Cat(Lit(":"), Count(Digit, 2)));
    CountCat(Digit, 2, Cat(Lit(":"), r2), s, q, c, Done(next));
    if q + 2 <= |s| && AllInClass(s[q..q + 2], Digit) {
      assert s[q] == s[q..q + 2][0] && s[q + 1] == s[q..q + 2][1];
      LitCat(":", r2, s, q + 2, c, Done(next));
      if OccursAt(s, ":", q + 2) {
        assert s[q + 2] == s[q + 2..q + 3][0];
        ClockTail(s, q + 3, c, next);
      }
    }
    if FieldsAt(s, q) {
      assert s[q..q + 2] == [s[q], s[q + 1]];
      assert s[q + 2..q + 3] == [s[q + 2]];
    }
  }

  /** `mm:ss` at `q`. */
  lemma ClockTail(s: string, q: nat, c: Captures, next: Next)
    requires q <= |s|
    ensures FirstThen(Cat(Count(Digit, 2), Cat(Lit(":"), Count(Digit, 2))), s, q, c, Done(next)) ==
      if q + 5 <= |s| && IsDigit(s[q]) && IsDigit(s[q + 1]) && s[q + 2] == ':' && IsDigit(s[q + 3]) && IsDigit(s[q + 4])
      then next(q + 5, c) else None
  {
    CountCat(Digit, 2, Cat(Lit(":"), Count(Digit, 2)), s, q, c, Done(next));
    if q + 2 <= |s| && AllInClass(s[q..q + 2], Digit) {
      assert s[q] == s[q..q + 2][0] && s[q + 1] == s[q..q + 2][1];
      LitCat(":", Count(Digit, 2), s, q + 2, c, Done(next));
      if OccursAt(s, ":", q + 2) {
        assert s[q + 2] == s[q + 2..q + 3][0];
        CountThen(Digit, 2, s, q + 3, c, Done(next));
        if q + 5 <= |s| && AllInClass(s[q + 3..q + 5], Digit) {
          assert s[q + 3] == s[q + 3..q + 5][0] && s[q + 4] == s[q + 3..q + 5][1];
        }
      }
    }
    if q + 5 <= |s| && IsDigit(s[q]) && IsDigit(s[q + 1]) && s[q + 2] == ':' && IsDigit(s[q + 3]) && IsDigit(s[q + 4]) {
      assert s[q..q + 2] == [s[q], s[q + 1]];
      assert s[q + 2..q + 3] == [s[q + 2]];
      assert s[q + 3..q + 5] == [s[q + 3], s[q + 4]];
      CountThen(Digit, 2, s, q + 3, c, Done(next));
    }
  }

  /** No clock starts at a digit. */
  lemma NotClock(s: string, x: nat, c: Captures, next: Next)
    requires x < |s| && IsDigit(s[x])
    ensures FirstThen(ClockRe(), s, x, c, Done(next)).None?
  {
    ClockThen(s, x, c, next);
  }

  /** The greedy day digits must take the whole run: a clock starts with a space. */
  lemma DayWhole(s: string, p: nat, c: Captures, next: Next)
    requires p <= |s|
    ensures var run := RunLength(s, p, Digit);
      FirstThen(DayRest(), s, p, c, Done(next)) == if run < 1 then None else FirstThen(ClockRe(), s, p + run, c, Done(next))
  {
    var run := RunLength(s, p, Digit);
    forall x | p + 1 <= x < p + run ensures FirstThen(ClockRe(), s, x, c, Done(next)).None? {
      NotClock(s, x, c, next);
    }
    GreedyCat(Digit, 1, ClockRe(), s, p, c, Done(next));
  }

  lemma DayThen(s: string, p: nat, c: Captures, next: Next)
    requires p <= |s|
    ensures FirstThen(DayRest(), s, p, c, Done(next)) == Resume(DayEnd(s, p), c, next)
  {
    DayWhole(s, p, c, next);
    ClockThen(s, p + RunLength(s, p, Digit), c, next);
  }

  /** No day starts at a space. */
  lemma NotDay(s: string, x: nat, c: Captures, next: Next)
    requires x < |s| && s[x] == ' '
    ensures FirstThen(DayRest(), s, x, c, Done(next)).None?
  {
    assert RunLength(s, x, Digit) == 0;
    DayWhole(s, x, c, next);
  }

  /** The greedy spaces must take the whole run: the day starts with a digit. */
  lemma SpacesWhole(s: string, c: Captures, next: Next)
    requires 3 <= |s|
    ensures var run := RunLength(s, 3, SpaceChar);
      FirstThen(SpacesRest(), s, 3, c, Done(next)) == if run < 1 then None else FirstThen(DayRest(), s, 3 + run, c, Done(next))
  {
    var run := RunLength(s, 3, SpaceChar);
    forall x | 3 + 1 <= x < 3 + run ensures FirstThen(DayRest(), s, x, c, Done(next)).None? {
      NotDay(s, x, c, next);
    }
    GreedyCat(SpaceChar, 1, DayRest(), s, 3, c, Done(next));
  }

  lemma SpacesThen(s: string, c: Captures, next: Next)
    requires 3 <= |s|
    ensures FirstThen(SpacesRest(), s, 3, c, Done(next)) == Resume(HeaderEnd(s), c, next)
  {
    SpacesWhole(s, c, next);
    DayThen(s, 3 + RunLength(s, 3, SpaceChar), c, next);
  }

  lemma MonthLengths()
    ensures forall j :: 0 <= j < |FrameMonths| ==> |FrameMonths[j]| == 3
  {
  }

  lemma DateThen(s: string, c: Captures, next: Next)
    ensures FirstThen(DatePart(), s, 0, c, Done(next)) == Resume(DateEnd(s), c, next)
  {
    var rest := Then(SpacesRest(), Done(next));
    assert FirstThen(DatePart(), s, 0, c, Done(next)) == FirstThen(AltOf(FrameMonths), s, 0, c, rest);
    MonthLengths();
    AltOfThen(FrameMonths, 3, s, 0, c, rest);
    if MonthAt(s) {
      var j :| 0 <= j < |FrameMonths| && OccursAt(s, FrameMonths[j], 0);
      assert |FrameMonths[j]| == 3;
      assert Apply(rest, s, 3, c) == FirstThen(SpacesRest(), s, 3, c, Done(next));
      SpacesThen(s, c, next);
    }
  }

  // ---------------------------------------------------------------------------
  // Source and message

  lemma NewlineEnd(s: string, x: nat, c: Captures)
    requires x <= |s|
    ensures FirstThen(Cat(Lit("\n"), EndOfText), s, x, c, Done(Accept())) ==
      if x + 1 == |s| && s[x] == '\n' then Some(Hit(|s|, c)) else None
  {
    if OccursAt(s, "\n", x) {
      assert s[x] == s[x..x + 1][0];
    }
    if x + 1 == |s| && s[x] == '\n' {
      assert s[x..x + 1] == [s[x]];
    }
  }

  /** A run of non-newlines from `q` ends at the final newline exactly when the line ends there. */
  lemma LineEndRun(s: string, q: nat)
    requires q <= |s|
    ensures var top := RunLength(s, q, AnyChar);
      LineEnd(s, q) <==> q + top + 1 == |s| && s[q + top] == '\n'
  {
    var top := RunLength(s, q, AnyChar);
    if LineEnd(s, q) {
      var v := s[q..|s| - 1];
      forall x | q <= x < |s| - 1 ensures InClass(s[x], AnyChar) {
        assert s[x] == v[x - q];
      }
      RunAtLeast(s, q, AnyChar, |s| - 1 - q);
    }
    if q + top + 1 == |s| && s[q + top] == '\n' {
      var v := s[q..|s| - 1];
      forall x | 0 <= x < |v| ensures InClass(v[x], AnyChar) {
        assert v[x] == s[q + x];
      }
    }
  }

  lemma MessageThen(s: string, q: nat, c: Captures)
    requires q <= |s|
    ensures FirstThen(MessageRe(), s, q, c, Done(Accept())) ==
      if LineEnd(s, q) then Some(Hit(|s|, c[3 := s[q..|s| - 1]])) else None
  {
    var run := RunLength(s, q, AnyChar);
    var b := Cat(Lit("\n"), EndOfText);
    forall x | q <= x < q + run ensures FirstThen(b, s, x, c[3 := s[q..x]], Done(Accept())).None? {
      assert s[x] != '\n';
      NewlineEnd(s, x, c[3 := s[q..x]]);
    }
    assert MessageRe() == Cat(Group(3, Repeat(AnyChar, 0, None, true)), b);
    GreedyGroupCat(3, AnyChar, 0, b, s, q, c, Done(Accept()));
    NewlineEnd(s, q + run, c[3 := s[q..q + run]]);
    LineEndRun(s, q);
  }

  /** The rest of a line from a space on: one line through the final newline. */
  lemma SpaceThen(s: string, x: nat, c: Captures)
    requires x <= |s|
    ensures FirstThen(Cat(Lit(" "), MessageRe()), s, x, c, Done(Accept())) ==
      if x < |s| && s[x] == ' ' && LineEnd(s, x + 1) then Some(Hit(|s|, c[3 := s[x + 1..|s| - 1]])) else None
  {
    if OccursAt(s, " ", x) {
      assert s[x] == s[x..x + 1][0];
      MessageThen(s, x + 1, c);
    }
    if x < |s| && s[x] == ' ' {
      assert s[x..x + 1] == [s[x]];
      MessageThen(s, x + 1, c);
    }
  }

  /** One line from `q` on, given the part from `x` on is one and `q..x` holds no newline. */
  lemma LineEndExtend(s: string, q: nat, x: nat)
    requires q <= x && LineEnd(s, x) && forall j :: q <= j < x ==> s[j] != '\n'
    ensures LineEnd(s, q)
  {
    var v := s[q..|s| - 1];
    forall j | 0 <= j < |v| ensures InClass(v[j], AnyChar) {
      assert v[j] == s[q + j];
      if q + j >= x {
        assert s[q + j] == s[x..|s| - 1][q + j - x];
      }
    }
  }

  /** One line from `q` on is one line from any later `x` on. */
  lemma LineEndShrink(s: string, q: nat, x: nat)
    requires q <= x < |s| && LineEnd(s, q)
    ensures LineEnd(s, x)
  {
    var v := s[x..|s| - 1];
    forall j | 0 <= j < |v| ensures InClass(v[j], AnyChar) {
      assert v[j] == s[q..|s| - 1][x - q + j];
    }
  }

  /** The source at `q` is not over while no space fits. */
  lemma NoSpaceYet(s: string, q: nat, z: nat, c: Captures)
    requires q <= z <= |s| && (z < |s| ==> s[z] != ' ')
    ensures FirstThen(Cat(Lit(" "), MessageRe()), s, z, c, Done(Accept())).None?
  {
    SpaceThen(s, z, c);
  }

  /** A space after which the line does not end cleanly stops nothing either. */
  lemma NoLineYet(s: string, q: nat, z: nat, c: Captures)
    requires q <= z < |s| && !LineEnd(s, q) && forall j :: q <= j < z ==> s[j] != '\n'
    ensures FirstThen(Cat(Lit(" "), MessageRe()), s, z, c, Done(Accept())).None?
  {
    SpaceThen(s, z, c);
    if s[z] == ' ' && LineEnd(s, z + 1) {
      LineEndExtend(s, q, z + 1);
    }
  }

  /** What `SourceRe` matches from `q`: the source to the first space, the message to the final newline. */
  function SourceHit(s: string, q: nat, c: Captures): Option<Hit>
    requires q <= |s|
  {
    if !LineEnd(s, q) then None
    else match SpaceFrom(s, q, |s| - 1)
      case None => None
      case Some(k) => Some(Hit(|s|, c[2 := s[q..k]][3 := s[k + 1..|s| - 1]]))
  }

  /**
   * The lazy source and the message from `q` on: the source stops at the
   * first space of the line, and the line must run to the final newline.
   */
  lemma SourceThen(s: string, q: nat, c: Captures)
    requires q <= |s|
    ensures FirstThen(SourceRe(), s, q, c, Done(Accept())) == SourceHit(s, q, c)
  {
    if !LineEnd(s, q) {
      SourceNoLine(s, q, c);
    } else {
      match SpaceFrom(s, q, |s| - 1)
      case None => SourceNoSpace(s, q, c);
      case Some(k) => SourceAtSpace(s, q, c, k);
    }
  }

  /** The source pattern: a lazily repeated group 2, then a space and the message. */
  lemma SourceShape()
    ensures SourceRe() == Cat(Group(2, Repeat(AnyChar, 0, None, false)), Cat(Lit(" "), MessageRe()))
  {
  }

  /** A line that does not run cleanly to its newline has no source. */
  lemma SourceNoLine(s: string, q: nat, c: Captures)
    requires q <= |s| && !LineEnd(s, q)
    ensures FirstThen(SourceRe(), s, q, c, Done(Accept())) == None
  {
    var b := Cat(Lit(" "), MessageRe());
    var run := RunLength(s, q, AnyChar);
    forall z | q <= z <= q + run ensures FirstThen(b, s, z, c[2 := s[q..z]], Done(Accept())).None? {
      if z < |s| {
        forall j | q <= j < z ensures s[j] != '\n' {
          assert InClass(s[j], AnyChar);
        }
        NoLineYet(s, q, z, c[2 := s[q..z]]);
      } else {
        SpaceThen(s, z, c[2 := s[q..z]]);
      }
    }
    LazyGroupNone(2, AnyChar, b, s, q, c, Done(Accept()));
    SourceShape();
  }

  /** A line without a space after `q` has no source either. */
  lemma SourceNoSpace(s: string, q: nat, c: Captures)
    requires q <= |s| && LineEnd(s, q) && SpaceFrom(s, q, |s| - 1).None?
    ensures FirstThen(SourceRe(), s, q, c, Done(Accept())) == None
  {
    var b := Cat(Lit(" "), MessageRe());
    var run := RunLength(s, q, AnyChar);
    LineEndRun(s, q);
    forall z | q <= z <= q + run ensures FirstThen(b, s, z, c[2 := s[q..z]], Done(Accept())).None? {
      NoSpaceYet(s, q, z, c[2 := s[q..z]]);
    }
    LazyGroupNone(2, AnyChar, b, s, q, c, Done(Accept()));
    SourceShape();
  }

  /** The source stops at the first space `k`; the message runs on to the newline. */
  lemma SourceAtSpace(s: string, q: nat, c: Captures, k: nat)
    requires q <= |s| && LineEnd(s, q) && SpaceFrom(s, q, |s| - 1) == Some(k)
    ensures FirstThen(SourceRe(), s, q, c, Done(Accept())) == Some(Hit(|s|, c[2 := s[q..k]][3 := s[k + 1..|s| - 1]]))
  {
    var b := Cat(Lit(" "), MessageRe());
    LineEndRun(s, q);
    forall z | q <= z < k ensures FirstThen(b, s, z, c[2 := s[q..z]], Done(Accept())).None? {
      NoSpaceYet(s, q, z, c[2 := s[q..z]]);
    }
    LineEndShrink(s, q, k + 1);
    SpaceThen(s, k, c[2 := s[q..k]]);
    LazyGroupFound(2, AnyChar, b, s, q, c, Done(Accept()), k);
    SourceShape();
  }

  // ---------------------------------------------------------------------------
  // The whole pattern

  /** The continuation after the header: tag group 1, then a space, the source and the message. */
  function HeaderCont(): Cont {
    Tagged(1, 0, Then(Cat(Lit(" "), SourceRe()), Done(Accept())))
  }

  /** Matching the frame is matching the date, then resuming after it. */
  lemma HeaderResume(text: string)
    ensures FirstThen(FramePattern(), text, 0, map[], Done(Accept())) ==
      Resume(DateEnd(text), map[], Resumer(HeaderCont(), text))
  {
    GroupFirstThen(1, DatePart(), Cat(Lit(" "), SourceRe()), text, 0, map[], Done(Accept()));
    DateThen(text, map[], Resumer(HeaderCont(), text));
  }

  /** The header first: its captured text, then whatever follows it. */
  lemma HeaderFirst(text: string)
    ensures FirstThen(FramePattern(), text, 0, map[], Done(Accept())) ==
      match DateEnd(text)
      case None => None
      case Some(e) => FirstThen(Cat(Lit(" "), SourceRe()), text, e, map[1 := text[..e]], Done(Accept()))
  {
    HeaderResume(text);
    match DateEnd(text)
    case None =>
    case Some(e) =>
      GroupResume(1, Cat(Lit(" "), SourceRe()), text, e, map[], Done(Accept()));
      assert map[][1 := text[..e]] == map[1 := text[..e]];
  }

  /** After the header: a space, the source and the message, as `Frame` cuts them. */
  lemma AfterHeader(text: string, e: nat)
    requires DateEnd(text) == Some(e)
    ensures FirstThen(Cat(Lit(" "), SourceRe()), text, e, map[1 := text[..e]], Done(Accept())) ==
      match Frame(text)
      case None => None
      case Some((d, src, msg)) => Some(Hit(|text|, map[1 := d, 2 := src, 3 := msg]))
  {
    var c := map[1 := text[..e]];
    LitCat(" ", SourceRe(), text, e, c, Done(Accept()));
    if OccursAt(text, " ", e) {
      SourceThen(text, e + 1, c);
      SourceAfterHeader(text, e);
    } else {
      assert !(e < |text| && text[e] == ' ');
    }
  }

  /** `Frame` cuts the line where the source pattern does. */
  lemma SourceAfterHeader(text: string, e: nat)
    requires DateEnd(text) == Some(e) && OccursAt(text, " ", e)
    ensures SourceHit(text, e + 1, map[1 := text[..e]]) ==
      match Frame(text)
      case None => None
      case Some((d, src, msg)) => Some(Hit(|text|, map[1 := d, 2 := src, 3 := msg]))
  {
    assert text[e..e + 1][0] == text[e];
    if LineEnd(text, e + 1) && SpaceFrom(text, e + 1, |text| - 1).Some? {
      var k := SpaceFrom(text, e + 1, |text| - 1).value;
      assert map[1 := text[..e]][2 := text[e + 1..k]][3 := text[k + 1..|text| - 1]] ==
        map[1 := text[..e], 2 := text[e + 1..k], 3 := text[k + 1..|text| - 1]];
    }
  }

  /**
   * The frame pattern's first match is exactly `Frame`'s cut: group 1 the
   * header, group 2 the source, group 3 the message.
   */
  lemma FrameMatch(text: string)
    ensures Submatch(FramePattern(), text) ==
      match Frame(text)
      case None => None
      case Some((d, src, msg)) => Some(map[1 := d, 2 := src, 3 := msg])
  {
    FirstHitThen(FramePattern(), text, 0, map[]);
    HeaderFirst(text);
    if DateEnd(text).Some? {
      AfterHeader(text, DateEnd(text).value);
    }
  }

  /** A line dated in September is never framed: the month list leaves it out. */
  lemma SeptemberUnframed(text: string)
    requires StartsWith(text, "Sep")
    ensures Submatch(FramePattern(), text) == None
  {
    FrameMatch(text);
    SeptemberNoMonth(text);
  }

  lemma SeptemberNoMonth(text: string)
    requires StartsWith(text, "Sep")
    ensures Frame(text).None?
  {
    forall j | 0 <= j < |FrameMonths| ensures !OccursAt(text, FrameMonths[j], 0) {
      assert text[0..3] == "Sep";
    }
  }
}
