/**
 * The subset of Go's `regexp` package (RE2 syntax, leftmost-first semantics)
 * that the log viewer's patterns use: literals, single-character classes under
 * greedy or lazy repetition, concatenation, alternation and numbered capture
 * groups, and the end-of-text anchor `$`.
 *
 * `Ends(r, s, i, caps)` lists every way `r` can match a piece of `s` that
 * starts at `i`, in the order a backtracking matcher tries them: a greedy
 * repetition tries its longest run first, a lazy one its shortest, an
 * alternation its left branch first.  The first entry is therefore the match
 * that Go's `FindStringSubmatch` reports, together with its captures.
 */
module Regexp {
  import opened Text

  /** The character classes that occur in the log viewer's patterns. */
  datatype CharClass =
    | AnyChar     // `.`: any character except a newline
    | Digit       // `[0-9]`
    | NonSpace    // `[^ ]`
    | SpaceChar   // `[ ]`
    | DigitOrDot  // `[0-9\.]`

  predicate InClass(c: char, k: CharClass) {
    match k
    case AnyChar => c != '\n'
    case Digit => IsDigit(c)
    case NonSpace => c != ' '
    case SpaceChar => c == ' '
    case DigitOrDot => IsDigit(c) || c == '.'
  }

  predicate AllInClass(s: string, k: CharClass) {
    forall j :: 0 <= j < |s| ==> InClass(s[j], k)
  }

  datatype Re =
    | Lit(text: string)
    | Repeat(kind: CharClass, least: nat, most: Option<nat>, greedy: bool)
    | Cat(first: Re, rest: Re)
    | Alt(left: Re, right: Re)
    | Group(index: nat, body: Re)
    | EndOfText

  /** `k*` */
  function Star(k: CharClass): Re { Repeat(k, 0, None, true) }
  /** `k*?` */
  function LazyStar(k: CharClass): Re { Repeat(k, 0, None, false) }
  /** `k+`, also written `k{1,}` */
  function Plus(k: CharClass): Re { Repeat(k, 1, None, true) }
  /** `k{n}` */
  function Count(k: CharClass, n: nat): Re { Repeat(k, n, Some(n), true) }

  /** Submatches by group number; a group that did not take part reads as "". */
  type Captures = map<nat, string>

  function Cap(caps: Captures, n: nat): string {
    if n in caps then caps[n] else ""
  }

  datatype Hit = Hit(end: nat, caps: Captures)

  /** The fewest characters any match of `r` consumes. */
  function MinLength(r: Re): nat {
    match r
    case Lit(t) => |t|
    case Repeat(_, lo, _, _) => lo
    case Cat(a, b) => MinLength(a) + MinLength(b)
    case Alt(a, b) => if MinLength(a) <= MinLength(b) then MinLength(a) else MinLength(b)
    case Group(_, a) => MinLength(a)
    case EndOfText => 0
  }

  /** Length of the longest run of characters of class `k` starting at `i`. */
  function RunLength(s: string, i: nat, k: CharClass): (n: nat)
    requires i <= |s|
    ensures i + n <= |s|
    ensures forall j :: i <= j < i + n ==> InClass(s[j], k)
    ensures i + n < |s| ==> !InClass(s[i + n], k)
    decreases |s| - i
  {
    if i < |s| && InClass(s[i], k) then 1 + RunLength(s, i + 1, k) else 0
  }

  /** The most repetitions a `Repeat` can take at `i`. */
  function Longest(s: string, i: nat, k: CharClass, max: Option<nat>): (n: nat)
    requires i <= |s|
    ensures n <= RunLength(s, i, k)
  {
    var run := RunLength(s, i, k);
    match max
    case None => run
    case Some(m) => if m < run then m else run
  }

  function Ends(r: Re, s: string, i: nat, caps: Captures): (hits: seq<Hit>)
    requires i <= |s|
    ensures forall h | h in hits :: i + MinLength(r) <= h.end <= |s|
    decreases r, 0
  {
    match r
    case Lit(t) => if OccursAt(s, t, i) then [Hit(i + |t|, caps)] else []
    case Repeat(k, lo, hi, greedy) =>
      var top := Longest(s, i, k, hi);
      if top < lo then [] else RepeatHits(i, lo, top, greedy, caps, 0)
    case Cat(a, b) => Continue(b, s, i + MinLength(a), Ends(a, s, i, caps))
    case Alt(a, b) => Ends(a, s, i, caps) + Ends(b, s, i, caps)
    case Group(n, a) => Tag(n, s, i, i + MinLength(a), Ends(a, s, i, caps))
    case EndOfText => if i == |s| then [Hit(i, caps)] else []
  }

  /** Every match of `b` after each of `hits`, in order. */
  function Continue(b: Re, s: string, lo: nat, hits: seq<Hit>): (out: seq<Hit>)
    requires forall h | h in hits :: lo <= h.end <= |s|
    ensures forall h | h in out :: lo + MinLength(b) <= h.end <= |s|
    decreases b, |hits| + 1
  {
    if hits == [] then []
    else Ends(b, s, hits[0].end, hits[0].caps) + Continue(b, s, lo, hits[1..])
  }

  /** The `j`-th length a repetition of `lo` to `top` characters tries. */
  function Candidate(lo: nat, top: nat, greedy: bool, j: nat): nat
    requires lo <= top && j <= top - lo
  {
    if greedy then top - j else lo + j
  }

  /** The hits of a repetition at `i`, from its `j`-th candidate length on. */
  function RepeatHits(i: nat, lo: nat, top: nat, greedy: bool, caps: Captures, j: nat): (hits: seq<Hit>)
    requires lo <= top
    ensures |hits| == if j <= top - lo then top - lo + 1 - j else 0
    ensures forall x :: 0 <= x < |hits| ==> hits[x] == Hit(i + Candidate(lo, top, greedy, j + x), caps)
    decreases top - lo + 1 - j
  {
    if j > top - lo then [] else [Hit(i + Candidate(lo, top, greedy, j), caps)] + RepeatHits(i, lo, top, greedy, caps, j + 1)
  }

  /** Records, in each hit, the text from `i` to its end as group `n`. */
  function Tag(n: nat, s: string, i: nat, lo: nat, hits: seq<Hit>): (out: seq<Hit>)
    requires i <= lo
    requires forall h | h in hits :: lo <= h.end <= |s|
    ensures |out| == |hits|
    ensures forall j :: 0 <= j < |hits| ==> out[j] == Hit(hits[j].end, hits[j].caps[n := s[i..hits[j].end]])
    ensures forall h | h in out :: lo <= h.end <= |s|
  {
    seq(|hits|, j requires 0 <= j < |hits| =>
      assert hits[j] in hits; Hit(hits[j].end, hits[j].caps[n := s[i..hits[j].end]]))
  }

  /** `FindStringSubmatch` of a pattern anchored with `^`: the first match at 0. */
  function Submatch(r: Re, s: string): Option<Captures> {
    var first := FirstHit(r, s, 0, map[]);
    if first.None? then None else Some(first.value.caps)
  }

  /**
   * `FindAllStringSubmatch(s, -1)` of an unanchored pattern that cannot match
   * the empty string: the leftmost match, then the leftmost match from its
   * end, and so on.
   */
  function FindAll(r: Re, s: string, from: nat): seq<Captures>
    requires MinLength(r) >= 1 && from <= |s|
    decreases |s| - from
  {
    var hits := Ends(r, s, from, map[]);
    if hits != [] then [hits[0].caps] + FindAll(r, s, hits[0].end)
    else if from == |s| then []
    else FindAll(r, s, from + 1)
  }

  /** Every hit of a concatenation continues some hit of its first part. */
  lemma {:induction false} ContinueMember(b: Re, s: string, lo: nat, hits: seq<Hit>, h: Hit)
    requires forall h | h in hits :: lo <= h.end <= |s|
    requires h in Continue(b, s, lo, hits)
    ensures exists k :: 0 <= k < |hits| && h in Ends(b, s, hits[k].end, hits[k].caps)
    decreases |hits|
  {
    if h !in Ends(b, s, hits[0].end, hits[0].caps) {
      ContinueMember(b, s, lo, hits[1..], h);
      var k :| 0 <= k < |hits[1..]| && h in Ends(b, s, hits[1..][k].end, hits[1..][k].caps);
      assert hits[1..][k] == hits[k + 1];
    }
  }

  // ---------------------------------------------------------------------------
  // What a hit captures

  /** What a group body says about the text it captures. */
  predicate Spells(a: Re, v: string) {
    match a
    case Repeat(k, lo, hi, _) => AllInClass(v, k) && lo <= |v| && (hi.Some? ==> |v| <= hi.value)
    case Lit(t) => v == t
    case _ => MinLength(a) <= |v|
  }

  /** Whether some group `n` of `r` may capture `v`. */
  predicate Binds(r: Re, n: nat, v: string) {
    match r
    case Cat(a, b) => Binds(a, n, v) || Binds(b, n, v)
    case Alt(a, b) => Binds(a, n, v) || Binds(b, n, v)
    case Group(m, a) => (m == n && Spells(a, v)) || Binds(a, n, v)
    case _ => false
  }

  /** Whether `r` declares group `n`. */
  predicate Declares(r: Re, n: nat) {
    match r
    case Cat(a, b) => Declares(a, n) || Declares(b, n)
    case Alt(a, b) => Declares(a, n) || Declares(b, n)
    case Group(m, a) => m == n || Declares(a, n)
    case _ => false
  }

  /** The body of group `n` when the pattern declares it exactly once, outside any alternation. */
  function Owner(r: Re, n: nat): Option<Re> {
    match r
    case Cat(a, b) => if !Declares(a, n) then Owner(b, n) else if !Declares(b, n) then Owner(a, n) else None
    case Group(m, a) => if m == n && !Declares(a, n) then Some(a) else None
    case _ => None
  }

  /** A group declared once binds only text its body admits. */
  lemma {:induction false} OwnerSpells(r: Re, n: nat, v: string)
    requires Binds(r, n, v) && Owner(r, n).Some?
    ensures Spells(Owner(r, n).value, v)
  {
    match r
    case Cat(a, b) =>
      if !Declares(a, n) {
        NoGroupNoBinds(a, n, v);
        OwnerSpells(b, n, v);
      } else {
        NoGroupNoBinds(b, n, v);
        OwnerSpells(a, n, v);
      }
    case Group(m, a) =>
      NoGroupNoBinds(a, n, v);
  }

  lemma NoGroupNoBinds(r: Re, n: nat, v: string)
    requires !Declares(r, n)
    ensures !Binds(r, n, v)
  {
  }

  /** Whether `r` has no capture group at all. */
  predicate GroupFree(r: Re) {
    match r
    case Cat(a, b) => GroupFree(a) && GroupFree(b)
    case Alt(a, b) => GroupFree(a) && GroupFree(b)
    case Group(_, _) => false
    case _ => true
  }

  lemma {:induction false} GroupFreeDeclares(r: Re, n: nat)
    requires GroupFree(r)
    ensures !Declares(r, n) && !Binding(r, n)
  {
    match r
    case Cat(a, b) => GroupFreeDeclares(a, n); GroupFreeDeclares(b, n);
    case Alt(a, b) => GroupFreeDeclares(a, n); GroupFreeDeclares(b, n);
    case _ =>
  }

  /** A group-free prefix changes nothing about group `n`. */
  lemma SkipPlain(a: Re, b: Re, n: nat)
    requires GroupFree(a)
    ensures Declares(Cat(a, b), n) == Declares(b, n)
    ensures Owner(Cat(a, b), n) == Owner(b, n)
    ensures Binding(Cat(a, b), n) == Binding(b, n)
  {
    GroupFreeDeclares(a, n);
  }

  /** Neither does a prefix group of another number with a group-free body. */
  lemma SkipGroup(m: nat, body: Re, b: Re, n: nat)
    requires m != n && GroupFree(body)
    ensures Declares(Cat(Group(m, body), b), n) == Declares(b, n)
    ensures Owner(Cat(Group(m, body), b), n) == Owner(b, n)
    ensures Binding(Cat(Group(m, body), b), n) == Binding(b, n)
  {
    GroupFreeDeclares(body, n);
  }

  /** A prefix group `n` with a group-free body owns group `n` when the rest does not declare it. */
  lemma OwnGroup(n: nat, body: Re, b: Re)
    requires GroupFree(body) && !Declares(b, n)
    ensures Declares(Cat(Group(n, body), b), n)
    ensures Owner(Cat(Group(n, body), b), n) == Some(body)
    ensures Binding(Cat(Group(n, body), b), n)
  {
    GroupFreeDeclares(body, n);
  }

  /** Whether every match of `r` takes part in group `n`. */
  predicate Binding(r: Re, n: nat) {
    match r
    case Cat(a, b) => Binding(a, n) || Binding(b, n)
    case Alt(a, b) => Binding(a, n) && Binding(b, n)
    case Group(m, a) => m == n || Binding(a, n)
    case _ => false
  }

  /**
   * Every hit keeps the captures it started from, records every group the
   * pattern cannot skip, and binds each group only to text its body admits.
   */
  lemma {:induction false} HitCaptures(r: Re, s: string, i: nat, c: Captures, h: Hit)
    requires i <= |s|
    requires h in Ends(r, s, i, c)
    ensures c.Keys <= h.caps.Keys
    ensures forall n :: Binding(r, n) ==> n in h.caps
    ensures forall n | n in h.caps :: (n in c && h.caps[n] == c[n]) || Binds(r, n, h.caps[n])
    decreases r, 1
  {
    match r
    case Lit(t) =>
    case Repeat(k, lo, hi, greedy) =>
    case EndOfText =>
    case Alt(a, b) =>
      if h in Ends(a, s, i, c) {
        HitCaptures(a, s, i, c, h);
      } else {
        HitCaptures(b, s, i, c, h);
      }
    case Cat(a, b) =>
      CatCaptures(a, b, s, i, c, h);
    case Group(m, a) =>
      GroupCaptures(m, a, s, i, c, h);
  }

  /** A hit of `r` that started from captures `c` ended with captures `d`: the facts `HitCaptures` states. */
  ghost predicate CaptureStep(r: Re, c: Captures, d: Captures) {
    && c.Keys <= d.Keys
    && (forall n :: Binding(r, n) ==> n in d)
    && (forall n | n in d :: (n in c && d[n] == c[n]) || Binds(r, n, d[n]))
  }

  lemma {:induction false} CatCaptures(a: Re, b: Re, s: string, i: nat, c: Captures, h: Hit)
    requires i <= |s|
    requires h in Ends(Cat(a, b), s, i, c)
    ensures c.Keys <= h.caps.Keys
    ensures forall n :: Binding(Cat(a, b), n) ==> n in h.caps
    ensures forall n | n in h.caps :: (n in c && h.caps[n] == c[n]) || Binds(Cat(a, b), n, h.caps[n])
    decreases Cat(a, b), 0
  {
    var m := CatMiddle(a, b, s, i, c, h);
    HitCaptures(a, s, i, c, m);
    HitCaptures(b, s, m.end, m.caps, h);
    ComposeCaptures(a, b, c, m.caps, h.caps);
  }

  /** A hit of `Cat(a, b)` passes through a hit of `a` from which `b` reaches it. */
  lemma CatMiddle(a: Re, b: Re, s: string, i: nat, c: Captures, h: Hit) returns (m: Hit)
    requires i <= |s|
    requires h in Ends(Cat(a, b), s, i, c)
    ensures m in Ends(a, s, i, c) && m.end <= |s| && h in Ends(b, s, m.end, m.caps)
  {
    var hits := Ends(a, s, i, c);
    EndsCat(a, b, s, i, c);
    ContinueMember(b, s, i + MinLength(a), hits, h);
    var k :| 0 <= k < |hits| && h in Ends(b, s, hits[k].end, hits[k].caps);
    m := hits[k];
    assert m in hits;
  }

  /** What `CaptureStep` says of `a` from `c` to `m` and of `b` from `m` to `d`, it says of `Cat(a, b)` from `c` to `d`. */
  lemma ComposeCaptures(a: Re, b: Re, c: Captures, m: Captures, d: Captures)
    requires CaptureStep(a, c, m) && CaptureStep(b, m, d)
    ensures CaptureStep(Cat(a, b), c, d)
  {
    forall n | n in d
      ensures (n in c && d[n] == c[n]) || Binds(Cat(a, b), n, d[n])
    {
      if !Binds(b, n, d[n]) {
        assert n in m && d[n] == m[n];
      }
    }
  }

  lemma {:induction false} GroupCaptures(g: nat, a: Re, s: string, i: nat, c: Captures, h: Hit)
    requires i <= |s|
    requires h in Ends(Group(g, a), s, i, c)
    ensures c.Keys <= h.caps.Keys
    ensures forall n :: Binding(Group(g, a), n) ==> n in h.caps
    ensures forall n | n in h.caps :: (n in c && h.caps[n] == c[n]) || Binds(Group(g, a), n, h.caps[n])
    decreases Group(g, a), 0
  {
    var hits := Ends(a, s, i, c);
    var out := Tag(g, s, i, i + MinLength(a), hits);
    var j :| 0 <= j < |out| && out[j] == h;
    var m := hits[j];
    assert m in hits;
    HitCaptures(a, s, i, c, m);
    var v := s[i..m.end];
    assert h == Hit(m.end, m.caps[g := v]);
    GroupSpells(a, s, i, c, m);
  }

  /** The text a hit of a group body spans is text the body admits. */
  lemma GroupSpells(a: Re, s: string, i: nat, c: Captures, m: Hit)
    requires i <= |s|
    requires m in Ends(a, s, i, c)
    ensures i <= m.end && Spells(a, s[i..m.end])
  {
    match a
    case Repeat(k, lo, hi, greedy) =>
      var top := Longest(s, i, k, hi);
      var v := s[i..m.end];
      forall x | 0 <= x < |v| ensures InClass(v[x], k) {
        assert v[x] == s[i + x];
      }
    case _ =>
  }

  /** The captures `FindStringSubmatch` reports obey the pattern's groups. */
  lemma SubmatchCaptures(r: Re, s: string)
    requires Submatch(r, s).Some?
    ensures forall n :: Binding(r, n) ==> n in Submatch(r, s).value
    ensures forall n | n in Submatch(r, s).value :: Binds(r, n, Submatch(r, s).value[n])
  {
    var hits := Ends(r, s, 0, map[]);
    assert hits[0] in hits;
    HitCaptures(r, s, 0, map[], hits[0]);
  }

  /** A group every match takes part in, declared once: its capture is there and its body admits it. */
  lemma OwnedCapture(r: Re, s: string, n: nat)
    requires Submatch(r, s).Some? && Binding(r, n) && Owner(r, n).Some?
    ensures n in Submatch(r, s).value && Spells(Owner(r, n).value, Submatch(r, s).value[n])
  {
    SubmatchCaptures(r, s);
    OwnerSpells(r, n, Submatch(r, s).value[n]);
  }

  /** A capture owned by `[0-9]{1,}` is a numeral. */
  lemma DigitsCapture(r: Re, s: string, n: nat)
    requires Submatch(r, s).Some? && Binding(r, n) && Owner(r, n) == Some(Plus(Digit))
    ensures IsDigits(Cap(Submatch(r, s).value, n))
  {
    OwnedCapture(r, s, n);
  }

  /** A capture owned by a starred class holds only that class. */
  lemma ClassCapture(r: Re, s: string, n: nat, k: CharClass)
    requires Submatch(r, s).Some? && Binding(r, n) && Owner(r, n) == Some(Star(k))
    ensures AllInClass(Cap(Submatch(r, s).value, n), k)
  {
    OwnedCapture(r, s, n);
  }

  // ---------------------------------------------------------------------------
  // How the first match arises

  function First(hits: seq<Hit>): Option<Hit> {
    if hits == [] then None else Some(hits[0])
  }

  /** The first match of `r` at `i`: what `FindStringSubmatch` reports. */
  function FirstHit(r: Re, s: string, i: nat, c: Captures): (h: Option<Hit>)
    requires i <= |s|
    ensures h.Some? ==> i + MinLength(r) <= h.value.end <= |s|
  {
    var hits := Ends(r, s, i, c);
    if hits == [] then None else assert hits[0] in hits; Some(hits[0])
  }

  /** The first match of whatever follows, started at a given end with given captures. */
  type Next = (nat, Captures) -> Option<Hit>

  /** The first match of `b` at each position of `s`. */
  function After(b: Re, s: string): Next {
    (x: nat, c: Captures) => if x <= |s| then FirstHit(b, s, x, c) else None
  }

  /** The first match of what follows any of `hits`, trying them in order. */
  function FirstAfter(next: Next, hits: seq<Hit>): Option<Hit> {
    if hits == [] then None
    else
      var first := next(hits[0].end, hits[0].caps);
      if first.Some? then first else FirstAfter(next, hits[1..])
  }

  lemma {:induction false} ContinueFirstAfter(b: Re, s: string, lo: nat, hits: seq<Hit>)
    requires forall h | h in hits :: lo <= h.end <= |s|
    ensures First(Continue(b, s, lo, hits)) == FirstAfter(After(b, s), hits)
    decreases |hits|
  {
    if hits != [] {
      ContinueFirstAfter(b, s, lo, hits[1..]);
      assert hits[0] in hits;
      assert After(b, s)(hits[0].end, hits[0].caps) == FirstHit(b, s, hits[0].end, hits[0].caps);
    }
  }

  /** A literal followed by `b`: the literal must be there, then `b` decides. */
  lemma CatLit(t: string, b: Re, s: string, i: nat, c: Captures)
    requires i <= |s|
    ensures FirstHit(Cat(Lit(t), b), s, i, c) ==
            if OccursAt(s, t, i) then FirstHit(b, s, i + |t|, c) else None
  {
    var hits := Ends(Lit(t), s, i, c);
    CatFirst(Lit(t), b, s, i, c);
    if OccursAt(s, t, i) {
      calc {
        FirstAfter(After(b, s), hits);
        { assert hits == [Hit(i + |t|, c)] && hits[1..] == []; }
        After(b, s)(i + |t|, c);
        FirstHit(b, s, i + |t|, c);
      }
    }
  }

  /** `c` with group `n`, if any, set to `v`. */
  function Bind(c: Captures, n: Option<nat>, v: string): Captures {
    if n.Some? then c[n.value := v] else c
  }

  /**
   * A repetition of `lo` to `top` characters at `i` (captured as group `n`,
   * if any) and then `next`: the first candidate length, from the `j`-th on,
   * after which `next` matches.
   */
  function SearchRepeat(next: Next, s: string, i: nat, c: Captures, n: Option<nat>, lo: nat, top: nat,
                        greedy: bool, j: nat): Option<Hit>
    requires lo <= top && i + top <= |s|
    decreases top - lo + 1 - j
  {
    if j > top - lo then None
    else
      var len := Candidate(lo, top, greedy, j);
      var first := next(i + len, Bind(c, n, s[i..i + len]));
      if first.Some? then first else SearchRepeat(next, s, i, c, n, lo, top, greedy, j + 1)
  }

  /** What `next` gives after the `y`-th candidate length. */
  function Try(next: Next, s: string, i: nat, c: Captures, n: Option<nat>, lo: nat, top: nat,
               greedy: bool, y: nat): Option<Hit>
    requires lo <= top && i + top <= |s| && y <= top - lo
  {
    var len := Candidate(lo, top, greedy, y);
    next(i + len, Bind(c, n, s[i..i + len]))
  }

  /** A greedy repetition tries the whole run first. */
  lemma TryLongest(next: Next, s: string, i: nat, c: Captures, g: nat, lo: nat, top: nat)
    requires lo <= top && i + top <= |s|
    ensures Try(next, s, i, c, Some(g), lo, top, true, 0) == next(i + top, c[g := s[i..i + top]])
  {
  }

  lemma {:induction false} SearchFound(next: Next, s: string, i: nat, c: Captures, n: Option<nat>, lo: nat, top: nat,
                                       greedy: bool, j: nat, x: nat)
    requires lo <= top && i + top <= |s|
    requires j <= x <= top - lo
    requires forall y :: j <= y < x ==> Try(next, s, i, c, n, lo, top, greedy, y).None?
    requires Try(next, s, i, c, n, lo, top, greedy, x).Some?
    ensures SearchRepeat(next, s, i, c, n, lo, top, greedy, j) == Try(next, s, i, c, n, lo, top, greedy, x)
    decreases x - j
  {
    if j < x {
      assert Try(next, s, i, c, n, lo, top, greedy, j).None?;
      SearchFound(next, s, i, c, n, lo, top, greedy, j + 1, x);
    }
  }

  lemma {:induction false} SearchNone(next: Next, s: string, i: nat, c: Captures, n: Option<nat>, lo: nat, top: nat,
                                      greedy: bool, j: nat)
    requires lo <= top && i + top <= |s|
    requires forall y :: j <= y <= top - lo ==> Try(next, s, i, c, n, lo, top, greedy, y).None?
    ensures SearchRepeat(next, s, i, c, n, lo, top, greedy, j) == None
    decreases top - lo + 1 - j
  {
    if j <= top - lo {
      assert Try(next, s, i, c, n, lo, top, greedy, j).None?;
      SearchNone(next, s, i, c, n, lo, top, greedy, j + 1);
    }
  }

  lemma {:induction false} FirstAfterSearch(next: Next, s: string, i: nat, c: Captures, n: Option<nat>, lo: nat, top: nat,
                                            greedy: bool, hits: seq<Hit>, j: nat)
    requires lo <= top && i + top <= |s|
    requires CandidateHits(hits, s, i, c, n, lo, top, greedy) && j <= |hits|
    ensures FirstAfter(next, hits[j..]) == SearchRepeat(next, s, i, c, n, lo, top, greedy, j)
    decreases |hits| - j
  {
    if j < |hits| {
      FirstAfterSearch(next, s, i, c, n, lo, top, greedy, hits, j + 1);
      assert hits[j..][1..] == hits[j + 1..];
      assert hits[j..][0] == hits[j];
    }
  }

  /** `hits` are the candidate lengths `lo..top` at `i`, in order, each binding group `n` if given. */
  predicate CandidateHits(hits: seq<Hit>, s: string, i: nat, c: Captures, n: Option<nat>, lo: nat, top: nat, greedy: bool)
    requires lo <= top && i + top <= |s|
  {
    && |hits| == top - lo + 1
    && forall x :: 0 <= x < |hits| ==>
         hits[x] == Hit(i + Candidate(lo, top, greedy, x), Bind(c, n, s[i..i + Candidate(lo, top, greedy, x)]))
  }

  /** The hits of a captured repetition: one per candidate length, in order. */
  lemma GroupHits(g: nat, k: CharClass, lo: nat, hi: Option<nat>, greedy: bool, s: string, i: nat, c: Captures)
    requires i <= |s| && lo <= Longest(s, i, k, hi)
    ensures CandidateHits(Ends(Group(g, Repeat(k, lo, hi, greedy)), s, i, c), s, i, c, Some(g), lo, Longest(s, i, k, hi), greedy)
  {
    var top := Longest(s, i, k, hi);
    var inner := Ends(Repeat(k, lo, hi, greedy), s, i, c);
    PlainHits(k, lo, hi, greedy, s, i, c);
    assert Ends(Group(g, Repeat(k, lo, hi, greedy)), s, i, c) == Tag(g, s, i, i + lo, inner);
    TagCandidates(g, s, i, c, lo, top, greedy, inner);
  }

  /** Capturing every candidate hit of a repetition as group `g`. */
  lemma TagCandidates(g: nat, s: string, i: nat, c: Captures, lo: nat, top: nat, greedy: bool, inner: seq<Hit>)
    requires lo <= top && i + top <= |s|
    requires CandidateHits(inner, s, i, c, None, lo, top, greedy)
    ensures forall h | h in inner :: i + lo <= h.end <= |s|
    ensures CandidateHits(Tag(g, s, i, i + lo, inner), s, i, c, Some(g), lo, top, greedy)
  {
    CandidateEnds(s, i, c, lo, top, greedy, inner);
    var hits := Tag(g, s, i, i + lo, inner);
    forall x | 0 <= x < |hits|
      ensures hits[x] == Hit(i + Candidate(lo, top, greedy, x), Bind(c, Some(g), s[i..i + Candidate(lo, top, greedy, x)]))
    {
      TagAt(g, s, i, c, lo, top, greedy, inner, x);
    }
  }

  /** The `x`-th candidate, tagged. */
  lemma TagAt(g: nat, s: string, i: nat, c: Captures, lo: nat, top: nat, greedy: bool, inner: seq<Hit>, x: nat)
    requires lo <= top && i + top <= |s|
    requires CandidateHits(inner, s, i, c, None, lo, top, greedy)
    requires forall h | h in inner :: i + lo <= h.end <= |s|
    requires x < |inner|
    ensures var len := Candidate(lo, top, greedy, x);
      Tag(g, s, i, i + lo, inner)[x] == Hit(i + len, Bind(c, Some(g), s[i..i + len]))
  {
    var len := Candidate(lo, top, greedy, x);
    assert inner[x] == Hit(i + len, c);
  }

  /** Every candidate hit ends between the shortest and the longest candidate length. */
  lemma CandidateEnds(s: string, i: nat, c: Captures, lo: nat, top: nat, greedy: bool, inner: seq<Hit>)
    requires lo <= top && i + top <= |s|
    requires CandidateHits(inner, s, i, c, None, lo, top, greedy)
    ensures forall h | h in inner :: i + lo <= h.end <= |s|
  {
    forall h | h in inner ensures i + lo <= h.end <= |s| {
      var x :| 0 <= x < |inner| && inner[x] == h;
      assert h.end == i + Candidate(lo, top, greedy, x);
    }
  }

  /** The hits of an uncaptured repetition: one per candidate length, in order. */
  lemma PlainHits(k: CharClass, lo: nat, hi: Option<nat>, greedy: bool, s: string, i: nat, c: Captures)
    requires i <= |s| && lo <= Longest(s, i, k, hi)
    ensures CandidateHits(Ends(Repeat(k, lo, hi, greedy), s, i, c), s, i, c, None, lo, Longest(s, i, k, hi), greedy)
  {
    var top := Longest(s, i, k, hi);
    var hits := Ends(Repeat(k, lo, hi, greedy), s, i, c);
    assert hits == RepeatHits(i, lo, top, greedy, c, 0);
    forall x | 0 <= x < |hits|
      ensures hits[x] == Hit(i + Candidate(lo, top, greedy, x), Bind(c, None, s[i..i + Candidate(lo, top, greedy, x)]))
    {
    }
  }

  /** The first match of a concatenation is the first continuation of its first part's hits. */
  lemma CatFirst(a: Re, b: Re, s: string, i: nat, c: Captures)
    requires i <= |s|
    ensures FirstHit(Cat(a, b), s, i, c) == FirstAfter(After(b, s), Ends(a, s, i, c))
  {
    var hits := Ends(a, s, i, c);
    calc {
      FirstHit(Cat(a, b), s, i, c);
      { FirstHitIsFirst(Cat(a, b), s, i, c); }
      First(Ends(Cat(a, b), s, i, c));
      { EndsCat(a, b, s, i, c); }
      First(Continue(b, s, i + MinLength(a), hits));
      { ContinueFirstAfter(b, s, i + MinLength(a), hits); }
      FirstAfter(After(b, s), hits);
    }
  }

  /** The first match is the first of all the ends. */
  lemma FirstHitIsFirst(r: Re, s: string, i: nat, c: Captures)
    requires i <= |s|
    ensures FirstHit(r, s, i, c) == First(Ends(r, s, i, c))
  {
  }


  /** An uncaptured repetition followed by `b`. */
  lemma RepeatThen(k: CharClass, lo: nat, hi: Option<nat>, greedy: bool, b: Re, s: string, i: nat, c: Captures)
    requires i <= |s|
    ensures var top := Longest(s, i, k, hi);
      FirstHit(Cat(Repeat(k, lo, hi, greedy), b), s, i, c) ==
      if top < lo then None else SearchRepeat(After(b, s), s, i, c, None, lo, top, greedy, 0)
  {
    var top := Longest(s, i, k, hi);
    var hits := Ends(Repeat(k, lo, hi, greedy), s, i, c);
    CatFirst(Repeat(k, lo, hi, greedy), b, s, i, c);
    if lo <= top {
      PlainHits(k, lo, hi, greedy, s, i, c);
      FirstAfterSearch(After(b, s), s, i, c, None, lo, top, greedy, hits, 0);
      assert hits[0..] == hits;
    }
  }

  /** A captured repetition followed by `b`. */
  lemma GroupThen(g: nat, k: CharClass, lo: nat, hi: Option<nat>, greedy: bool, b: Re, s: string, i: nat, c: Captures)
    requires i <= |s|
    ensures var top := Longest(s, i, k, hi);
      FirstHit(Cat(Group(g, Repeat(k, lo, hi, greedy)), b), s, i, c) ==
      if top < lo then None else SearchRepeat(After(b, s), s, i, c, Some(g), lo, top, greedy, 0)
  {
    var top := Longest(s, i, k, hi);
    var hits := Ends(Group(g, Repeat(k, lo, hi, greedy)), s, i, c);
    CatFirst(Group(g, Repeat(k, lo, hi, greedy)), b, s, i, c);
    if lo <= top {
      GroupHits(g, k, lo, hi, greedy, s, i, c);
      FirstAfterSearch(After(b, s), s, i, c, Some(g), lo, top, greedy, hits, 0);
      assert hits[0..] == hits;
    } else {
      assert Ends(Repeat(k, lo, hi, greedy), s, i, c) == [];
    }
  }

  lemma SuffixInClass(s: string, q: nat, k: CharClass)
    requires q <= |s| && AllInClass(s, k)
    ensures AllInClass(s[q..], k)
  {
    forall x | 0 <= x < |s| - q ensures InClass(s[q..][x], k) {
      assert s[q..][x] == s[q + x];
    }
  }

  /** A run of class `k` that reaches the end of the text is all of it. */
  lemma {:induction false} RunToEnd(s: string, q: nat, k: CharClass)
    requires q <= |s| && AllInClass(s[q..], k)
    ensures RunLength(s, q, k) == |s| - q
    decreases |s| - q
  {
    if q < |s| {
      assert s[q..][0] == s[q];
      assert s[q + 1..] == s[q..][1..];
      RunToEnd(s, q + 1, k);
    }
  }

  /** A greedy capture of everything to the end of the text. */
  lemma TailToEnd(n: nat, k: CharClass, s: string, q: nat, c: Captures)
    requires q <= |s|
    ensures FirstHit(Cat(Group(n, Star(k)), EndOfText), s, q, c) ==
            if AllInClass(s[q..], k) then Some(Hit(|s|, c[n := s[q..]])) else None
  {
    var top := Longest(s, q, k, None);
    GroupThen(n, k, 0, None, true, EndOfText, s, q, c);
    if AllInClass(s[q..], k) {
      RunToEnd(s, q, k);
      assert Candidate(0, top, true, 0) == |s| - q;
      assert s[q..q + top] == s[q..];
      assert Try(After(EndOfText, s), s, q, c, Some(n), 0, top, true, 0) == Some(Hit(|s|, c[n := s[q..]]));
    } else {
      var x :| 0 <= x < |s[q..]| && !InClass(s[q..][x], k);
      assert s[q..][x] == s[q + x];
      forall y | 0 <= y <= top ensures Try(After(EndOfText, s), s, q, c, Some(n), 0, top, true, y).None? {
      }
      SearchNone(After(EndOfText, s), s, q, c, Some(n), 0, top, true, 0);
    }
  }

  // ---------------------------------------------------------------------------
  // The first match, continued: the same search written constructor by constructor

  /**
   * What is still to match after a hit: a pattern, the closing of a group, or
   * at last whatever `next` decides about the end and the captures.
   */
  datatype Cont =
    | Done(next: Next)
    | Then(b: Re, k: Cont)
    | Tagged(g: nat, from: nat, k: Cont)

  /** Accepts every hit as it is. */
  function Accept(): Next {
    (x: nat, c: Captures) => Some(Hit(x, c))
  }

  function Size(r: Re): (n: nat)
    ensures n >= 1
  {
    match r
    case Cat(a, b) => Size(a) + Size(b) + 2
    case Alt(a, b) => Size(a) + Size(b) + 1
    case Group(_, a) => Size(a) + 2
    case _ => 1
  }

  function ContSize(k: Cont): nat {
    match k
    case Done(_) => 0
    case Then(b, k') => Size(b) + ContSize(k') + 1
    case Tagged(_, _, k') => ContSize(k') + 1
  }

  /**
   * The first hit of `r` at `i` that the continuation `k` completes: the
   * backtracking search, one constructor at a time.
   */
  function FirstThen(r: Re, s: string, i: nat, c: Captures, k: Cont): Option<Hit>
    requires i <= |s|
    decreases Size(r) + ContSize(k), 2, 0
  {
    match r
    case Lit(t) => if OccursAt(s, t, i) then Apply(k, s, i + |t|, c) else None
    case Repeat(cls, lo, hi, greedy) =>
      var top := Longest(s, i, cls, hi);
      if top < lo then None else SearchThen(k, s, i, c, None, lo, top, greedy, 0)
    case Cat(a, b) => FirstThen(a, s, i, c, Then(b, k))
    case Alt(a, b) =>
      var first := FirstThen(a, s, i, c, k);
      if first.Some? then first else FirstThen(b, s, i, c, k)
    case Group(g, a) => FirstThen(a, s, i, c, Tagged(g, i, k))
    case EndOfText => if i == |s| then Apply(k, s, i, c) else None
  }

  /** The continuation `k` run from the end `x` of a hit with captures `c`. */
  function Apply(k: Cont, s: string, x: nat, c: Captures): Option<Hit>
    decreases ContSize(k), 0, 0
  {
    match k
    case Done(next) => next(x, c)
    case Then(b, k') => if x <= |s| then FirstThen(b, s, x, c, k') else None
    case Tagged(g, from, k') => if from <= x <= |s| then Apply(k', s, x, c[g := s[from..x]]) else None
  }

  /** `SearchRepeat` with the continuation `k`. */
  function SearchThen(k: Cont, s: string, i: nat, c: Captures, n: Option<nat>, lo: nat, top: nat,
                      greedy: bool, j: nat): Option<Hit>
    requires lo <= top && i + top <= |s|
    decreases ContSize(k), 1, top - lo + 1 - j
  {
    if j > top - lo then None
    else
      var len := Candidate(lo, top, greedy, j);
      var first := Apply(k, s, i + len, Bind(c, n, s[i..i + len]));
      if first.Some? then first else SearchThen(k, s, i, c, n, lo, top, greedy, j + 1)
  }

  /** `next` from the end `e`, if there is one. */
  function Resume(e: Option<nat>, c: Captures, next: Next): Option<Hit> {
    if e.None? then None else next(e.value, c)
  }

  /** The continuation as a function. */
  function Resumer(k: Cont, s: string): Next {
    (x: nat, c: Captures) => Apply(k, s, x, c)
  }

  lemma {:induction false} SearchThenRepeat(k: Cont, s: string, i: nat, c: Captures, n: Option<nat>, lo: nat, top: nat,
                                            greedy: bool, j: nat)
    requires lo <= top && i + top <= |s|
    ensures SearchThen(k, s, i, c, n, lo, top, greedy, j) == SearchRepeat(Resumer(k, s), s, i, c, n, lo, top, greedy, j)
    decreases top - lo + 1 - j
  {
    if j <= top - lo {
      SearchThenRepeat(k, s, i, c, n, lo, top, greedy, j + 1);
    }
  }

  lemma {:induction false} FirstAfterAppend(next: Next, xs: seq<Hit>, ys: seq<Hit>)
    ensures FirstAfter(next, xs + ys) ==
      if FirstAfter(next, xs).Some? then FirstAfter(next, xs) else FirstAfter(next, ys)
    decreases |xs|
  {
    if xs != [] {
      assert (xs + ys)[0] == xs[0];
      assert (xs + ys)[1..] == xs[1..] + ys;
      FirstAfterAppend(next, xs[1..], ys);
    } else {
      assert xs + ys == ys;
    }
  }

  /** The constructor-by-constructor search finds what the enumeration of all hits puts first. */
  lemma {:induction false} FirstThenEnds(r: Re, s: string, i: nat, c: Captures, k: Cont)
    requires i <= |s|
    ensures FirstThen(r, s, i, c, k) == FirstAfter(Resumer(k, s), Ends(r, s, i, c))
    decreases r, 1
  {
    match r
    case Lit(t) => LitEnds(t, s, i, c, k);
    case Repeat(cls, lo, hi, greedy) => RepeatEnds(cls, lo, hi, greedy, s, i, c, k);
    case Cat(a, b) => CatEnds(a, b, s, i, c, k);
    case Alt(a, b) => AltEnds(a, b, s, i, c, k);
    case Group(g, a) => GroupEnds(g, a, s, i, c, k);
    case EndOfText => EndEnds(s, i, c, k);
  }

  lemma {:induction false} CatEnds(a: Re, b: Re, s: string, i: nat, c: Captures, k: Cont)
    requires i <= |s|
    ensures FirstThen(Cat(a, b), s, i, c, k) == FirstAfter(Resumer(k, s), Ends(Cat(a, b), s, i, c))
    decreases Cat(a, b), 0
  {
    var hits := Ends(a, s, i, c);
    calc {
      FirstThen(Cat(a, b), s, i, c, k);
      FirstThen(a, s, i, c, Then(b, k));
      { FirstThenEnds(a, s, i, c, Then(b, k)); }
      FirstAfter(Resumer(Then(b, k), s), hits);
      { ContinueThen(b, s, i + MinLength(a), hits, k); }
      FirstAfter(Resumer(k, s), Continue(b, s, i + MinLength(a), hits));
      { EndsCat(a, b, s, i, c); }
      FirstAfter(Resumer(k, s), Ends(Cat(a, b), s, i, c));
    }
  }

  /** The ends of `Cat(a, b)`: those of `b` after each end of `a`. */
  lemma EndsCat(a: Re, b: Re, s: string, i: nat, c: Captures)
    requires i <= |s|
    ensures Ends(Cat(a, b), s, i, c) == Continue(b, s, i + MinLength(a), Ends(a, s, i, c))
  {
  }

  lemma {:induction false} AltEnds(a: Re, b: Re, s: string, i: nat, c: Captures, k: Cont)
    requires i <= |s|
    ensures FirstThen(Alt(a, b), s, i, c, k) == FirstAfter(Resumer(k, s), Ends(Alt(a, b), s, i, c))
    decreases Alt(a, b), 0
  {
    FirstThenEnds(a, s, i, c, k);
    FirstThenEnds(b, s, i, c, k);
    FirstAfterAppend(Resumer(k, s), Ends(a, s, i, c), Ends(b, s, i, c));
  }

  lemma {:induction false} GroupEnds(g: nat, a: Re, s: string, i: nat, c: Captures, k: Cont)
    requires i <= |s|
    ensures FirstThen(Group(g, a), s, i, c, k) == FirstAfter(Resumer(k, s), Ends(Group(g, a), s, i, c))
    decreases Group(g, a), 0
  {
    var hits := Ends(a, s, i, c);
    var tagged := Tagged(g, i, k);
    calc {
      FirstThen(Group(g, a), s, i, c, k);
      FirstThen(a, s, i, c, tagged);
      { FirstThenEnds(a, s, i, c, tagged); }
      FirstAfter(Resumer(tagged, s), hits);
      { TagFirstAfter(g, s, i, i + MinLength(a), hits, k); }
      FirstAfter(Resumer(k, s), Tag(g, s, i, i + MinLength(a), hits));
      { assert Ends(Group(g, a), s, i, c) == Tag(g, s, i, i + MinLength(a), hits); }
      FirstAfter(Resumer(k, s), Ends(Group(g, a), s, i, c));
    }
  }

  lemma LitEnds(t: string, s: string, i: nat, c: Captures, k: Cont)
    requires i <= |s|
    ensures FirstThen(Lit(t), s, i, c, k) == FirstAfter(Resumer(k, s), Ends(Lit(t), s, i, c))
  {
    var hits := Ends(Lit(t), s, i, c);
    if OccursAt(s, t, i) {
      assert hits == [Hit(i + |t|, c)];
      assert FirstAfter(Resumer(k, s), hits[1..]) == None;
    }
  }

  lemma EndEnds(s: string, i: nat, c: Captures, k: Cont)
    requires i <= |s|
    ensures FirstThen(EndOfText, s, i, c, k) == FirstAfter(Resumer(k, s), Ends(EndOfText, s, i, c))
  {
    var hits := Ends(EndOfText, s, i, c);
    if i == |s| {
      assert hits == [Hit(i, c)];
      assert FirstAfter(Resumer(k, s), hits[1..]) == None;
    }
  }

  lemma RepeatEnds(cls: CharClass, lo: nat, hi: Option<nat>, greedy: bool, s: string, i: nat, c: Captures, k: Cont)
    requires i <= |s|
    ensures FirstThen(Repeat(cls, lo, hi, greedy), s, i, c, k) ==
            FirstAfter(Resumer(k, s), Ends(Repeat(cls, lo, hi, greedy), s, i, c))
  {
    var top := Longest(s, i, cls, hi);
    var hits := Ends(Repeat(cls, lo, hi, greedy), s, i, c);
    if lo <= top {
      PlainHits(cls, lo, hi, greedy, s, i, c);
      FirstAfterSearch(Resumer(k, s), s, i, c, None, lo, top, greedy, hits, 0);
      SearchThenRepeat(k, s, i, c, None, lo, top, greedy, 0);
      assert hits[0..] == hits;
    }
  }

  lemma {:induction false} ContinueThen(b: Re, s: string, lo: nat, hits: seq<Hit>, k: Cont)
    requires forall h | h in hits :: lo <= h.end <= |s|
    ensures FirstAfter(Resumer(k, s), Continue(b, s, lo, hits)) == FirstAfter(Resumer(Then(b, k), s), hits)
    decreases b, 2, |hits|
  {
    if hits != [] {
      assert hits[0] in hits;
      FirstThenEnds(b, s, hits[0].end, hits[0].caps, k);
      FirstAfterAppend(Resumer(k, s), Ends(b, s, hits[0].end, hits[0].caps), Continue(b, s, lo, hits[1..]));
      ContinueThen(b, s, lo, hits[1..], k);
    }
  }

  lemma {:induction false} TagFirstAfter(g: nat, s: string, i: nat, lo: nat, hits: seq<Hit>, k: Cont)
    requires i <= lo
    requires forall h | h in hits :: lo <= h.end <= |s|
    ensures FirstAfter(Resumer(k, s), Tag(g, s, i, lo, hits)) == FirstAfter(Resumer(Tagged(g, i, k), s), hits)
    decreases |hits|
  {
    if hits != [] {
      assert hits[0] in hits;
      assert Tag(g, s, i, lo, hits)[1..] == Tag(g, s, i, lo, hits[1..]);
      TagFirstAfter(g, s, i, lo, hits[1..], k);
    }
  }

  lemma FirstHitThen(r: Re, s: string, i: nat, c: Captures)
    requires i <= |s|
    ensures FirstHit(r, s, i, c) == FirstThen(r, s, i, c, Done(Accept()))
  {
    FirstThenEnds(r, s, i, c, Done(Accept()));
    var hits := Ends(r, s, i, c);
    if hits != [] {
      assert Resumer(Done(Accept()), s)(hits[0].end, hits[0].caps) == Some(hits[0]);
    }
  }

  /** Two continuations that agree on every end give the same first hit. */
  lemma {:induction false} SameCont(r: Re, s: string, i: nat, c: Captures, k1: Cont, k2: Cont)
    requires i <= |s|
    requires forall x: nat, d: Captures :: x <= |s| ==> Apply(k1, s, x, d) == Apply(k2, s, x, d)
    ensures FirstThen(r, s, i, c, k1) == FirstThen(r, s, i, c, k2)
    decreases r
  {
    match r
    case Lit(t) =>
    case Repeat(cls, lo, hi, greedy) =>
      var top := Longest(s, i, cls, hi);
      if lo <= top {
        SameSearch(k1, k2, s, i, c, lo, top, greedy, 0);
      }
    case Cat(a, b) =>
      forall x: nat, d: Captures | x <= |s| ensures Apply(Then(b, k1), s, x, d) == Apply(Then(b, k2), s, x, d) {
        SameCont(b, s, x, d, k1, k2);
      }
      SameCont(a, s, i, c, Then(b, k1), Then(b, k2));
    case Alt(a, b) =>
      SameCont(a, s, i, c, k1, k2);
      SameCont(b, s, i, c, k1, k2);
    case Group(g, a) =>
      forall x: nat, d: Captures | x <= |s| ensures Apply(Tagged(g, i, k1), s, x, d) == Apply(Tagged(g, i, k2), s, x, d) {
      }
      SameCont(a, s, i, c, Tagged(g, i, k1), Tagged(g, i, k2));
    case EndOfText =>
  }

  lemma {:induction false} SameSearch(k1: Cont, k2: Cont, s: string, i: nat, c: Captures, lo: nat, top: nat,
                                      greedy: bool, j: nat)
    requires lo <= top && i + top <= |s|
    requires forall x: nat, d: Captures :: x <= |s| ==> Apply(k1, s, x, d) == Apply(k2, s, x, d)
    ensures SearchThen(k1, s, i, c, None, lo, top, greedy, j) == SearchThen(k2, s, i, c, None, lo, top, greedy, j)
    decreases top - lo + 1 - j
  {
    if j <= top - lo {
      SameSearch(k1, k2, s, i, c, lo, top, greedy, j + 1);
    }
  }

  /** Any continuation may be read as the function it computes. */
  lemma AsDone(r: Re, s: string, i: nat, c: Captures, k: Cont)
    requires i <= |s|
    ensures FirstThen(r, s, i, c, k) == FirstThen(r, s, i, c, Done(Resumer(k, s)))
  {
    SameCont(r, s, i, c, k, Done(Resumer(k, s)));
  }

  /** A leading group: match its body, then tag it and go on with the rest. */
  lemma GroupFirstThen(g: nat, a: Re, b: Re, s: string, i: nat, c: Captures, k: Cont)
    requires i <= |s|
    ensures FirstThen(Cat(Group(g, a), b), s, i, c, k) ==
      FirstThen(a, s, i, c, Done(Resumer(Tagged(g, i, Then(b, k)), s)))
  {
    AsDone(a, s, i, c, Tagged(g, i, Then(b, k)));
  }

  /** Resuming after a leading group that ended at `e`: record it, then match the rest. */
  lemma GroupResume(g: nat, b: Re, s: string, e: nat, c: Captures, k: Cont)
    requires e <= |s|
    ensures Resume(Some(e), c, Resumer(Tagged(g, 0, Then(b, k)), s)) == FirstThen(b, s, e, c[g := s[..e]], k)
  {
    calc {
      Resume(Some(e), c, Resumer(Tagged(g, 0, Then(b, k)), s));
      Resumer(Tagged(g, 0, Then(b, k)), s)(e, c);
      Apply(Tagged(g, 0, Then(b, k)), s, e, c);
      Apply(Then(b, k), s, e, c[g := s[0..e]]);
      { assert s[0..e] == s[..e]; }
      FirstThen(b, s, e, c[g := s[..e]], k);
    }
  }

  // ---------------------------------------------------------------------------
  // Searching the candidate lengths of a repetition

  /** What `k` gives after the `y`-th candidate length. */
  function TryThen(k: Cont, s: string, i: nat, c: Captures, n: Option<nat>, lo: nat, top: nat,
                   greedy: bool, y: nat): Option<Hit>
    requires lo <= top && i + top <= |s| && y <= top - lo
  {
    var len := Candidate(lo, top, greedy, y);
    Apply(k, s, i + len, Bind(c, n, s[i..i + len]))
  }

  lemma {:induction false} ThenFound(k: Cont, s: string, i: nat, c: Captures, n: Option<nat>, lo: nat, top: nat,
                                     greedy: bool, j: nat, x: nat)
    requires lo <= top && i + top <= |s|
    requires j <= x <= top - lo
    requires forall y :: j <= y < x ==> TryThen(k, s, i, c, n, lo, top, greedy, y).None?
    requires TryThen(k, s, i, c, n, lo, top, greedy, x).Some?
    ensures SearchThen(k, s, i, c, n, lo, top, greedy, j) == TryThen(k, s, i, c, n, lo, top, greedy, x)
    decreases x - j
  {
    if j < x {
      assert TryThen(k, s, i, c, n, lo, top, greedy, j).None?;
      ThenFound(k, s, i, c, n, lo, top, greedy, j + 1, x);
    }
  }

  lemma {:induction false} ThenNone(k: Cont, s: string, i: nat, c: Captures, n: Option<nat>, lo: nat, top: nat,
                                    greedy: bool, j: nat)
    requires lo <= top && i + top <= |s|
    requires forall y :: j <= y <= top - lo ==> TryThen(k, s, i, c, n, lo, top, greedy, y).None?
    ensures SearchThen(k, s, i, c, n, lo, top, greedy, j) == None
    decreases top - lo + 1 - j
  {
    if j <= top - lo {
      assert TryThen(k, s, i, c, n, lo, top, greedy, j).None?;
      ThenNone(k, s, i, c, n, lo, top, greedy, j + 1);
    }
  }

  /**
   * A greedy repetition whose shorter candidates all fail: only the longest
   * candidate counts.
   */
  lemma LongestOnly(k: Cont, s: string, i: nat, c: Captures, n: Option<nat>, lo: nat, top: nat)
    requires lo <= top && i + top <= |s|
    requires forall y :: 1 <= y <= top - lo ==> TryThen(k, s, i, c, n, lo, top, true, y).None?
    ensures SearchThen(k, s, i, c, n, lo, top, true, 0) == TryThen(k, s, i, c, n, lo, top, true, 0)
  {
    if TryThen(k, s, i, c, n, lo, top, true, 0).Some? {
      ThenFound(k, s, i, c, n, lo, top, true, 0, 0);
    } else {
      forall y | 0 <= y <= top - lo ensures TryThen(k, s, i, c, n, lo, top, true, y).None? {
        if y == 0 {
          assert TryThen(k, s, i, c, n, lo, top, true, 0).None?;
        }
      }
      ThenNone(k, s, i, c, n, lo, top, true, 0);
    }
  }

  /** Closing a group after a repetition is binding the group as the repetition goes. */
  lemma {:induction false} SearchTagged(g: nat, k: Cont, s: string, i: nat, c: Captures, lo: nat, top: nat,
                                        greedy: bool, j: nat)
    requires lo <= top && i + top <= |s|
    ensures SearchThen(Tagged(g, i, k), s, i, c, None, lo, top, greedy, j) ==
            SearchThen(k, s, i, c, Some(g), lo, top, greedy, j)
    decreases top - lo + 1 - j
  {
    if j <= top - lo {
      SearchTagged(g, k, s, i, c, lo, top, greedy, j + 1);
    }
  }

  lemma GroupRepeatThen(g: nat, cls: CharClass, lo: nat, hi: Option<nat>, greedy: bool, s: string, i: nat,
                        c: Captures, k: Cont)
    requires i <= |s|
    ensures var top := Longest(s, i, cls, hi);
      FirstThen(Group(g, Repeat(cls, lo, hi, greedy)), s, i, c, k) ==
      if top < lo then None else SearchThen(k, s, i, c, Some(g), lo, top, greedy, 0)
  {
    var top := Longest(s, i, cls, hi);
    if lo <= top {
      SearchTagged(g, k, s, i, c, lo, top, greedy, 0);
    }
  }

  lemma RunPrefix(s: string, i: nat, cls: CharClass, n: nat)
    requires i <= |s| && RunLength(s, i, cls) >= n
    ensures i + n <= |s| && AllInClass(s[i..i + n], cls)
  {
    var v := s[i..i + n];
    forall x | 0 <= x < |v| ensures InClass(v[x], cls) {
      assert v[x] == s[i + x];
    }
  }

  lemma {:induction false} RunAtLeast(s: string, i: nat, cls: CharClass, n: nat)
    requires i + n <= |s|
    requires forall x :: i <= x < i + n ==> InClass(s[x], cls)
    ensures RunLength(s, i, cls) >= n
    decreases n
  {
    if n > 0 {
      RunAtLeast(s, i + 1, cls, n - 1);
    }
  }

  /** A fixed count of characters of a class: they must all be there. */
  lemma CountThen(cls: CharClass, n: nat, s: string, i: nat, c: Captures, k: Cont)
    requires i <= |s|
    ensures FirstThen(Count(cls, n), s, i, c, k) ==
      if i + n <= |s| && AllInClass(s[i..i + n], cls) then Apply(k, s, i + n, c) else None
  {
    var top := Longest(s, i, cls, Some(n));
    if top >= n {
      RunPrefix(s, i, cls, n);
    }
    if i + n <= |s| && AllInClass(s[i..i + n], cls) {
      forall x | i <= x < i + n ensures InClass(s[x], cls) {
        assert s[x] == s[i..i + n][x - i];
      }
      RunAtLeast(s, i, cls, n);
      assert top == n;
      assert SearchThen(k, s, i, c, None, n, n, true, 1) == None;
    }
  }

  /** A pattern that starts with a literal matches only text starting with it. */
  lemma PrefixNeeded(t: string, rest: Re, s: string)
    requires Submatch(Cat(Lit(t), rest), s).Some?
    ensures StartsWith(s, t)
  {
    CatLit(t, rest, s, 0, map[]);
  }

  /** Without the leading literal there is no match. */
  lemma PrefixMissing(t: string, rest: Re, s: string)
    requires !StartsWith(s, t)
    ensures Submatch(Cat(Lit(t), rest), s).None?
  {
    CatLit(t, rest, s, 0, map[]);
  }

  /** A literal, then `b`. */
  lemma LitCat(t: string, b: Re, s: string, i: nat, c: Captures, k: Cont)
    requires i <= |s|
    ensures FirstThen(Cat(Lit(t), b), s, i, c, k) ==
      if OccursAt(s, t, i) then FirstThen(b, s, i + |t|, c, k) else None
  {
    assert FirstThen(Cat(Lit(t), b), s, i, c, k) == FirstThen(Lit(t), s, i, c, Then(b, k));
    if OccursAt(s, t, i) {
      assert Apply(Then(b, k), s, i + |t|, c) == FirstThen(b, s, i + |t|, c, k);
    }
  }

  /** A fixed count of a class, then `b`. */
  lemma CountCat(cls: CharClass, n: nat, b: Re, s: string, i: nat, c: Captures, k: Cont)
    requires i <= |s|
    ensures FirstThen(Cat(Count(cls, n), b), s, i, c, k) ==
      if i + n <= |s| && AllInClass(s[i..i + n], cls) then FirstThen(b, s, i + n, c, k) else None
  {
    CountThen(cls, n, s, i, c, Then(b, k));
  }

  /**
   * A greedy run of class `cls` (at least `lo` long) followed by `b`, when `b`
   * fails after every shorter run: only the whole run counts.
   */
  lemma GreedyCat(cls: CharClass, lo: nat, b: Re, s: string, i: nat, c: Captures, k: Cont)
    requires i <= |s|
    requires forall x :: i + lo <= x < i + RunLength(s, i, cls) ==> FirstThen(b, s, x, c, k).None?
    ensures FirstThen(Cat(Repeat(cls, lo, None, true), b), s, i, c, k) ==
      if RunLength(s, i, cls) < lo then None else FirstThen(b, s, i + RunLength(s, i, cls), c, k)
  {
    var top := Longest(s, i, cls, None);
    var after := Then(b, k);
    if lo <= top {
      forall y | 1 <= y <= top - lo ensures TryThen(after, s, i, c, None, lo, top, true, y).None? {
        assert FirstThen(b, s, i + Candidate(lo, top, true, y), c, k).None?;
      }
      LongestOnly(after, s, i, c, None, lo, top);
      assert Candidate(lo, top, true, 0) == top;
    }
  }

  /** The same, with the run captured as group `g`. */
  lemma GreedyGroupCat(g: nat, cls: CharClass, lo: nat, b: Re, s: string, i: nat, c: Captures, k: Cont)
    requires i <= |s|
    requires forall x :: i + lo <= x < i + RunLength(s, i, cls) ==> FirstThen(b, s, x, c[g := s[i..x]], k).None?
    ensures FirstThen(Cat(Group(g, Repeat(cls, lo, None, true)), b), s, i, c, k) ==
      if RunLength(s, i, cls) < lo then None
      else FirstThen(b, s, i + RunLength(s, i, cls), c[g := s[i..i + RunLength(s, i, cls)]], k)
  {
    var top := Longest(s, i, cls, None);
    var after := Then(b, k);
    GroupRepeatThen(g, cls, lo, None, true, s, i, c, after);
    if lo <= top {
      forall y | 1 <= y <= top - lo ensures TryThen(after, s, i, c, Some(g), lo, top, true, y).None? {
        var x := i + Candidate(lo, top, true, y);
        assert FirstThen(b, s, x, c[g := s[i..x]], k).None?;
      }
      LongestOnly(after, s, i, c, Some(g), lo, top);
      assert Candidate(lo, top, true, 0) == top;
    }
  }

  /**
   * A lazy capture of class `cls` as group `g`, then `b`: the shortest capture
   * after which `b` matches.
   */
  /** The `y`-th try of a lazy capture from `i` binds the group to the first `y` characters. */
  lemma LazyTry(g: nat, b: Re, s: string, i: nat, c: Captures, k: Cont, top: nat, y: nat)
    requires i + top <= |s| && y <= top
    ensures TryThen(Then(b, k), s, i, c, Some(g), 0, top, false, y) == FirstThen(b, s, i + y, c[g := s[i..i + y]], k)
  {
    assert Candidate(0, top, false, y) == y;
  }

  lemma LazyGroupFound(g: nat, cls: CharClass, b: Re, s: string, i: nat, c: Captures, k: Cont, x: nat)
    requires i <= |s| && i <= x <= i + RunLength(s, i, cls)
    requires forall z :: i <= z < x ==> FirstThen(b, s, z, c[g := s[i..z]], k).None?
    requires FirstThen(b, s, x, c[g := s[i..x]], k).Some?
    ensures FirstThen(Cat(Group(g, Repeat(cls, 0, None, false)), b), s, i, c, k) ==
            FirstThen(b, s, x, c[g := s[i..x]], k)
  {
    var top := Longest(s, i, cls, None);
    var after := Then(b, k);
    assert top == RunLength(s, i, cls);
    forall y | 0 <= y < x - i ensures TryThen(after, s, i, c, Some(g), 0, top, false, y).None? {
      LazyTry(g, b, s, i, c, k, top, y);
      assert FirstThen(b, s, i + y, c[g := s[i..i + y]], k).None?;
    }
    var d := x - i;
    LazyTry(g, b, s, i, c, k, top, d);
    calc {
      FirstThen(Cat(Group(g, Repeat(cls, 0, None, false)), b), s, i, c, k);
      FirstThen(Group(g, Repeat(cls, 0, None, false)), s, i, c, after);
      { GroupRepeatThen(g, cls, 0, None, false, s, i, c, after); }
      SearchThen(after, s, i, c, Some(g), 0, top, false, 0);
      { ThenFound(after, s, i, c, Some(g), 0, top, false, 0, d); }
      TryThen(after, s, i, c, Some(g), 0, top, false, d);
    }
  }

  lemma LazyGroupNone(g: nat, cls: CharClass, b: Re, s: string, i: nat, c: Captures, k: Cont)
    requires i <= |s|
    requires forall z :: i <= z <= i + RunLength(s, i, cls) ==> FirstThen(b, s, z, c[g := s[i..z]], k).None?
    ensures FirstThen(Cat(Group(g, Repeat(cls, 0, None, false)), b), s, i, c, k) == None
  {
    var top := Longest(s, i, cls, None);
    var after := Then(b, k);
    GroupRepeatThen(g, cls, 0, None, false, s, i, c, after);
    forall y | 0 <= y <= top ensures TryThen(after, s, i, c, Some(g), 0, top, false, y).None? {
      assert Candidate(0, top, false, y) == y;
      assert FirstThen(b, s, i + y, c[g := s[i..i + y]], k).None?;
    }
    ThenNone(after, s, i, c, Some(g), 0, top, false, 0);
  }

  /**
   * A pattern that ends in a lazy group `(k*?)`: the group always captures the
   * empty string, and the rest of the match is the first match of the head.
   */
  lemma LazyTail(h: Re, g: nat, cls: CharClass, s: string, i: nat, c: Captures)
    requires i <= |s|
    ensures var first := FirstHit(h, s, i, c);
      FirstHit(Cat(h, Group(g, LazyStar(cls))), s, i, c) ==
      if first.None? then None else Some(Hit(first.value.end, first.value.caps[g := ""]))
  {
    var t := Group(g, LazyStar(cls));
    var k := Then(t, Done(Accept()));
    var hits := Ends(h, s, i, c);
    calc {
      FirstHit(Cat(h, t), s, i, c);
      { FirstHitThen(Cat(h, t), s, i, c); }
      FirstThen(Cat(h, t), s, i, c, Done(Accept()));
      FirstThen(h, s, i, c, k);
      { FirstThenEnds(h, s, i, c, k); }
      FirstAfter(Resumer(k, s), hits);
    }
    FirstHitIsFirst(h, s, i, c);
    if hits != [] {
      assert hits[0] in hits;
      LazyResume(g, cls, s, hits[0].end, hits[0].caps);
    }
  }

  /** A lazy star in a trailing group matches the empty text wherever it starts. */
  lemma LazyResume(g: nat, cls: CharClass, s: string, x: nat, c: Captures)
    requires x <= |s|
    ensures Resumer(Then(Group(g, LazyStar(cls)), Done(Accept())), s)(x, c) == Some(Hit(x, c[g := ""]))
  {
    GroupRepeatThen(g, cls, 0, None, false, s, x, c, Done(Accept()));
    assert Candidate(0, Longest(s, x, cls, None), false, 0) == 0;
    assert s[x..x] == "";
  }


  /** `FindAll` of such a pattern: the matches of its head, each with the group empty. */
  lemma {:induction false} FindAllTail(h: Re, g: nat, cls: CharClass, s: string, from: nat)
    requires MinLength(h) >= 1 && from <= |s|
    ensures var all := FindAll(Cat(h, Group(g, LazyStar(cls))), s, from);
      |all| == |FindAll(h, s, from)| &&
      forall j :: 0 <= j < |all| ==> all[j] == FindAll(h, s, from)[j][g := ""]
    decreases |s| - from
  {
    var r := Cat(h, Group(g, LazyStar(cls)));
    var hits := Ends(h, s, from, map[]);
    var tails := Ends(r, s, from, map[]);
    LazyTail(h, g, cls, s, from, map[]);
    assert FirstHit(h, s, from, map[]) == First(hits);
    assert FirstHit(r, s, from, map[]) == First(tails);
    if hits != [] {
      FindAllTail(h, g, cls, s, tails[0].end);
    } else if from < |s| {
      FindAllTail(h, g, cls, s, from + 1);
    }
  }

  /** Every match `FindAll` reports obeys the pattern's groups. */
  lemma {:induction false} FindAllCaptures(r: Re, s: string, from: nat)
    requires MinLength(r) >= 1 && from <= |s|
    ensures forall m, n | m in FindAll(r, s, from) && Binding(r, n) :: n in m
    ensures forall m, n | m in FindAll(r, s, from) && n in m :: Binds(r, n, m[n])
    decreases |s| - from
  {
    var hits := Ends(r, s, from, map[]);
    if hits != [] {
      assert hits[0] in hits;
      HitCaptures(r, s, from, map[], hits[0]);
      FindAllCaptures(r, s, hits[0].end);
    } else if from < |s| {
      FindAllCaptures(r, s, from + 1);
    }
  }

  /** A group every match takes part in, declared once: in each `FindAll` match its body admits the capture. */
  lemma FindAllOwned(r: Re, s: string, n: nat)
    requires MinLength(r) >= 1 && Binding(r, n) && Owner(r, n).Some?
    ensures forall m | m in FindAll(r, s, 0) :: n in m && Spells(Owner(r, n).value, m[n])
  {
    FindAllCaptures(r, s, 0);
    forall m | m in FindAll(r, s, 0) ensures n in m && Spells(Owner(r, n).value, m[n]) {
      OwnerSpells(r, n, m[n]);
    }
  }

  /** An alternation of literals, tried in order. */
  function AltOf(ts: seq<string>): Re
    requires |ts| >= 1
    decreases |ts|
  {
    if |ts| == 1 then Lit(ts[0]) else Alt(Lit(ts[0]), AltOf(ts[1..]))
  }

  /** Literals of one length, no two alike: at most one fits, and then `k` decides. */
  lemma {:induction false} AltOfThen(ts: seq<string>, len: nat, s: string, i: nat, c: Captures, k: Cont)
    requires |ts| >= 1 && i <= |s|
    requires forall j :: 0 <= j < |ts| ==> |ts[j]| == len
    ensures FirstThen(AltOf(ts), s, i, c, k) ==
      if exists j :: 0 <= j < |ts| && OccursAt(s, ts[j], i) then Apply(k, s, i + len, c) else None
    decreases |ts|
  {
    if |ts| > 1 {
      AltOfThen(ts[1..], len, s, i, c, k);
      if exists j :: 0 <= j < |ts| && OccursAt(s, ts[j], i) {
        var j :| 0 <= j < |ts| && OccursAt(s, ts[j], i);
        if j > 0 {
          assert OccursAt(s, ts[1..][j - 1], i);
        }
      } else {
        assert forall j :: 0 <= j < |ts| - 1 ==> ts[1..][j] == ts[j + 1];
      }
    }
  }
}
