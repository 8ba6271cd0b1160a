/**
 * Values shared by every part of the model: optional and failing results, and
 * the handful of string routines of Go's standard library that the log viewer
 * relies on (substring search, strings.Replace, strings.Split,
 * strconv.ParseInt with bit size 32 and strconv.FormatInt).
 */
module Text {

  datatype Option<+T> = None | Some(value: T)

  /** `Err` stands for a `log.Fatalf` of the source: the whole process stops. */
  datatype Result<+T> = Ok(value: T) | Err(message: string)

  const Int32Min: int := -0x8000_0000
  const Int32Max: int := 0x7FFF_FFFF

  predicate OccursAt(s: string, pat: string, i: nat) {
    i + |pat| <= |s| && s[i..i + |pat|] == pat
  }

  predicate StartsWith(s: string, prefix: string) {
    OccursAt(s, prefix, 0)
  }

  /** Index of the first occurrence of `pat` in `s` at or after `from` (strings.Index). */
  function IndexFrom(s: string, pat: string, from: nat): (r: Option<nat>)
    ensures r.Some? ==> from <= r.value && OccursAt(s, pat, r.value)
    ensures r.Some? ==> forall j :: from <= j < r.value ==> !OccursAt(s, pat, j)
    ensures r.None? ==> forall j :: from <= j ==> !OccursAt(s, pat, j)
    decreases |s| - from
  {
    if from + |pat| > |s| then None
    else if OccursAt(s, pat, from) then Some(from)
    else IndexFrom(s, pat, from + 1)
  }

  function Index(s: string, pat: string): (r: Option<nat>)
    ensures r.Some? ==> OccursAt(s, pat, r.value) && forall j :: 0 <= j < r.value ==> !OccursAt(s, pat, j)
    ensures r.None? ==> forall j :: !OccursAt(s, pat, j)
  {
    IndexFrom(s, pat, 0)
  }

  // ---------------------------------------------------------------------------
  // strings.Replace(s, old, new, -1)

  /** Replaces every non-overlapping occurrence of `target`, scanning left to right. */
  function ReplaceAll(s: string, target: string, replacement: string): (r: string)
    requires target != []
    ensures (forall j :: !OccursAt(s, target, j)) ==> r == s
    decreases |s|
  {
    match Index(s, target)
    case None => s
    case Some(k) => s[..k] + replacement + ReplaceAll(s[k + |target|..], target, replacement)
  }

  lemma NoOccurrenceInPrefix(s: string, pat: string, k: nat)
    requires pat != [] && k <= |s|
    requires forall j :: 0 <= j < k ==> !OccursAt(s, pat, j)
    ensures forall j :: !OccursAt(s[..k], pat, j)
  {
    forall j: nat
      ensures !OccursAt(s[..k], pat, j)
    {
      if j + |pat| <= k {
        assert s[..k][j..j + |pat|] == s[j..j + |pat|];
        assert !OccursAt(s, pat, j);
      }
    }
  }

  /**
   * Gluing two texts free of `pat` around a character that `pat` does not
   * contain cannot create an occurrence of `pat`.
   */
  lemma NoOccurrenceAcrossSeparator(a: string, c: char, b: string, pat: string)
    requires c !in pat
    requires forall j :: !OccursAt(a, pat, j)
    requires forall j :: !OccursAt(b, pat, j)
    ensures forall j :: !OccursAt(a + [c] + b, pat, j)
  {
    var t := a + [c] + b;
    forall j: nat
      ensures !OccursAt(t, pat, j)
    {
      if j + |pat| > |t| {
      } else if j + |pat| <= |a| {
        assert t[j..j + |pat|] == a[j..j + |pat|];
        assert !OccursAt(a, pat, j);
      } else if j > |a| {
        assert t[j..j + |pat|] == b[j - |a| - 1..j - |a| - 1 + |pat|];
        assert !OccursAt(b, pat, j - |a| - 1);
      } else {
        assert t[|a|] == c;
        assert pat[|a| - j] in pat;
        assert t[j..j + |pat|][|a| - j] == t[|a|];
      }
    }
  }

  /** The store-context rewrite of bigcommerce-app.go leaves no "NULL" behind. */
  lemma {:induction false} ReplaceNullLeavesNone(s: string)
    ensures forall j :: !OccursAt(ReplaceAll(s, "NULL", "0"), "NULL", j)
    decreases |s|
  {
    match Index(s, "NULL")
    case None =>
    case Some(k) =>
      var rest := s[k + 4..];
      ReplaceNullLeavesNone(rest);
      NoOccurrenceInPrefix(s, "NULL", k);
      assert '0' !in "NULL";
      NoOccurrenceAcrossSeparator(s[..k], '0', ReplaceAll(rest, "NULL", "0"), "NULL");
      assert ReplaceAll(s, "NULL", "0") == s[..k] + ['0'] + ReplaceAll(rest, "NULL", "0");
  }

  // ---------------------------------------------------------------------------
  // strings.Split(s, " ") and its inverse strings.Join(parts, " ")

  function Split(s: string): (parts: seq<string>)
    ensures |parts| >= 1
    ensures forall p | p in parts :: ' ' !in p
    decreases |s|
  {
    match Index(s, " ")
    case None =>
      assert forall j | 0 <= j < |s| :: s[j] != ' ' by {
        forall j | 0 <= j < |s| ensures s[j] != ' ' { assert !OccursAt(s, " ", j); }
      }
      [s]
    case Some(k) =>
      assert forall j | 0 <= j < k :: s[j] != ' ' by {
        forall j | 0 <= j < k ensures s[j] != ' ' { assert !OccursAt(s, " ", j); }
      }
      [s[..k]] + Split(s[k + 1..])
  }

  function Join(parts: seq<string>): string
    requires |parts| >= 1
  {
    if |parts| == 1 then parts[0] else parts[0] + " " + Join(parts[1..])
  }

  lemma {:induction false} JoinSplit(s: string)
    ensures Join(Split(s)) == s
    decreases |s|
  {
    match Index(s, " ")
    case None =>
    case Some(k) =>
      JoinSplit(s[k + 1..]);
      assert s == s[..k] + " " + s[k + 1..];
  }

  lemma {:induction false} SplitJoin(parts: seq<string>)
    requires |parts| >= 1
    requires forall p | p in parts :: ' ' !in p
    ensures Split(Join(parts)) == parts
    decreases |parts|
  {
    var p := parts[0];
    assert p in parts;
    if |parts| == 1 {
      NoSpace(p);
    } else {
      var rest := Join(parts[1..]);
      var s := p + " " + rest;
      SpaceAfterWord(p, rest);
      assert s[..|p|] == p && s[|p| + 1..] == rest;
      SplitJoin(parts[1..]);
    }
  }

  /** A word without a space has no space to split at. */
  lemma NoSpace(p: string)
    requires ' ' !in p
    ensures Index(p, " ") == None
  {
    forall j: nat ensures !OccursAt(p, " ", j) {
      if j < |p| {
        assert p[j..j + 1][0] == p[j] && p[j] in p;
      }
    }
  }

  /** The first space of a word, a space and the rest is the one after the word. */
  lemma SpaceAfterWord(p: string, rest: string)
    requires ' ' !in p
    ensures Index(p + " " + rest, " ") == Some(|p|)
  {
    var s := p + " " + rest;
    assert s[..|p|] == p;
    forall j: nat | j < |p| ensures !OccursAt(s, " ", j) {
      assert s[j..j + 1][0] == s[j] == s[..|p|][j] && p[j] in p;
    }
    assert s[|p|..|p| + 1] == " ";
    assert OccursAt(s, " ", |p|);
    var r := Index(s, " ");
    assert r.Some? && r.value <= |p|;
  }

  // ---------------------------------------------------------------------------
  // Decimal numbers: strconv.ParseInt(s, 10, 32) and strconv.FormatInt(n, 10)

  predicate IsDigit(c: char) { '0' <= c <= '9' }

  predicate IsDigits(s: string) {
    |s| > 0 && forall i :: 0 <= i < |s| ==> IsDigit(s[i])
  }

  function DigitValue(c: char): nat
    requires IsDigit(c)
  {
    c as int - '0' as int
  }

  function DigitChar(d: nat): (c: char)
    requires d < 10
    ensures IsDigit(c) && DigitValue(c) == d
  {
    ('0' as int + d) as char
  }

  /** The value of a string of decimal digits, most significant first. */
  function DecimalValue(s: string): nat
    requires forall i :: 0 <= i < |s| ==> IsDigit(s[i])
  {
    if s == [] then 0 else DecimalValue(s[..|s| - 1]) * 10 + DigitValue(s[|s| - 1])
  }

  /** The values of `rs` in order, or the first error among them. */
  function Collect<T>(rs: seq<Result<T>>): Result<seq<T>>
    decreases |rs|
  {
    if rs == [] then Ok([])
    else
      var before := Collect(rs[..|rs| - 1]);
      var last := rs[|rs| - 1];
      if before.Err? then before
      else if last.Err? then Err(last.message)
      else Ok(before.value + [last.value])
  }

  /** Collecting succeeds exactly when every result does, keeping each value in place. */
  lemma {:induction false} CollectEach<T>(rs: seq<Result<T>>)
    ensures Collect(rs).Ok? <==> forall j :: 0 <= j < |rs| ==> rs[j].Ok?
    ensures Collect(rs).Ok? ==>
      |Collect(rs).value| == |rs| && forall j :: 0 <= j < |rs| ==> Collect(rs).value[j] == rs[j].value
    decreases |rs|
  {
    if rs != [] {
      var front := rs[..|rs| - 1];
      CollectEach(front);
      assert forall j :: 0 <= j < |front| ==> front[j] == rs[j];
    }
  }

  /** One more successful result extends the collected values. */
  lemma CollectSnoc<T>(rs: seq<Result<T>>, i: nat, done: seq<T>)
    requires i < |rs| && Collect(rs[..i]) == Ok(done) && rs[i].Ok?
    ensures Collect(rs[..i + 1]) == Ok(done + [rs[i].value])
  {
    assert rs[..i + 1][..i] == rs[..i];
  }

  /** The first error decides, whatever follows it. */
  lemma {:induction false} CollectFirstError<T>(rs: seq<Result<T>>, k: nat)
    requires 1 <= k <= |rs| && Collect(rs[..k - 1]).Ok? && rs[k - 1].Err?
    ensures Collect(rs) == Err(rs[k - 1].message)
    decreases |rs|
  {
    if k < |rs| {
      var front := rs[..|rs| - 1];
      assert front[..k - 1] == rs[..k - 1];
      assert front[k - 1] == rs[k - 1];
      CollectFirstError(front, k);
    } else {
      assert rs[..|rs| - 1] == rs[..k - 1];
    }
  }

  /** `s` is a decimal numeral without sign that strconv.ParseInt(s, 10, 32) accepts. */
  predicate FitsInt32(s: string) {
    IsDigits(s) && DecimalValue(s) <= Int32Max
  }

  /**
   * strconv.ParseInt(s, 10, 32): an optional sign and at least one digit whose
   * value fits in 32 bits; anything else is an error.
   */
  function ParseInt32(s: string): (r: Option<int>)
    ensures r.Some? ==> Int32Min <= r.value <= Int32Max
    ensures IsDigits(s) && DecimalValue(s) <= Int32Max ==> r == Some(DecimalValue(s))
    ensures IsDigits(s) && DecimalValue(s) > Int32Max ==> r == None
    ensures s == [] ==> r == None
  {
    if s == [] then None
    else
      var neg := s[0] == '-';
      var digits := if s[0] == '-' || s[0] == '+' then s[1..] else s;
      if !IsDigits(digits) then None
      else
        var v: int := DecimalValue(digits);
        if neg then (if v <= -Int32Min then Some(-v) else None)
        else (if v <= Int32Max then Some(v) else None)
  }

  /** `s` is `sign` ("", "+" or "-") followed by the decimal digits `digits`. */
  predicate SignedNumeral(s: string, sign: string, digits: string) {
    s == sign + digits && sign in {"", "+", "-"} && IsDigits(digits)
  }

  /** The value a sign and a string of decimal digits denote. */
  function SignedValue(sign: string, digits: string): int
    requires IsDigits(digits)
  {
    var v: int := DecimalValue(digits);
    if sign == "-" then -v else v
  }

  /** `s` is an optionally signed decimal numeral whose value fits in 32 bits. */
  ghost predicate IsInt32Numeral(s: string) {
    exists sign, digits :: SignedNumeral(s, sign, digits) && Int32Min <= SignedValue(sign, digits) <= Int32Max
  }

  /** A signed numeral is parsed to its value when that fits in 32 bits, and rejected otherwise. */
  lemma NumeralParse(s: string, sign: string, digits: string)
    requires SignedNumeral(s, sign, digits)
    ensures ParseInt32(s) ==
      if Int32Min <= SignedValue(sign, digits) <= Int32Max then Some(SignedValue(sign, digits)) else None
  {
    if sign == "" {
      assert s == digits && IsDigit(s[0]);
      assert s[0] != '-' && s[0] != '+';
    } else {
      assert s[0] == sign[0] && s[1..] == digits;
    }
  }

  /**
   * strconv.ParseInt(s, 10, 32) succeeds exactly on an optionally signed
   * numeral that fits in 32 bits, and then gives the numeral's signed value.
   */
  lemma ParseInt32Numeral(s: string)
    ensures ParseInt32(s).Some? <==> IsInt32Numeral(s)
    ensures forall sign, digits | SignedNumeral(s, sign, digits) && Int32Min <= SignedValue(sign, digits) <= Int32Max ::
      ParseInt32(s) == Some(SignedValue(sign, digits))
  {
    forall sign, digits | SignedNumeral(s, sign, digits)
      ensures ParseInt32(s) ==
        if Int32Min <= SignedValue(sign, digits) <= Int32Max then Some(SignedValue(sign, digits)) else None
    {
      NumeralParse(s, sign, digits);
    }
    if ParseInt32(s).Some? {
      var sign := if s[0] == '-' || s[0] == '+' then [s[0]] else "";
      var digits := s[|sign|..];
      assert s == sign + digits;
      assert SignedNumeral(s, sign, digits);
    }
  }

  /** Decimal digits of a natural number, without leading zeros. */
  function FormatNat(n: nat): (s: string)
    ensures IsDigits(s)
  {
    if n < 10 then [DigitChar(n)] else FormatNat(n / 10) + [DigitChar(n % 10)]
  }

  /** strconv.FormatInt(n, 10): digits, preceded by '-' for a negative number. */
  function FormatInt(n: int): (r: string)
    ensures n >= 0 ==> IsDigits(r)
    ensures n < 0 ==> |r| >= 2 && r[0] == '-' && IsDigits(r[1..])
  {
    if n < 0 then "-" + FormatNat(-n) else FormatNat(n)
  }

  lemma {:induction false} FormatNatValue(n: nat)
    ensures DecimalValue(FormatNat(n)) == n
  {
    if n >= 10 {
      FormatNatValue(n / 10);
      var s := FormatNat(n);
      assert s[..|s| - 1] == FormatNat(n / 10);
    }
  }

  /** Formatting and parsing a 32-bit integer in decimal give back the integer. */
  lemma FormatIntRoundTrip(n: int)
    requires Int32Min <= n <= Int32Max
    ensures ParseInt32(FormatInt(n)) == Some(n)
  {
    if n < 0 {
      FormatNatValue(-n);
      var s := FormatInt(n);
      assert s[0] == '-' && s[1..] == FormatNat(-n);
    } else {
      FormatNatValue(n);
    }
  }

  /** Distinct integers have distinct decimal forms. */
  lemma FormatIntInjective(m: int, n: int)
    requires Int32Min <= m <= Int32Max && Int32Min <= n <= Int32Max
    requires FormatInt(m) == FormatInt(n)
    ensures m == n
  {
    FormatIntRoundTrip(m);
    FormatIntRoundTrip(n);
  }
}
