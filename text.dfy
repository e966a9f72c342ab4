// The parts of Go's `strings` and `strconv` packages that the reconciler
// relies on, stated over Dafny strings (sequences of code points).

module Text {

  datatype Option<+T> = None | Some(value: T)

  datatype Result<+T, +E> = Ok(value: T) | Err(error: E)

  /** Lower-casing of one character: ASCII A-Z and the German umlauts. */
  function LowerChar(c: char): char
  {
    if 'A' <= c <= 'Z' then (c as int + 32) as char
    else if c == 'Ä' then 'ä'
    else if c == 'Ö' then 'ö'
    else if c == 'Ü' then 'ü'
    else c
  }

  predicate IsUpper(c: char)
  {
    'A' <= c <= 'Z' || c == 'Ä' || c == 'Ö' || c == 'Ü'
  }

  /** strings.ToLower, character by character. */
  function ToLower(s: string): (r: string)
    ensures |r| == |s|
  {
    seq(|s|, i requires 0 <= i < |s| => LowerChar(s[i]))
  }

  lemma ToLowerHasNoUpper(s: string)
    ensures forall i :: 0 <= i < |s| ==> !IsUpper(ToLower(s)[i])
  {
  }

  lemma ToLowerIdempotent(s: string)
    ensures ToLower(ToLower(s)) == ToLower(s)
  {
  }

  /** `pat` occurs in `s` at position `i`. */
  predicate OccursAt(s: string, pat: string, i: int)
  {
    0 <= i && i + |pat| <= |s| && s[i..i + |pat|] == pat
  }

  ghost predicate NoOccurrence(s: string, pat: string)
  {
    forall i :: !OccursAt(s, pat, i)
  }

  /** strings.Contains: some position holds an occurrence (the empty pattern is everywhere). */
  predicate Contains(s: string, sub: string)
  {
    exists i | 0 <= i <= |s| - |sub| :: OccursAt(s, sub, i)
  }

  /**
   * strings.ReplaceAll: leftmost, non-overlapping replacement. An empty
   * pattern matches before every character and at the end, as in Go.
   */
  function ReplaceAll(s: string, pat: string, rep: string): string
    decreases |s|
  {
    if pat == [] then
      if s == [] then rep else rep + [s[0]] + ReplaceAll(s[1..], pat, rep)
    else if |s| < |pat| then s
    else if s[..|pat|] == pat then rep + ReplaceAll(s[|pat|..], pat, rep)
    else [s[0]] + ReplaceAll(s[1..], pat, rep)
  }

  lemma NoOccurrenceTail(s: string, pat: string)
    requires s != [] && NoOccurrence(s, pat)
    ensures NoOccurrence(s[1..], pat)
  {
    forall i | OccursAt(s[1..], pat, i) ensures false {
      assert s[1..][i..i + |pat|] == s[i + 1..i + 1 + |pat|];
      assert OccursAt(s, pat, i + 1);
    }
  }

  /** A non-empty pattern that does not occur leaves the string as it is. */
  lemma {:induction false} ReplaceAllAbsent(s: string, pat: string, rep: string)
    requires pat != []
    requires NoOccurrence(s, pat)
    ensures ReplaceAll(s, pat, rep) == s
  {
    if |s| >= |pat| {
      assert !OccursAt(s, pat, 0);
      assert s[..|pat|] != pat;
      NoOccurrenceTail(s, pat);
      ReplaceAllAbsent(s[1..], pat, rep);
    }
  }

  /** A character of the pattern missing from the string rules out every occurrence. */
  lemma MissingCharNoOccurrence(s: string, pat: string, c: char)
    requires c in pat && c !in s
    ensures NoOccurrence(s, pat)
  {
  }

  /** Convenience form of ReplaceAllAbsent for concrete strings. */
  lemma ReplaceAllMissingChar(s: string, pat: string, rep: string, c: char)
    requires c in pat && c !in s
    ensures ReplaceAll(s, pat, rep) == s
  {
    MissingCharNoOccurrence(s, pat, c);
    ReplaceAllAbsent(s, pat, rep);
  }

  lemma ReplaceAllAt(pat: string, b: string, rep: string)
    requires pat != []
    ensures ReplaceAll(pat + b, pat, rep) == rep + ReplaceAll(b, pat, rep)
  {
    var s := pat + b;
    assert s[..|pat|] == pat && s[|pat|..] == b;
  }

  lemma ReplaceAllCopy(s: string, pat: string, rep: string)
    requires pat != [] && |s| >= |pat| && !OccursAt(s, pat, 0)
    ensures ReplaceAll(s, pat, rep) == [s[0]] + ReplaceAll(s[1..], pat, rep)
  {
    assert s[..|pat|] != pat;
  }

  /**
   * Characters before the first occurrence are copied and the occurrence is
   * replaced; "first" means no occurrence starts inside `a`, that is, none
   * lies within `a` followed by all but the last character of `pat`.
   */
  lemma {:induction false} ReplaceAllFirst(a: string, pat: string, b: string, rep: string)
    requires pat != []
    requires NoOccurrence(a + pat[..|pat| - 1], pat)
    ensures ReplaceAll(a + pat + b, pat, rep) == a + rep + ReplaceAll(b, pat, rep)
  {
    if a == [] {
      assert a + pat + b == pat + b;
      ReplaceAllAt(pat, b, rep);
    } else {
      var s := a + pat + b;
      var t := a + pat[..|pat| - 1];
      assert s[..|pat|] == t[..|pat|];
      assert !OccursAt(t, pat, 0);
      assert a[1..] + pat[..|pat| - 1] == t[1..];
      NoOccurrenceTail(t, pat);
      var r := ReplaceAll(b, pat, rep);
      calc {
        ReplaceAll(s, pat, rep);
      == { ReplaceAllCopy(s, pat, rep); }
        [s[0]] + ReplaceAll(s[1..], pat, rep);
      == { assert s[1..] == a[1..] + pat + b; ReplaceAllFirst(a[1..], pat, b, rep); }
        [s[0]] + (a[1..] + rep + r);
      == { assert [s[0]] + a[1..] == a; }
        a + rep + r;
      }
    }
  }

  /** ReplaceAllFirst when the copied prefix lacks a character of the pattern. */
  lemma ReplaceAllFirstMissingChar(a: string, pat: string, b: string, rep: string, c: char)
    requires c in pat && c !in a + pat[..|pat| - 1]
    ensures ReplaceAll(a + pat + b, pat, rep) == a + rep + ReplaceAll(b, pat, rep)
  {
    MissingCharNoOccurrence(a + pat[..|pat| - 1], pat, c);
    ReplaceAllFirst(a, pat, b, rep);
  }

  /** The text before the first `sep`; all of `s` when there is none (strings.Split(s, sep)[0]). */
  function BeforeFirst(s: string, sep: char): (r: string)
    ensures |r| <= |s| && r == s[..|r|]
    ensures sep !in r
    ensures |r| < |s| ==> s[|r|] == sep
  {
    if s == [] || s[0] == sep then []
    else [s[0]] + BeforeFirst(s[1..], sep)
  }

  lemma BeforeFirstAll(s: string, sep: char)
    requires sep !in s
    ensures BeforeFirst(s, sep) == s
  {
  }

  // Decimal numbers (strconv.Itoa and strconv.Atoi on unsigned digit runs).

  predicate IsDigit(c: char)
  {
    '0' <= c <= '9'
  }

  predicate IsDigits(s: string)
  {
    forall i :: 0 <= i < |s| ==> IsDigit(s[i])
  }

  function DigitChar(d: nat): (c: char)
    requires d < 10
    ensures IsDigit(c)
  {
    ('0' as int + d) as char
  }

  function DigitValue(c: char): (d: nat)
    requires IsDigit(c)
    ensures d < 10 && DigitChar(d) == c
  {
    c as int - '0' as int
  }

  /** strconv.Itoa for a non-negative value. */
  function Itoa(n: nat): (r: string)
    ensures r != [] && IsDigits(r)
  {
    if n < 10 then [DigitChar(n)] else Itoa(n / 10) + [DigitChar(n % 10)]
  }

  /** The value of a run of decimal digits (Atoi before its range check). */
  function DecimalValue(s: string): nat
    requires IsDigits(s)
  {
    if s == [] then 0 else 10 * DecimalValue(s[..|s| - 1]) + DigitValue(s[|s| - 1])
  }

  lemma {:induction false} DecimalValueOfItoa(n: nat)
    ensures DecimalValue(Itoa(n)) == n
  {
    if n >= 10 {
      var s := Itoa(n);
      assert s[..|s| - 1] == Itoa(n / 10);
      DecimalValueOfItoa(n / 10);
    }
  }

  /** Go's `int` is 64 bits wide here: Atoi rejects values above this. */
  const MaxInt: nat := 0x7FFF_FFFF_FFFF_FFFF

  /** strconv.Atoi on a non-empty run of digits: the value, or an out-of-range error. */
  function Atoi(s: string): Option<nat>
    requires IsDigits(s)
  {
    var v := DecimalValue(s);
    if v <= MaxInt then Some(v) else None
  }

  function Pow10(n: nat): (p: nat)
    ensures p >= 1
  {
    if n == 0 then 1 else 10 * Pow10(n - 1)
  }

  /** A digit run without a leading zero is at least 10^(length-1) and below 10^length. */
  lemma {:induction false} DecimalValueBounds(s: string)
    requires IsDigits(s) && |s| >= 1 && s[0] != '0'
    ensures Pow10(|s| - 1) <= DecimalValue(s) < Pow10(|s|)
  {
    if |s| > 1 {
      var init := s[..|s| - 1];
      assert init[0] == s[0];
      DecimalValueBounds(init);
    }
  }

  /** Any digit run is below 10^length, leading zeros or not. */
  lemma {:induction false} DecimalValueBelow(s: string)
    requires IsDigits(s)
    ensures DecimalValue(s) < Pow10(|s|)
  {
    if s != [] {
      DecimalValueBelow(s[..|s| - 1]);
    }
  }

  /** Atoi reads back the decimal text of every n in range, and rejects the text of every n beyond it. */
  lemma AtoiItoa(n: nat)
    ensures Atoi(Itoa(n)) == if n <= MaxInt then Some(n) else None
  {
    DecimalValueOfItoa(n);
  }

  /**
   * The range check by length: runs of at most 18 digits always fit in 63
   * bits, runs of 20 or more digits without a leading zero never do.
   */
  lemma AtoiByLength(s: string)
    requires IsDigits(s)
    ensures |s| <= 18 ==> Atoi(s) == Some(DecimalValue(s))
    ensures |s| >= 20 && s[0] != '0' ==> Atoi(s) == None
  {
    DecimalValueBelow(s);
    if |s| <= 18 {
      Pow10Mono(|s|, 18);
      assert Pow10(18) == 1_000_000_000_000_000_000 by {
        Pow10Value18();
      }
    }
    if |s| >= 20 && s[0] != '0' {
      DecimalValueBounds(s);
      Pow10Mono(19, |s| - 1);
      Pow10Value18();
    }
  }

  lemma {:induction false} Pow10Mono(a: nat, b: nat)
    requires a <= b
    ensures Pow10(a) <= Pow10(b)
  {
    if a < b {
      Pow10Mono(a, b - 1);
    }
  }

  lemma Pow10Value18()
    ensures Pow10(18) == 1_000_000_000_000_000_000 && Pow10(19) == 10 * Pow10(18)
  {
    assert Pow10(6) == 1_000_000;
    assert Pow10(12) == 1_000_000_000_000;
  }

  /** strings.Split(s, sep) for a one-character separator. */
  function Split(s: string, sep: char): (r: seq<string>)
    decreases |s|
    ensures |r| > 0
    ensures forall i :: 0 <= i < |r| ==> sep !in r[i]
  {
    var head := BeforeFirst(s, sep);
    if |head| == |s| then [s] else [head] + Split(s[|head| + 1..], sep)
  }

  lemma SplitFirst(s: string, sep: char)
    ensures Split(s, sep)[0] == BeforeFirst(s, sep)
  {
  }

  lemma SplitCons(x: string, sep: char, rest: string)
    requires sep !in x
    ensures Split(x + [sep] + rest, sep) == [x] + Split(rest, sep)
  {
    var s := x + [sep] + rest;
    BeforeFirstPrefix(x, sep, [sep] + rest);
    assert s == x + ([sep] + rest);
    assert s[|x| + 1..] == rest;
  }

  lemma SplitSingle(x: string, sep: char)
    requires sep !in x
    ensures Split(x, sep) == [x]
  {
    BeforeFirstAll(x, sep);
  }

  lemma {:induction false} BeforeFirstPrefix(x: string, sep: char, rest: string)
    requires sep !in x && rest != [] && rest[0] == sep
    ensures BeforeFirst(x + rest, sep) == x
  {
    if x != [] {
      assert (x + rest)[1..] == x[1..] + rest;
      BeforeFirstPrefix(x[1..], sep, rest);
    } else {
      assert x + rest == rest;
    }
  }
}
