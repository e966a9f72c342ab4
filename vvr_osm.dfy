// vvr-osm.go: the two lookups, the name matcher and the route_ref deriver.

module VvrOsm {
  import opened Text
  import opened Types

  // ---------------------------------------------------------------------
  // getCityResultFromData

  /** Index of the first VVR answer for `key`, or None when there is none. */
  function CityIndex(cities: seq<VvrCity>, key: string): (r: Option<nat>)
    ensures r.Some? ==> r.value < |cities| && cities[r.value].searchWord == key
    ensures r.Some? ==> forall j :: 0 <= j < r.value ==> cities[j].searchWord != key
    ensures r.None? ==> forall j :: 0 <= j < |cities| ==> cities[j].searchWord != key
  {
    if cities == [] then None
    else if cities[0].searchWord == key then Some(0)
    else match CityIndex(cities[1..], key)
      case None => None
      case Some(j) => Some(j + 1)
  }

  /** The linear search of the cached VVR data; an index stands for the address the Go code returns. */
  method GetCityResultFromData(cityName: string, vvr: VvrData) returns (r: Option<nat>)
    ensures r == CityIndex(vvr.cityResults, cityName)
  {
    var i := 0;
    while i < |vvr.cityResults|
      invariant 0 <= i <= |vvr.cityResults|
      invariant forall j :: 0 <= j < i ==> vvr.cityResults[j].searchWord != cityName
    {
      if vvr.cityResults[i].searchWord == cityName {
        return Some(i);
      }
      i := i + 1;
    }
    return None;
  }

  // ---------------------------------------------------------------------
  // doesNameExistAlreadyInArray

  /** Index of the first group whose name is exactly `name`, or -1. */
  function NameIndex(mbs: seq<MatchedBusStop>, name: string): (r: int)
    ensures -1 <= r < |mbs|
    ensures r >= 0 ==> mbs[r].name == name && forall j :: 0 <= j < r ==> mbs[j].name != name
    ensures r == -1 ==> forall j :: 0 <= j < |mbs| ==> mbs[j].name != name
  {
    if mbs == [] then -1
    else if mbs[0].name == name then 0
    else
      var j := NameIndex(mbs[1..], name);
      if j < 0 then -1 else j + 1
  }

  method DoesNameExistAlreadyInArray(mbs: seq<MatchedBusStop>, name: string) returns (index: int)
    ensures index == NameIndex(mbs, name)
  {
    var i := 0;
    while i < |mbs|
      invariant 0 <= i <= |mbs|
      invariant forall j :: 0 <= j < i ==> mbs[j].name != name
    {
      if mbs[i].name == name {
        return i;
      }
      i := i + 1;
    }
    return -1;
  }

  // ---------------------------------------------------------------------
  // doesOsmElementMatchVvrElement

  /** The string after the first `n` rules of the table, rule i applied to the output of rule i-1. */
  function ApplyRules(s: string, search: seq<string>, replace: seq<string>, n: nat): string
    requires n <= |search| && n <= |replace|
  {
    if n == 0 then s
    else ReplaceAll(ApplyRules(s, search, replace, n - 1), search[n - 1], replace[n - 1])
  }

  /** A name as the matcher compares it: lower-cased, then run through the whole table. */
  function Clean(name: string, search: seq<string>, replace: seq<string>): string
    requires |search| == |replace|
  {
    ApplyRules(ToLower(name), search, replace, |search|)
  }

  /**
   * The match decision: the cleaned names are equal, or the cleaned OSM name
   * prefixed with a lower-cased (but not cleaned) city and a blank is the
   * cleaned VVR name.
   */
  predicate Matches(osmName: string, vvrName: string, cities: seq<string>, search: seq<string>, replace: seq<string>)
    requires |search| == |replace|
  {
    var osmNameCleaned := Clean(osmName, search, replace);
    var vvrNameCleaned := Clean(vvrName, search, replace);
    osmNameCleaned == vvrNameCleaned
    || exists i | 0 <= i < |cities| :: ToLower(cities[i]) + " " + osmNameCleaned == vvrNameCleaned
  }

  /** The source panics when the two halves of the table differ in length. */
  method DoesOsmElementMatchVvrElement(
    osm: OsmElement, vvrName: string, cities: seq<string>, search: seq<string>, replace: seq<string>)
    returns (b: bool)
    requires |search| == |replace|
    ensures b == Matches(osm.tags.name, vvrName, cities, search, replace)
  {
    var osmNameCleaned := ToLower(osm.tags.name);
    var vvrNameCleaned := ToLower(vvrName);
    var i := 0;
    while i < |search|
      invariant 0 <= i <= |search|
      invariant osmNameCleaned == ApplyRules(ToLower(osm.tags.name), search, replace, i)
      invariant vvrNameCleaned == ApplyRules(ToLower(vvrName), search, replace, i)
    {
      osmNameCleaned := ReplaceAll(osmNameCleaned, search[i], replace[i]);
      vvrNameCleaned := ReplaceAll(vvrNameCleaned, search[i], replace[i]);
      i := i + 1;
    }
    // exact match
    if osmNameCleaned == vvrNameCleaned {
      return true;
    }
    // prefix the OSM name with a city
    i := 0;
    while i < |cities|
      invariant 0 <= i <= |cities|
      invariant forall j :: 0 <= j < i ==> ToLower(cities[j]) + " " + osmNameCleaned != vvrNameCleaned
    {
      if ToLower(cities[i]) + " " + osmNameCleaned == vvrNameCleaned {
        return true;
      }
      i := i + 1;
    }
    return false;
  }

  /** Names that clean to the same string match in both directions, whatever the cities. */
  lemma MatchesWhenCleanedEqual(a: string, b: string, cities: seq<string>, search: seq<string>, replace: seq<string>)
    requires |search| == |replace|
    requires Clean(a, search, replace) == Clean(b, search, replace)
    ensures Matches(a, b, cities, search, replace) && Matches(b, a, cities, search, replace)
  {
  }

  /** Without a city that completes the VVR name, only equal cleaned names match. */
  lemma NoCityNoPrefixMatch(a: string, b: string, search: seq<string>, replace: seq<string>)
    requires |search| == |replace|
    ensures Matches(a, b, [], search, replace) <==> Clean(a, search, replace) == Clean(b, search, replace)
  {
  }

  /** With a table of non-empty patterns the empty name cleans to "", so two unnamed elements match. */
  lemma {:induction false} EmptyNameCleansToEmpty(search: seq<string>, replace: seq<string>, n: nat)
    requires n <= |search| && n <= |replace|
    requires forall i :: 0 <= i < |search| ==> search[i] != []
    ensures ApplyRules("", search, replace, n) == ""
  {
    if n > 0 {
      EmptyNameCleansToEmpty(search, replace, n - 1);
    }
  }

  // ---------------------------------------------------------------------
  // convertLinienToRouteRef: the regular expression <span.*?>([0-9]+)</span.*?>

  const SpanOpen: string := "<span"
  const SpanClose: string := "</span"

  /** A match of the expression: "<span" at `open`, the capture from `digitsStart` to `digitsEnd`, the end of the match. */
  datatype Span = Span(open: nat, digitsStart: nat, digitsEnd: nat, end: nat)

  /** No newline in s[a..b]: `.` in RE2 does not match one, so the whole match lies on one line. */
  predicate LineFree(s: string, a: nat, b: nat)
    requires a <= b <= |s|
  {
    forall q :: a <= q < b ==> s[q] != '\n'
  }

  lemma LineFreeJoin(s: string, a: nat, b: nat, c: nat)
    requires a <= b <= c <= |s| && LineFree(s, a, b) && LineFree(s, b, c)
    ensures LineFree(s, a, c)
  {
  }

  lemma DigitsLineFree(s: string, a: nat, b: nat)
    requires a <= b <= |s| && IsDigits(s[a..b])
    ensures LineFree(s, a, b)
  {
    forall q | a <= q < b ensures s[q] != '\n' {
      assert s[q] == s[a..b][q - a];
    }
  }

  lemma LiteralLineFree(s: string, pat: string, i: nat)
    requires OccursAt(s, pat, i) && '\n' !in pat
    ensures LineFree(s, i, i + |pat|)
  {
    forall q | i <= q < i + |pat| ensures s[q] != '\n' {
      assert s[q] == pat[q - i];
    }
  }

  /**
   * `([0-9]+)</span.*?>` matches from sp.digitsStart to sp.end: a digit run,
   * then "</span", then the line up to and including a '>'.
   */
  predicate Closes(s: string, sp: Span)
  {
    && sp.digitsStart < sp.digitsEnd && sp.digitsEnd + |SpanClose| < sp.end <= |s|
    && IsDigits(s[sp.digitsStart..sp.digitsEnd])
    && OccursAt(s, SpanClose, sp.digitsEnd)
    && s[sp.end - 1] == '>'
    && LineFree(s, sp.digitsStart, sp.end)
  }

  /**
   * The whole expression matches at sp: "<span" at sp.open, then the line up
   * to a '>' that sits right before the captured digits, then the closing tag.
   */
  predicate Framed(s: string, sp: Span)
  {
    && Closes(s, sp)
    && sp.open + |SpanOpen| < sp.digitsStart
    && OccursAt(s, SpanOpen, sp.open)
    && s[sp.digitsStart - 1] == '>'
    && LineFree(s, sp.open, sp.digitsStart)
  }

  /** The end of the run of digits starting at `d` (`[0-9]+` is greedy). */
  function DigitsEnd(s: string, d: nat): (e: nat)
    requires d <= |s|
    decreases |s| - d
    ensures d <= e <= |s| && IsDigits(s[d..e])
    ensures e < |s| ==> !IsDigit(s[e])
  {
    if d < |s| && IsDigit(s[d]) then
      var e := DigitsEnd(s, d + 1);
      assert s[d..e] == [s[d]] + s[d + 1..e];
      e
    else d
  }

  /** The first '>' at or after `m` that `.*?` can reach (`.` does not match a newline). */
  function NextGt(s: string, m: nat): (r: Option<nat>)
    requires m <= |s|
    decreases |s| - m
    ensures r.Some? ==> m <= r.value < |s| && s[r.value] == '>' && LineFree(s, m, r.value + 1)
  {
    if m >= |s| || s[m] == '\n' then None
    else if s[m] == '>' then Some(m)
    else NextGt(s, m + 1)
  }

  /** The rest of a match that opened at `j`, `([0-9]+)</span.*?>`, starting right after the opening tag's '>'. */
  function TailAt(s: string, j: nat, d: nat): (r: Option<Span>)
    requires d <= |s|
    ensures r.Some? ==> r.value.open == j && r.value.digitsStart == d && Closes(s, r.value)
  {
    var e := DigitsEnd(s, d);
    if e == d || !OccursAt(s, SpanClose, e) then None
    else match NextGt(s, e + |SpanClose|)
      case None => None
      case Some(m) =>
        DigitsLineFree(s, d, e);
        LiteralLineFree(s, SpanClose, e);
        LineFreeJoin(s, d, e, e + |SpanClose|);
        LineFreeJoin(s, d, e + |SpanClose|, m + 1);
        Some(Span(j, d, e, m + 1))
  }

  /** The lazy `.*?>` after "<span" at `j`: the first '>' from `k` on after which the rest matches. */
  function OpenFrom(s: string, j: nat, k: nat): (r: Option<Span>)
    requires k <= |s|
    decreases |s| - k
    ensures r.Some? ==> r.value.open == j && Closes(s, r.value) && k < r.value.digitsStart
    ensures r.Some? ==> s[r.value.digitsStart - 1] == '>' && LineFree(s, k, r.value.digitsStart)
  {
    if k >= |s| || s[k] == '\n' then None
    else if s[k] == '>' && TailAt(s, j, k + 1).Some? then TailAt(s, j, k + 1)
    else OpenFrom(s, j, k + 1)
  }

  /** The preferred match of the expression that starts at `j`, if any. */
  function MatchAt(s: string, j: nat): (r: Option<Span>)
    requires j <= |s|
    ensures r.Some? ==> r.value.open == j && Framed(s, r.value)
  {
    if OccursAt(s, SpanOpen, j) then
      match OpenFrom(s, j, j + |SpanOpen|)
      case None => None
      case Some(sp) =>
        LiteralLineFree(s, SpanOpen, j);
        LineFreeJoin(s, j, j + |SpanOpen|, sp.digitsStart);
        Some(sp)
    else None
  }

  /** No match of the expression starts in [a, b). */
  predicate NoMatchIn(s: string, a: nat, b: nat)
  {
    forall j :: a <= j < b && j <= |s| ==> MatchAt(s, j).None?
  }

  /**
   * What FindAllStringSubmatch from position `i` yields: every span is a match
   * of the expression, the spans do not overlap and come in order, and no
   * match starts before the first, between two of them or after the last.
   */
  predicate Scanned(s: string, i: nat, sps: seq<Span>)
  {
    && (forall k :: 0 <= k < |sps| ==> Framed(s, sps[k]))
    && (forall k :: 0 <= k < |sps| - 1 ==> sps[k].end <= sps[k + 1].open)
    && (forall k :: 0 <= k < |sps| - 1 ==> NoMatchIn(s, sps[k].end, sps[k + 1].open))
    && (sps == [] ==> NoMatchIn(s, i, |s|))
    && (sps != [] ==> i <= sps[0].open && NoMatchIn(s, i, sps[0].open) && NoMatchIn(s, sps[|sps| - 1].end, |s|))
  }

  lemma ScannedMatch(s: string, i: nat, sp: Span, rest: seq<Span>)
    requires sp.open == i && Framed(s, sp) && Scanned(s, sp.end, rest)
    ensures Scanned(s, i, [sp] + rest)
  {
    var r := [sp] + rest;
    forall k | 0 <= k < |r|
      ensures Framed(s, r[k])
    {
      if k > 0 {
        assert r[k] == rest[k - 1];
      }
    }
    forall k | 0 <= k < |r| - 1
      ensures r[k].end <= r[k + 1].open && NoMatchIn(s, r[k].end, r[k + 1].open)
    {
      assert r[k + 1] == rest[k];
      if k > 0 {
        assert r[k] == rest[k - 1];
      }
    }
    if rest != [] {
      assert r[|r| - 1] == rest[|rest| - 1];
    }
  }

  lemma ScannedSkip(s: string, i: nat, rest: seq<Span>)
    requires i < |s| && MatchAt(s, i).None? && Scanned(s, i + 1, rest)
    ensures Scanned(s, i, rest)
  {
    if rest == [] {
      NoMatchExtend(s, i, |s|);
    } else {
      NoMatchExtend(s, i, rest[0].open);
    }
  }

  lemma NoMatchExtend(s: string, i: nat, b: nat)
    requires i < |s| && MatchAt(s, i).None? && NoMatchIn(s, i + 1, b)
    ensures NoMatchIn(s, i, b)
  {
  }

  /** FindAllStringSubmatch from position `i`: the leftmost match, then the leftmost match from its end on, and so on. */
  function SpansFrom(s: string, i: nat): (sps: seq<Span>)
    requires i <= |s|
    decreases |s| - i
    ensures Scanned(s, i, sps)
  {
    if i == |s| then []
    else match MatchAt(s, i)
      case Some(sp) =>
        var rest := SpansFrom(s, sp.end);
        ScannedMatch(s, i, sp, rest);
        [sp] + rest
      case None =>
        var rest := SpansFrom(s, i + 1);
        ScannedSkip(s, i, rest);
        rest
  }

  /** The digit strings the expression captures in `s`, one per match, in order. */
  function Captures(s: string): (caps: seq<string>)
    ensures var sps := SpansFrom(s, 0);
      && |caps| == |sps|
      && forall k :: 0 <= k < |caps| ==> caps[k] == s[sps[k].digitsStart..sps[k].digitsEnd] && caps[k] != [] && IsDigits(caps[k])
  {
    var sps := SpansFrom(s, 0);
    seq(|sps|, k requires 0 <= k < |sps| => s[sps[k].digitsStart..sps[k].digitsEnd])
  }

  /** One line number as the timetable page marks it up. */
  function LineTag(c: char): (t: string)
    ensures |t| == 14 && t[6] == c
  {
    "<span>" + [c] + "</span>"
  }

  /** LineTag(digit) at j is a match of the expression, capturing the digit. */
  lemma OneDigitSpan(s: string, j: nat, c: char)
    requires j + 14 <= |s| && IsDigit(c) && s[j..j + 14] == LineTag(c)
    ensures MatchAt(s, j) == Some(Span(j, j + 6, j + 7, j + 14))
  {
    var t := LineTag(c);
    assert forall k :: 0 <= k < 14 ==> s[j + k] == t[k] by {
      forall k | 0 <= k < 14 ensures s[j + k] == t[k] {
        assert s[j..j + 14][k] == s[j + k];
      }
    }
    assert s[j..j + 5] == SpanOpen by {
      forall k | 0 <= k < 5 ensures s[j..j + 5][k] == SpanOpen[k] {
        assert s[j..j + 5][k] == s[j + k] == t[k];
      }
    }
    assert s[j + 7..j + 13] == SpanClose by {
      forall k | 0 <= k < 6 ensures s[j + 7..j + 13][k] == SpanClose[k] {
        assert s[j + 7..j + 13][k] == s[j + (7 + k)] == t[7 + k];
      }
    }
    assert s[j + 5] == t[5] == '>' && s[j + 6] == t[6] == c && s[j + 7] == t[7] == '<' && s[j + 13] == t[13] == '>';
    assert DigitsEnd(s, j + 7) == j + 7;
    assert DigitsEnd(s, j + 6) == j + 7;
    assert NextGt(s, j + 13) == Some(j + 13);
    assert TailAt(s, j, j + 6) == Some(Span(j, j + 6, j + 7, j + 14));
    assert OpenFrom(s, j, j + 5) == Some(Span(j, j + 6, j + 7, j + 14));
  }

  /** Two one-digit lines side by side: the expression captures the first digit, then the second. */
  lemma TwoDigitSpans(s: string, c1: char, c2: char)
    requires IsDigit(c1) && IsDigit(c2) && s == LineTag(c1) + LineTag(c2)
    ensures SpansFrom(s, 0) == [Span(0, 6, 7, 14), Span(14, 20, 21, 28)]
  {
    assert s[0..14] == LineTag(c1);
    assert s[14..28] == LineTag(c2);
    OneDigitSpan(s, 0, c1);
    OneDigitSpan(s, 14, c2);
    assert SpansFrom(s, 28) == [];
    assert SpansFrom(s, 14) == [Span(14, 20, 21, 28)];
  }

  lemma CapturesTwoDigits(c1: char, c2: char)
    requires IsDigit(c1) && IsDigit(c2)
    ensures Captures(LineTag(c1) + LineTag(c2)) == [[c1], [c2]]
  {
    var s := LineTag(c1) + LineTag(c2);
    TwoDigitSpans(s, c1, c2);
    assert s[6..7] == [c1] && s[20..21] == [c2];
  }

  lemma OneDigit(c: char)
    requires IsDigit(c)
    ensures Atoi([c]) == Some(DigitValue(c))
  {
    assert [c][..0] == [] && [c][0] == c;
    assert DecimalValue([c]) == 10 * DecimalValue([]) + DigitValue(c);
  }

  lemma ParseAllOk(caps: seq<string>, c: string, xs: seq<nat>, v: nat)
    requires forall k :: 0 <= k < |caps| ==> IsDigits(caps[k])
    requires IsDigits(c) && ParseAll(caps) == Ok(xs) && Atoi(c) == Some(v)
    ensures ParseAll(caps + [c]) == Ok(xs + [v])
  {
    assert (caps + [c])[..|caps|] == caps;
  }

  lemma ParseTwoDigits(c1: char, c2: char)
    requires IsDigit(c1) && IsDigit(c2)
    ensures ParseAll([[c1], [c2]]) == Ok([DigitValue(c1), DigitValue(c2)])
  {
    OneDigit(c1);
    OneDigit(c2);
    ParseAllOk([], [c1], [], DigitValue(c1));
    assert [] + [[c1]] == [[c1]] && [] + [DigitValue(c1)] == [DigitValue(c1)];
    ParseAllOk([[c1]], [c2], [DigitValue(c1)], DigitValue(c2));
    assert [[c1]] + [[c2]] == [[c1], [c2]];
    assert [DigitValue(c1)] + [DigitValue(c2)] == [DigitValue(c1), DigitValue(c2)];
  }

  lemma SortTwo(x: nat, y: nat)
    requires y < x
    ensures SortInts([x, y]) == [y, x]
  {
    assert [x, y][..1] == [x] && [x][..0] == [];
    assert SortInts([x]) == [x];
  }

  /**
   * Two one-digit lines, the larger first: no error, and the route_ref lists
   * the smaller, a ';' and the larger: "<span>3</span><span>1</span>" gives "1;3".
   */
  lemma RouteRefTwoDigits(c1: char, c2: char)
    requires IsDigit(c1) && IsDigit(c2) && DigitValue(c2) < DigitValue(c1)
    ensures RouteRefOf(LineTag(c1) + LineTag(c2)) == ([c2] + ";" + [c1], None)
  {
    var s := LineTag(c1) + LineTag(c2);
    assert s != "" by {
      assert |s| == 28;
    }
    CapturesTwoDigits(c1, c2);
    ParseTwoDigits(c1, c2);
    SortTwo(DigitValue(c1), DigitValue(c2));
    JoinTwoDigits(c2, c1);
  }

  lemma JoinTwoDigits(c1: char, c2: char)
    requires IsDigit(c1) && IsDigit(c2)
    ensures Join([DigitValue(c1), DigitValue(c2)]) == [c1] + ";" + [c2]
  {
    var x, y := DigitValue(c1), DigitValue(c2);
    assert [x, y][1..] == [y];
    assert Itoa(x) == [c1] && Itoa(y) == [c2];
  }

  /** strconv.Atoi's range error; `num` is the digit string it rejected. */
  datatype NumError = NumError(num: string)

  /** Atoi over all captures in order: their values, or the first capture out of range. */
  function ParseAll(caps: seq<string>): Result<seq<nat>, NumError>
    requires forall k :: 0 <= k < |caps| ==> IsDigits(caps[k])
  {
    if caps == [] then Ok([])
    else match ParseAll(caps[..|caps| - 1])
      case Err(e) => Err(e)
      case Ok(xs) =>
        match Atoi(caps[|caps| - 1])
        case None => Err(NumError(caps[|caps| - 1]))
        case Some(v) => Ok(xs + [v])
  }

  predicate Sorted(xs: seq<int>)
  {
    forall i, j :: 0 <= i < j < |xs| ==> xs[i] <= xs[j]
  }

  function Insert(x: nat, xs: seq<nat>): (r: seq<nat>)
    requires Sorted(xs)
    ensures Sorted(r) && multiset(r) == multiset(xs) + multiset{x}
  {
    if xs == [] then [x]
    else if x <= xs[0] then [x] + xs
    else
      var rest := Insert(x, xs[1..]);
      assert xs == [xs[0]] + xs[1..];
      LowerBoundKept(xs[0], xs[1..], x, rest);
      [xs[0]] + rest
  }

  /** A bound on all of `ys` and on `x` bounds every permutation of `ys` plus `x`. */
  lemma LowerBoundKept(lo: int, ys: seq<nat>, x: nat, rest: seq<nat>)
    requires forall j :: 0 <= j < |ys| ==> lo <= ys[j]
    requires lo <= x
    requires multiset(rest) == multiset(ys) + multiset{x}
    ensures forall k :: 0 <= k < |rest| ==> lo <= rest[k]
  {
    forall k | 0 <= k < |rest| ensures lo <= rest[k] {
      assert rest[k] in multiset(rest);
      if rest[k] != x {
        assert rest[k] in multiset(ys);
        assert rest[k] in ys;
      }
    }
  }

  /** sort.Ints: the same numbers, duplicates kept, in ascending order. */
  function SortInts(xs: seq<nat>): (r: seq<nat>)
    ensures Sorted(r) && multiset(r) == multiset(xs)
  {
    if xs == [] then []
    else
      assert xs == xs[..|xs| - 1] + [xs[|xs| - 1]];
      Insert(xs[|xs| - 1], SortInts(xs[..|xs| - 1]))
  }

  /** The numbers in decimal, separated by ';'. */
  function Join(xs: seq<nat>): string
  {
    if xs == [] then ""
    else if |xs| == 1 then Itoa(xs[0])
    else Itoa(xs[0]) + ";" + Join(xs[1..])
  }

  /** What convertLinienToRouteRef returns: the route_ref text and the error, if any. */
  function RouteRefOf(linien: string): (string, Option<NumError>)
  {
    if linien == "" then ("", None)
    else match ParseAll(Captures(linien))
      case Err(e) => ("", Some(e))
      case Ok(xs) => (Join(SortInts(xs)), None)
  }

  lemma {:induction false} ParseAllPrefixError(caps: seq<string>, n: nat, e: NumError)
    requires forall k :: 0 <= k < |caps| ==> IsDigits(caps[k])
    requires n <= |caps| && ParseAll(caps[..n]) == Err(e)
    ensures ParseAll(caps) == Err(e)
  {
    if n < |caps| {
      assert caps[..|caps| - 1][..n] == caps[..n];
      ParseAllPrefixError(caps[..|caps| - 1], n, e);
      assert caps == caps[..|caps|];
    } else {
      assert caps[..n] == caps;
    }
  }

  lemma ParseAllSnoc(caps: seq<string>, i: nat)
    requires forall k :: 0 <= k < |caps| ==> IsDigits(caps[k])
    requires i < |caps|
    ensures ParseAll(caps[..i + 1]) ==
      match ParseAll(caps[..i])
      case Err(e) => Err(e)
      case Ok(xs) => (match Atoi(caps[i]) case None => Err(NumError(caps[i])) case Some(v) => Ok(xs + [v]))
  {
    assert caps[..i + 1][..i] == caps[..i];
  }

  lemma JoinUnfold(xs: seq<nat>, i: nat)
    requires i < |xs|
    ensures Join(xs[i..]) == Itoa(xs[i]) + (if i < |xs| - 1 then ";" + Join(xs[i + 1..]) else "")
  {
    assert xs[i..][1..] == xs[i + 1..];
  }

  /**
   * The Go function. The error it returns on success is always nil: the
   * loop's `err` is a new variable that shadows the outer one.
   */
  method ConvertLinienToRouteRef(linien: string) returns (routeRef: string, err: Option<NumError>)
    ensures (routeRef, err) == RouteRefOf(linien)
  {
    routeRef := "";
    if linien == "" {
      return routeRef, None;
    }
    var linesArr: seq<nat> := [];
    var res := Captures(linien);
    var i := 0;
    while i < |res|
      invariant 0 <= i <= |res|
      invariant ParseAll(res[..i]) == Ok(linesArr)
    {
      ParseAllSnoc(res, i);
      var line := Atoi(res[i]);
      if line.None? {
        assert ParseAll(res[..i + 1]) == Err(NumError(res[i]));
        ParseAllPrefixError(res, i + 1, NumError(res[i]));
        return "", Some(NumError(res[i]));
      }
      linesArr := linesArr + [line.value];
      i := i + 1;
    }
    assert res[..i] == res;
    assert RouteRefOf(linien) == (Join(SortInts(linesArr)), None);
    linesArr := SortInts(linesArr);
    routeRef := JoinRouteRef(linesArr);
    return routeRef, None;
  }

  /** The closing loop of convertLinienToRouteRef: each number, then ';' unless it is the last. */
  method JoinRouteRef(linesArr: seq<nat>) returns (routeRef: string)
    ensures routeRef == Join(linesArr)
  {
    routeRef := "";
    var i := 0;
    while i < |linesArr|
      invariant 0 <= i <= |linesArr|
      invariant routeRef + Join(linesArr[i..]) == Join(linesArr)
    {
      JoinUnfold(linesArr, i);
      ghost var before := routeRef;
      routeRef := routeRef + Itoa(linesArr[i]);
      if i < |linesArr| - 1 {
        routeRef := routeRef + ";";
        assert routeRef + Join(linesArr[i + 1..]) == before + (Itoa(linesArr[i]) + ";" + Join(linesArr[i + 1..]));
      } else {
        assert linesArr[i + 1..] == [];
      }
      i := i + 1;
    }
    assert linesArr[i..] == [];
    assert routeRef + "" == routeRef;
  }

  // Properties of the derived route_ref.

  function CountChar(s: string, c: char): nat
  {
    if s == [] then 0 else (if s[0] == c then 1 else 0) + CountChar(s[1..], c)
  }

  lemma {:induction false} CountCharAppend(a: string, b: string, c: char)
    ensures CountChar(a + b, c) == CountChar(a, c) + CountChar(b, c)
  {
    if a != [] {
      assert (a + b)[1..] == a[1..] + b;
      CountCharAppend(a[1..], b, c);
    } else {
      assert a + b == b;
    }
  }

  lemma {:induction false} CountCharDigits(s: string)
    requires IsDigits(s)
    ensures CountChar(s, ';') == 0
  {
    if s != [] {
      CountCharDigits(s[1..]);
    }
  }

  /** n numbers are separated by exactly n-1 semicolons, and the text is empty exactly when there are none. */
  lemma {:induction false} JoinSeparators(xs: seq<nat>)
    ensures Join(xs) == "" <==> xs == []
    ensures xs != [] ==> CountChar(Join(xs), ';') == |xs| - 1
  {
    if |xs| == 1 {
      CountCharDigits(Itoa(xs[0]));
    } else if |xs| > 1 {
      JoinSeparators(xs[1..]);
      CountCharDigits(Itoa(xs[0]));
      CountCharAppend(Itoa(xs[0]), ";", ';');
      CountCharAppend(Itoa(xs[0]) + ";", Join(xs[1..]), ';');
    }
  }

  /** No trailing separator: a non-empty route_ref ends in a digit. */
  lemma {:induction false} JoinEndsInDigit(xs: seq<nat>)
    requires xs != []
    ensures IsDigit(Join(xs)[|Join(xs)| - 1])
  {
    if |xs| > 1 {
      JoinEndsInDigit(xs[1..]);
    }
  }

  /** Splitting the route_ref at ';' gives back the decimal form of every number, in order. */
  lemma {:induction false} JoinSplitRoundTrip(xs: seq<nat>)
    requires xs != []
    ensures var parts := Split(Join(xs), ';');
      |parts| == |xs| && forall k :: 0 <= k < |xs| ==> parts[k] == Itoa(xs[k])
  {
    if |xs| == 1 {
      SplitSingle(Itoa(xs[0]), ';');
    } else {
      JoinSplitRoundTrip(xs[1..]);
      assert ';' !in Itoa(xs[0]);
      SplitCons(Itoa(xs[0]), ';', Join(xs[1..]));
    }
  }

  /** Every number of the route_ref reads back as itself. */
  lemma JoinParsesBack(xs: seq<nat>)
    requires xs != []
    ensures var parts := Split(Join(xs), ';');
      |parts| == |xs| && forall k :: 0 <= k < |xs| ==> IsDigits(parts[k]) && DecimalValue(parts[k]) == xs[k]
  {
    JoinSplitRoundTrip(xs);
    forall k | 0 <= k < |xs| {
      DecimalValueOfItoa(xs[k]);
    }
  }

  /**
   * What convertLinienToRouteRef promises: no error and "" for empty input;
   * on a range error, "" and the error; otherwise no error and the captured
   * numbers, duplicates kept, ascending, each written once and separated by ';'.
   */
  lemma RouteRefOfMeaning(linien: string)
    ensures linien == "" ==> RouteRefOf(linien) == ("", None)
    ensures RouteRefOf(linien).1.Some? ==> RouteRefOf(linien).0 == ""
    ensures linien != "" ==>
      (RouteRefOf(linien).1.None? <==> ParseAll(Captures(linien)).Ok?)
    ensures linien != "" && ParseAll(Captures(linien)).Ok? ==>
      var xs := ParseAll(Captures(linien)).value;
      var sorted := SortInts(xs);
      && RouteRefOf(linien).0 == Join(sorted)
      && Sorted(sorted) && multiset(sorted) == multiset(xs)
      && (xs == [] <==> RouteRefOf(linien).0 == "")
  {
    if linien != "" && ParseAll(Captures(linien)).Ok? {
      var xs := ParseAll(Captures(linien)).value;
      JoinSeparators(SortInts(xs));
      assert SortInts(xs) == [] <==> xs == [] by {
        assert |multiset(SortInts(xs))| == |SortInts(xs)| && |multiset(xs)| == |xs|;
      }
    }
  }

  /** ParseAll fails exactly when some capture is above Go's int range, naming the first such capture. */
  lemma {:induction false} ParseAllFailsOnRange(caps: seq<string>)
    requires forall k :: 0 <= k < |caps| ==> IsDigits(caps[k])
    ensures ParseAll(caps).Err? <==> exists k :: 0 <= k < |caps| && DecimalValue(caps[k]) > MaxInt
    ensures ParseAll(caps).Ok? ==>
      |ParseAll(caps).value| == |caps| &&
      forall k :: 0 <= k < |caps| ==> ParseAll(caps).value[k] == DecimalValue(caps[k])
  {
    if caps != [] {
      var init := caps[..|caps| - 1];
      ParseAllFailsOnRange(init);
      assert forall k :: 0 <= k < |init| ==> init[k] == caps[k];
    }
  }
}
