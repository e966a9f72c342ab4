// main.go, lines 104-233: the city vocabulary, the sweep that gives every
// accepted VVR stop the OSM elements whose names match it, and the grouping
// of the OSM elements that are left over.

module Reconcile {
  import opened Text
  import opened Types
  import opened VvrOsm
  import opened Constants

  // ---------------------------------------------------------------------
  // The VVR stops in the order the nested loops visit them

  /** A VVR stop with the search word whose answer listed it. */
  datatype Listing = Listing(stop: VvrBusStop, searchWord: string)

  /** The stops of one answer, in answer order, each with that answer's search word. */
  function CityListings(c: VvrCity): (ls: seq<Listing>)
    ensures |ls| == |c.result|
    ensures forall j :: 0 <= j < |ls| ==> ls[j].stop == c.result[j] && ls[j].searchWord == c.searchWord
  {
    seq(|c.result|, j requires 0 <= j < |c.result| => Listing(c.result[j], c.searchWord))
  }

  /** Every stop of every answer, answer by answer. */
  function Listings(cr: seq<VvrCity>): seq<Listing>
  {
    if cr == [] then [] else Listings(cr[..|cr| - 1]) + CityListings(cr[|cr| - 1])
  }

  lemma ListingsSnoc(cr: seq<VvrCity>, i: nat)
    requires i < |cr|
    ensures Listings(cr[..i + 1]) == Listings(cr[..i]) + CityListings(cr[i])
  {
    assert cr[..i + 1][..i] == cr[..i];
  }

  lemma CityListingsSnoc(c: VvrCity, k: nat)
    requires k < |c.result|
    ensures CityListings(c)[..k + 1] == CityListings(c)[..k] + [Listing(c.result[k], c.searchWord)]
  {
  }

  // ---------------------------------------------------------------------
  // City vocabulary (main.go:104-122)

  /** The city part of a VVR name: the text before its first comma. */
  function CityOf(value: string): string
  {
    BeforeFirst(value, ',')
  }

  /** The listing names `city` before a comma. */
  predicate NamesCity(l: Listing, city: string)
  {
    ',' in l.stop.value && CityOf(l.stop.value) == city
  }

  /** One step of the vocabulary loop: a name with a comma contributes its city once. */
  function AddCity(cities: seq<string>, value: string): seq<string>
  {
    if Contains(value, ",") then
      var c := CityOf(value);
      if c in cities then cities else cities + [c]
    else cities
  }

  /** The vocabulary after the listings `ls`, starting from `acc`. */
  function CitiesAfter(acc: seq<string>, ls: seq<Listing>): seq<string>
  {
    if ls == [] then acc else AddCity(CitiesAfter(acc, ls[..|ls| - 1]), ls[|ls| - 1].stop.value)
  }

  function CitiesOf(ls: seq<Listing>): seq<string>
  {
    CitiesAfter([], ls)
  }

  lemma {:induction false} CitiesAfterAppend(acc: seq<string>, a: seq<Listing>, b: seq<Listing>)
    ensures CitiesAfter(acc, a + b) == CitiesAfter(CitiesAfter(acc, a), b)
  {
    if b == [] {
      assert a + b == a;
    } else {
      assert (a + b)[..|a + b| - 1] == a + b[..|b| - 1];
      CitiesAfterAppend(acc, a, b[..|b| - 1]);
    }
  }

  /** The inner search over the cities found so far. */
  method IsCityKnown(extractedCities: seq<string>, bussiCity: string) returns (isCityKnown: bool)
    ensures isCityKnown <==> bussiCity in extractedCities
  {
    isCityKnown := false;
    for n := 0 to |extractedCities|
      invariant isCityKnown <==> bussiCity in extractedCities[..n]
    {
      if extractedCities[n] == bussiCity {
        isCityKnown := true;
        break;
      }
    }
    assert extractedCities[..|extractedCities|] == extractedCities;
  }

  /** The body of the vocabulary loop for one VVR name. */
  method AddBussiCity(extractedCities: seq<string>, bussi: string) returns (cities: seq<string>)
    ensures cities == AddCity(extractedCities, bussi)
  {
    cities := extractedCities;
    if Contains(bussi, ",") {
      var bussiCity := Split(bussi, ',')[0];
      SplitFirst(bussi, ',');
      var isCityKnown := IsCityKnown(cities, bussiCity);
      if !isCityKnown {
        cities := cities + [bussiCity];
      }
    }
  }

  /** The inner loop over the stops of one answer. */
  method AddAnswerCities(extractedCities: seq<string>, c: VvrCity) returns (cities: seq<string>)
    ensures cities == CitiesAfter(extractedCities, CityListings(c))
  {
    cities := extractedCities;
    for k := 0 to |c.result|
      invariant cities == CitiesAfter(extractedCities, CityListings(c)[..k])
    {
      CityListingsSnoc(c, k);
      assert (CityListings(c)[..k + 1])[..k] == CityListings(c)[..k];
      cities := AddBussiCity(cities, c.result[k].value);
    }
    assert CityListings(c)[..|c.result|] == CityListings(c);
  }

  /** The nested loops that collect `extractedCities`. */
  method ExtractCities(vvr: VvrData) returns (extractedCities: seq<string>)
    ensures extractedCities == CitiesOf(Listings(vvr.cityResults))
  {
    var cr := vvr.cityResults;
    extractedCities := [];
    for i := 0 to |cr|
      invariant extractedCities == CitiesOf(Listings(cr[..i]))
    {
      ListingsSnoc(cr, i);
      CitiesAfterAppend([], Listings(cr[..i]), CityListings(cr[i]));
      extractedCities := AddAnswerCities(extractedCities, cr[i]);
    }
    assert cr[..|cr|] == cr;
  }

  /** Contains with a one-character pattern is membership of that character. */
  lemma ContainsChar(s: string, c: char)
    ensures Contains(s, [c]) <==> c in s
  {
    if c in s {
      var i :| 0 <= i < |s| && s[i] == c;
      assert OccursAt(s, [c], i);
    }
    if Contains(s, [c]) {
      var i :| 0 <= i <= |s| - 1 && OccursAt(s, [c], i);
      assert s[i..i + 1][0] == s[i];
    }
  }

  predicate NoDuplicates(cities: seq<string>)
  {
    forall i, j :: 0 <= i < j < |cities| ==> cities[i] != cities[j]
  }

  /** The vocabulary has no duplicates. */
  lemma {:induction false} CitiesDistinct(acc: seq<string>, ls: seq<Listing>)
    requires NoDuplicates(acc)
    ensures NoDuplicates(CitiesAfter(acc, ls))
  {
    if ls != [] {
      CitiesDistinct(acc, ls[..|ls| - 1]);
    }
  }

  /** A city is in the vocabulary exactly when some listed name has a comma and that city before it. */
  lemma {:induction false} CitiesMembership(ls: seq<Listing>, city: string)
    ensures city in CitiesOf(ls) <==> exists j :: 0 <= j < |ls| && NamesCity(ls[j], city)
  {
    if ls != [] {
      var init := ls[..|ls| - 1];
      var l := ls[|ls| - 1];
      CitiesMembership(init, city);
      ContainsChar(l.stop.value, ',');
      if city in CitiesOf(ls) && city !in CitiesOf(init) {
        assert NamesCity(ls[|ls| - 1], city);
      }
      if exists j :: 0 <= j < |ls| && NamesCity(ls[j], city) {
        var j :| 0 <= j < |ls| && NamesCity(ls[j], city);
        if j < |init| {
          assert init[j] == ls[j];
        }
      }
      if exists j :: 0 <= j < |init| && NamesCity(init[j], city) {
        var j :| 0 <= j < |init| && NamesCity(init[j], city);
        assert ls[j] == init[j];
      }
    }
  }

  /** First-appearance order: extending the listings only appends to the vocabulary. */
  lemma {:induction false} CitiesPrefix(a: seq<Listing>, b: seq<Listing>)
    ensures CitiesOf(a) <= CitiesOf(a + b)
  {
    if b != [] {
      CitiesPrefix(a, b[..|b| - 1]);
      assert (a + b)[..|a + b| - 1] == a + b[..|b| - 1];
    } else {
      assert a + b == a;
    }
  }

  // ---------------------------------------------------------------------
  // Sweep (main.go:170-220)

  /** OSM ids are unique per element type only, so an element is identified by both. */
  function KeyOf(e: OsmElement): (string, int)
  {
    (e.typ, e.id)
  }

  predicate UniqueKeys(pool: seq<OsmElement>)
  {
    forall i, j :: 0 <= i < j < |pool| ==> KeyOf(pool[i]) != KeyOf(pool[j])
  }

  function Keys(es: seq<OsmElement>): (ks: seq<(string, int)>)
    ensures |ks| == |es| && forall i :: 0 <= i < |es| ==> ks[i] == KeyOf(es[i])
  {
    seq(|es|, i requires 0 <= i < |es| => KeyOf(es[i]))
  }

  /** Some group already carries this VVR id. */
  predicate IsDuplicate(mbs: seq<MatchedBusStop>, vvrId: string)
  {
    exists p | 0 <= p < |mbs| :: mbs[p].vvrId == vvrId
  }

  /** The name contains one of the excluded stop names. */
  predicate IsSpecialDestination(name: string, ignore: seq<string>)
  {
    exists e | 0 <= e < |ignore| :: Contains(name, ignore[e])
  }

  /** The elements of `pool` whose name matches `name`, in pool order. */
  function MatchedIn(pool: seq<OsmElement>, name: string, cities: seq<string>, search: seq<string>, replace: seq<string>): seq<OsmElement>
    requires |search| == |replace|
  {
    if pool == [] then []
    else
      var e := pool[|pool| - 1];
      MatchedIn(pool[..|pool| - 1], name, cities, search, replace)
        + (if Matches(e.tags.name, name, cities, search, replace) then [e] else [])
  }

  /** The elements of `pool` whose name does not match `name`, in pool order. */
  function UnmatchedIn(pool: seq<OsmElement>, name: string, cities: seq<string>, search: seq<string>, replace: seq<string>): seq<OsmElement>
    requires |search| == |replace|
  {
    if pool == [] then []
    else
      var e := pool[|pool| - 1];
      UnmatchedIn(pool[..|pool| - 1], name, cities, search, replace)
        + (if Matches(e.tags.name, name, cities, search, replace) then [] else [e])
  }

  /** The elements of `pool` whose key is not listed, in pool order. */
  function Without(pool: seq<OsmElement>, keys: seq<(string, int)>): seq<OsmElement>
  {
    if pool == [] then []
    else
      var e := pool[|pool| - 1];
      Without(pool[..|pool| - 1], keys) + (if KeyOf(e) in keys then [] else [e])
  }

  /** The state of the sweep: the groups built so far and the OSM elements not yet taken. */
  datatype SweepState = SweepState(mbs: seq<MatchedBusStop>, pool: seq<OsmElement>)

  /**
   * One iteration for one VVR stop: a duplicate id or an excluded name is
   * skipped; otherwise the stop becomes a group holding every element of the
   * pool that matches its name, and those elements leave the pool.
   */
  function Step(st: SweepState, l: Listing, cities: seq<string>, search: seq<string>, replace: seq<string>, ignore: seq<string>): SweepState
    requires |search| == |replace|
  {
    if IsDuplicate(st.mbs, l.stop.id) || IsSpecialDestination(l.stop.value, ignore) then st
    else
      var matched := MatchedIn(st.pool, l.stop.value, cities, search, replace);
      SweepState(
        st.mbs + [MatchedBusStop(l.stop.value, l.stop.id, l.stop.linien, l.searchWord, matched)],
        Without(st.pool, Keys(matched)))
  }

  function SweepAll(st: SweepState, ls: seq<Listing>, cities: seq<string>, search: seq<string>, replace: seq<string>, ignore: seq<string>): SweepState
    requires |search| == |replace|
  {
    if ls == [] then st
    else Step(SweepAll(st, ls[..|ls| - 1], cities, search, replace, ignore), ls[|ls| - 1], cities, search, replace, ignore)
  }

  lemma {:induction false} SweepAllAppend(st: SweepState, a: seq<Listing>, b: seq<Listing>, cities: seq<string>, search: seq<string>, replace: seq<string>, ignore: seq<string>)
    requires |search| == |replace|
    ensures SweepAll(st, a + b, cities, search, replace, ignore)
      == SweepAll(SweepAll(st, a, cities, search, replace, ignore), b, cities, search, replace, ignore)
  {
    if b == [] {
      assert a + b == a;
    } else {
      assert (a + b)[..|a + b| - 1] == a + b[..|b| - 1];
      SweepAllAppend(st, a, b[..|b| - 1], cities, search, replace, ignore);
    }
  }

  /** The duplicate check: a loop over all groups, without a break. */
  method IsVvrDuplicate(mbs: seq<MatchedBusStop>, vvrId: string) returns (vvrIsDuplicate: bool)
    ensures vvrIsDuplicate == IsDuplicate(mbs, vvrId)
  {
    vvrIsDuplicate := false;
    for p := 0 to |mbs|
      invariant vvrIsDuplicate <==> exists q | 0 <= q < p :: mbs[q].vvrId == vvrId
    {
      if mbs[p].vvrId == vvrId {
        vvrIsDuplicate := true;
      }
    }
  }

  /** The exclusion check: a loop over the excluded stop names. */
  method IsVvrSpecialDestination(name: string, ignore: seq<string>) returns (vvrIsSpecialDestination: bool)
    ensures vvrIsSpecialDestination == IsSpecialDestination(name, ignore)
  {
    vvrIsSpecialDestination := false;
    for specDest := 0 to |ignore|
      invariant vvrIsSpecialDestination <==> exists e | 0 <= e < specDest :: Contains(name, ignore[e])
    {
      if Contains(name, ignore[specDest]) {
        vvrIsSpecialDestination := true;
      }
    }
  }

  /** The loop over the pool that collects the matching elements and the keys to remove. */
  method CollectMatches(elements: seq<OsmElement>, name: string, cities: seq<string>, search: seq<string>, replace: seq<string>)
    returns (matched: seq<OsmElement>, removeKeys: seq<(string, int)>)
    requires |search| == |replace|
    ensures matched == MatchedIn(elements, name, cities, search, replace)
    ensures removeKeys == Keys(matched)
  {
    matched, removeKeys := [], [];
    for m := 0 to |elements|
      invariant matched == MatchedIn(elements[..m], name, cities, search, replace)
      invariant removeKeys == Keys(matched)
    {
      assert elements[..m + 1][..m] == elements[..m];
      var b := DoesOsmElementMatchVvrElement(elements[m], name, cities, search, replace);
      if b {
        matched := matched + [elements[m]];
        removeKeys := removeKeys + [KeyOf(elements[m])];
      }
    }
    assert elements[..|elements|] == elements;
  }

  lemma {:induction false} WithoutAppend(a: seq<OsmElement>, b: seq<OsmElement>, keys: seq<(string, int)>)
    ensures Without(a + b, keys) == Without(a, keys) + Without(b, keys)
  {
    if b == [] {
      assert a + b == a;
    } else {
      assert (a + b)[..|a + b| - 1] == a + b[..|b| - 1];
      WithoutAppend(a, b[..|b| - 1], keys);
    }
  }

  lemma WithoutCons(e: OsmElement, rest: seq<OsmElement>, keys: seq<(string, int)>)
    ensures Without([e] + rest, keys) == (if KeyOf(e) in keys then [] else [e]) + Without(rest, keys)
  {
    WithoutAppend([e], rest, keys);
    assert [e][..0] == [];
    assert Without([e], keys) == (if KeyOf(e) in keys then [] else [e]);
  }

  /** One pass of the inner removal loop, comparing (Type, ID) and re-examining the position after a splice. */
  method RemoveKey(elements: seq<OsmElement>, key: (string, int)) returns (rest: seq<OsmElement>)
    ensures rest == Without(elements, [key])
  {
    rest := elements;
    var p := 0;
    assert rest[p..] == elements;
    while p < |rest|
      invariant p <= |rest|
      invariant Without(elements, [key]) == rest[..p] + Without(rest[p..], [key])
      decreases |rest| - p
    {
      if KeyOf(rest[p]) == key {
        SpliceKeepsRemoval(Without(elements, [key]), key, rest, p);
        rest := rest[..p] + rest[p + 1..];
      } else {
        PassKeepsRemoval(Without(elements, [key]), key, rest, p);
        p := p + 1;
      }
    }
    assert rest[..p] == rest;
  }

  /** The invariant of RemoveKey survives splicing out a matching element at p. */
  lemma SpliceKeepsRemoval(w: seq<OsmElement>, key: (string, int), rest: seq<OsmElement>, p: nat)
    requires p < |rest| && KeyOf(rest[p]) == key
    requires w == rest[..p] + Without(rest[p..], [key])
    ensures var spliced := rest[..p] + rest[p + 1..];
      w == spliced[..p] + Without(spliced[p..], [key])
  {
    assert rest[p..] == [rest[p]] + rest[p + 1..];
    WithoutCons(rest[p], rest[p + 1..], [key]);
    var spliced := rest[..p] + rest[p + 1..];
    assert spliced[..p] == rest[..p] && spliced[p..] == rest[p + 1..];
  }

  /** The invariant of RemoveKey survives stepping past a non-matching element at p. */
  lemma PassKeepsRemoval(w: seq<OsmElement>, key: (string, int), rest: seq<OsmElement>, p: nat)
    requires p < |rest| && KeyOf(rest[p]) != key
    requires w == rest[..p] + Without(rest[p..], [key])
    ensures w == rest[..p + 1] + Without(rest[p + 1..], [key])
  {
    assert rest[p..] == [rest[p]] + rest[p + 1..];
    WithoutCons(rest[p], rest[p + 1..], [key]);
    assert rest[..p + 1] == rest[..p] + [rest[p]];
  }

  lemma {:induction false} WithoutSnoc(pool: seq<OsmElement>, keys: seq<(string, int)>, key: (string, int))
    ensures Without(Without(pool, keys), [key]) == Without(pool, keys + [key])
  {
    if pool != [] {
      var init := pool[..|pool| - 1];
      var e := pool[|pool| - 1];
      WithoutSnoc(init, keys, key);
      WithoutAppend(Without(init, keys), if KeyOf(e) in keys then [] else [e], [key]);
    }
  }

  /** The removal loop over the collected keys (the corrected form, see README "Findings"). */
  method RemoveByKeys(elements: seq<OsmElement>, removeKeys: seq<(string, int)>) returns (rest: seq<OsmElement>)
    ensures rest == Without(elements, removeKeys)
  {
    rest := elements;
    assert Without(elements, []) == elements by {
      WithoutNone(elements);
    }
    for n := 0 to |removeKeys|
      invariant rest == Without(elements, removeKeys[..n])
    {
      WithoutSnoc(elements, removeKeys[..n], removeKeys[n]);
      assert removeKeys[..n] + [removeKeys[n]] == removeKeys[..n + 1];
      rest := RemoveKey(rest, removeKeys[n]);
    }
    assert removeKeys[..|removeKeys|] == removeKeys;
  }

  lemma {:induction false} WithoutNone(pool: seq<OsmElement>)
    ensures Without(pool, []) == pool
  {
    if pool != [] {
      WithoutNone(pool[..|pool| - 1]);
    }
  }

  /** The body of the sweep for one VVR stop. */
  method MatchOneStop(
    mbs: seq<MatchedBusStop>, elements: seq<OsmElement>, oneBusStop: VvrBusStop, searchWord: string,
    cities: seq<string>, search: seq<string>, replace: seq<string>, ignore: seq<string>)
    returns (mbs': seq<MatchedBusStop>, elements': seq<OsmElement>)
    requires |search| == |replace|
    ensures SweepState(mbs', elements')
      == Step(SweepState(mbs, elements), Listing(oneBusStop, searchWord), cities, search, replace, ignore)
  {
    var oneMatch := MatchedBusStop(oneBusStop.value, oneBusStop.id, oneBusStop.linien, "", []);
    var vvrIsDuplicate := IsVvrDuplicate(mbs, oneMatch.vvrId);
    var vvrIsSpecialDestination := IsVvrSpecialDestination(oneMatch.name, ignore);
    mbs', elements' := mbs, elements;
    if !vvrIsDuplicate && !vvrIsSpecialDestination {
      oneMatch := oneMatch.(city := searchWord);
      var matched, removeKeys := CollectMatches(elements, oneMatch.name, cities, search, replace);
      oneMatch := oneMatch.(elements := matched);
      elements' := RemoveByKeys(elements, removeKeys);
      mbs' := mbs + [oneMatch];
    }
  }

  /** The inner sweep loop over the stops of one answer. */
  method MatchAnswer(
    st: SweepState, c: VvrCity, cities: seq<string>, search: seq<string>, replace: seq<string>, ignore: seq<string>)
    returns (st': SweepState)
    requires |search| == |replace|
    ensures st' == SweepAll(st, CityListings(c), cities, search, replace, ignore)
  {
    st' := st;
    for k := 0 to |c.result|
      invariant st' == SweepAll(st, CityListings(c)[..k], cities, search, replace, ignore)
    {
      CityListingsSnoc(c, k);
      assert (CityListings(c)[..k + 1])[..k] == CityListings(c)[..k];
      var mbs, elements := MatchOneStop(st'.mbs, st'.pool, c.result[k], c.searchWord, cities, search, replace, ignore);
      st' := SweepState(mbs, elements);
    }
    assert CityListings(c)[..|c.result|] == CityListings(c);
  }

  /**
   * The sweep over all VVR stops. `ignore` is the list of excluded stop
   * names (Constants.IgnoreVvrStops in the program).
   */
  method MatchVvrWithOsm(
    vvr: VvrData, elements: seq<OsmElement>, cities: seq<string>, search: seq<string>, replace: seq<string>, ignore: seq<string>)
    returns (mbs: seq<MatchedBusStop>, remaining: seq<OsmElement>)
    requires |search| == |replace|
    ensures SweepState(mbs, remaining)
      == SweepAll(SweepState([], elements), Listings(vvr.cityResults), cities, search, replace, ignore)
  {
    var cr := vvr.cityResults;
    var st := SweepState([], elements);
    for i := 0 to |cr|
      invariant st == SweepAll(SweepState([], elements), Listings(cr[..i]), cities, search, replace, ignore)
    {
      ListingsSnoc(cr, i);
      SweepAllAppend(SweepState([], elements), Listings(cr[..i]), CityListings(cr[i]), cities, search, replace, ignore);
      st := MatchAnswer(st, cr[i], cities, search, replace, ignore);
    }
    assert cr[..|cr|] == cr;
    mbs, remaining := st.mbs, st.pool;
  }

  // ---------------------------------------------------------------------
  // What the sweep keeps true

  /** All OSM elements held by the groups, group after group. */
  function Flatten(mbs: seq<MatchedBusStop>): seq<OsmElement>
  {
    if mbs == [] then [] else Flatten(mbs[..|mbs| - 1]) + mbs[|mbs| - 1].elements
  }

  lemma FlattenSnoc(mbs: seq<MatchedBusStop>, g: MatchedBusStop)
    ensures Flatten(mbs + [g]) == Flatten(mbs) + g.elements
  {
    assert (mbs + [g])[..|mbs|] == mbs;
  }

  lemma {:induction false} MatchedInMembership(pool: seq<OsmElement>, name: string, cities: seq<string>, search: seq<string>, replace: seq<string>, e: OsmElement)
    requires |search| == |replace|
    ensures e in MatchedIn(pool, name, cities, search, replace) <==> e in pool && Matches(e.tags.name, name, cities, search, replace)
  {
    if pool != [] {
      MatchedInMembership(pool[..|pool| - 1], name, cities, search, replace, e);
      assert pool == pool[..|pool| - 1] + [pool[|pool| - 1]];
    }
  }

  lemma {:induction false} UnmatchedInMembership(pool: seq<OsmElement>, name: string, cities: seq<string>, search: seq<string>, replace: seq<string>, e: OsmElement)
    requires |search| == |replace|
    ensures e in UnmatchedIn(pool, name, cities, search, replace) <==> e in pool && !Matches(e.tags.name, name, cities, search, replace)
  {
    if pool != [] {
      UnmatchedInMembership(pool[..|pool| - 1], name, cities, search, replace, e);
      assert pool == pool[..|pool| - 1] + [pool[|pool| - 1]];
    }
  }

  /** Every element of the pool goes to exactly one side. */
  lemma {:induction false} MatchPartition(pool: seq<OsmElement>, name: string, cities: seq<string>, search: seq<string>, replace: seq<string>)
    requires |search| == |replace|
    ensures multiset(pool) == multiset(MatchedIn(pool, name, cities, search, replace)) + multiset(UnmatchedIn(pool, name, cities, search, replace))
  {
    if pool != [] {
      var init, e := pool[..|pool| - 1], pool[|pool| - 1];
      MatchPartition(init, name, cities, search, replace);
      assert pool == init + [e];
      var m := Matches(e.tags.name, name, cities, search, replace);
      assert MatchedIn(pool, name, cities, search, replace) == MatchedIn(init, name, cities, search, replace) + (if m then [e] else []);
      assert UnmatchedIn(pool, name, cities, search, replace) == UnmatchedIn(init, name, cities, search, replace) + (if m then [] else [e]);
      SplitStep(init, e, MatchedIn(init, name, cities, search, replace), UnmatchedIn(init, name, cities, search, replace), m);
    }
  }

  /** Sending one more element to one side of a split keeps the split. */
  lemma SplitStep(init: seq<OsmElement>, e: OsmElement, mi: seq<OsmElement>, ui: seq<OsmElement>, m: bool)
    requires multiset(init) == multiset(mi) + multiset(ui)
    ensures multiset(init + [e]) == multiset(mi + (if m then [e] else [])) + multiset(ui + (if m then [] else [e]))
  {
  }

  lemma {:induction false} UnmatchedUniqueKeys(pool: seq<OsmElement>, name: string, cities: seq<string>, search: seq<string>, replace: seq<string>)
    requires |search| == |replace|
    requires UniqueKeys(pool)
    ensures UniqueKeys(UnmatchedIn(pool, name, cities, search, replace))
  {
    if pool != [] {
      var init := pool[..|pool| - 1];
      var e := pool[|pool| - 1];
      UnmatchedUniqueKeys(init, name, cities, search, replace);
      var u := UnmatchedIn(init, name, cities, search, replace);
      forall i | 0 <= i < |u| ensures KeyOf(u[i]) != KeyOf(e) {
        UnmatchedInMembership(init, name, cities, search, replace, u[i]);
        var j :| 0 <= j < |init| && init[j] == u[i];
        assert pool[j] == u[i];
      }
    }
  }

  /** Removing by a list of keys keeps exactly the unmatched elements when the list marks exactly the matched ones. */
  lemma {:induction false} WithoutExact(pool: seq<OsmElement>, keys: seq<(string, int)>, name: string, cities: seq<string>, search: seq<string>, replace: seq<string>)
    requires |search| == |replace|
    requires forall j :: 0 <= j < |pool| ==> (KeyOf(pool[j]) in keys <==> Matches(pool[j].tags.name, name, cities, search, replace))
    ensures Without(pool, keys) == UnmatchedIn(pool, name, cities, search, replace)
  {
    if pool != [] {
      var init := pool[..|pool| - 1];
      forall j | 0 <= j < |init| ensures KeyOf(init[j]) in keys <==> Matches(init[j].tags.name, name, cities, search, replace) {
        assert init[j] == pool[j];
      }
      WithoutExact(init, keys, name, cities, search, replace);
    }
  }

  /** With unique (Type, ID) keys, removing the keys of the matched elements removes exactly those. */
  lemma RemoveMatched(pool: seq<OsmElement>, name: string, cities: seq<string>, search: seq<string>, replace: seq<string>)
    requires |search| == |replace|
    requires UniqueKeys(pool)
    ensures Without(pool, Keys(MatchedIn(pool, name, cities, search, replace))) == UnmatchedIn(pool, name, cities, search, replace)
  {
    var m := MatchedIn(pool, name, cities, search, replace);
    var ks := Keys(m);
    forall j | 0 <= j < |pool| ensures KeyOf(pool[j]) in ks <==> Matches(pool[j].tags.name, name, cities, search, replace) {
      MatchedInMembership(pool, name, cities, search, replace, pool[j]);
      if Matches(pool[j].tags.name, name, cities, search, replace) {
        var i :| 0 <= i < |m| && m[i] == pool[j];
        assert ks[i] == KeyOf(pool[j]);
      }
      if KeyOf(pool[j]) in ks {
        var i :| 0 <= i < |ks| && ks[i] == KeyOf(pool[j]);
        MatchedInMembership(pool, name, cities, search, replace, m[i]);
        var j' :| 0 <= j' < |pool| && pool[j'] == m[i];
        assert j' == j by {
          assert KeyOf(pool[j']) == KeyOf(pool[j]);
        }
      }
    }
    WithoutExact(pool, ks, name, cities, search, replace);
  }

  /**
   * The invariant of the sweep, for the pool it started from: no element is
   * lost or copied, keys stay unique, every group holds only elements that
   * match its name and no element left in the pool matches a group.
   */
  ghost predicate SweepInv(st: SweepState, pool0: seq<OsmElement>, cities: seq<string>, search: seq<string>, replace: seq<string>)
    requires |search| == |replace|
  {
    && multiset(pool0) == multiset(st.pool) + multiset(Flatten(st.mbs))
    && UniqueKeys(st.pool)
    && (forall g, e :: 0 <= g < |st.mbs| && e in st.mbs[g].elements ==> Matches(e.tags.name, st.mbs[g].name, cities, search, replace))
    && (forall g, e :: 0 <= g < |st.mbs| && e in st.pool ==> !Matches(e.tags.name, st.mbs[g].name, cities, search, replace))
  }

  lemma StepKeepsInv(st: SweepState, l: Listing, pool0: seq<OsmElement>, cities: seq<string>, search: seq<string>, replace: seq<string>, ignore: seq<string>)
    requires |search| == |replace|
    requires SweepInv(st, pool0, cities, search, replace)
    ensures SweepInv(Step(st, l, cities, search, replace, ignore), pool0, cities, search, replace)
  {
    if !(IsDuplicate(st.mbs, l.stop.id) || IsSpecialDestination(l.stop.value, ignore)) {
      var name := l.stop.value;
      var matched := MatchedIn(st.pool, name, cities, search, replace);
      var g := MatchedBusStop(name, l.stop.id, l.stop.linien, l.searchWord, matched);
      var st' := Step(st, l, cities, search, replace, ignore);
      RemoveMatched(st.pool, name, cities, search, replace);
      assert st'.pool == UnmatchedIn(st.pool, name, cities, search, replace);
      assert st'.mbs == st.mbs + [g];
      FlattenSnoc(st.mbs, g);
      MatchPartition(st.pool, name, cities, search, replace);
      UnmatchedUniqueKeys(st.pool, name, cities, search, replace);
      forall k, e | 0 <= k < |st'.mbs| && e in st'.mbs[k].elements
        ensures Matches(e.tags.name, st'.mbs[k].name, cities, search, replace)
      {
        if k == |st.mbs| {
          MatchedInMembership(st.pool, name, cities, search, replace, e);
        } else {
          assert st'.mbs[k] == st.mbs[k];
        }
      }
      forall k, e | 0 <= k < |st'.mbs| && e in st'.pool
        ensures !Matches(e.tags.name, st'.mbs[k].name, cities, search, replace)
      {
        UnmatchedInMembership(st.pool, name, cities, search, replace, e);
        if k < |st.mbs| {
          assert st'.mbs[k] == st.mbs[k];
        }
      }
    }
  }

  lemma {:induction false} SweepAllKeepsInv(pool0: seq<OsmElement>, ls: seq<Listing>, cities: seq<string>, search: seq<string>, replace: seq<string>, ignore: seq<string>)
    requires |search| == |replace|
    requires UniqueKeys(pool0)
    ensures SweepInv(SweepAll(SweepState([], pool0), ls, cities, search, replace, ignore), pool0, cities, search, replace)
  {
    if ls == [] {
      assert Flatten([]) == [];
    } else {
      SweepAllKeepsInv(pool0, ls[..|ls| - 1], cities, search, replace, ignore);
      StepKeepsInv(SweepAll(SweepState([], pool0), ls[..|ls| - 1], cities, search, replace, ignore), ls[|ls| - 1], pool0, cities, search, replace, ignore);
    }
  }

  /** The VVR stop a listing stands for is taken: some listing with its id is not excluded. */
  predicate Accepted(ls: seq<Listing>, id: string, ignore: seq<string>)
  {
    exists j :: 0 <= j < |ls| && ls[j].stop.id == id && !IsSpecialDestination(ls[j].stop.value, ignore)
  }

  lemma AcceptedSnoc(init: seq<Listing>, l: Listing, id: string, ignore: seq<string>)
    ensures Accepted(init + [l], id, ignore) <==>
      Accepted(init, id, ignore) || (l.stop.id == id && !IsSpecialDestination(l.stop.value, ignore))
  {
    var ls := init + [l];
    if Accepted(ls, id, ignore) {
      var j :| 0 <= j < |ls| && ls[j].stop.id == id && !IsSpecialDestination(ls[j].stop.value, ignore);
      if j < |init| {
        assert init[j] == ls[j];
      }
    }
    if Accepted(init, id, ignore) {
      var j :| 0 <= j < |init| && init[j].stop.id == id && !IsSpecialDestination(init[j].stop.value, ignore);
      assert ls[j] == init[j];
    }
    if l.stop.id == id && !IsSpecialDestination(l.stop.value, ignore) {
      assert ls[|init|] == l;
    }
  }

  predicate DistinctIds(mbs: seq<MatchedBusStop>)
  {
    forall i, j :: 0 <= i < j < |mbs| ==> mbs[i].vvrId != mbs[j].vvrId
  }

  /**
   * The VVR ids of the sweep's groups: an id gets a group exactly when some
   * listing with that id is not excluded, and it gets only one.
   */
  lemma {:induction false} SweepIds(pool0: seq<OsmElement>, ls: seq<Listing>, cities: seq<string>, search: seq<string>, replace: seq<string>, ignore: seq<string>)
    requires |search| == |replace|
    ensures var mbs := SweepAll(SweepState([], pool0), ls, cities, search, replace, ignore).mbs;
      && (forall id :: IsDuplicate(mbs, id) <==> Accepted(ls, id, ignore))
      && DistinctIds(mbs)
  {
    if ls != [] {
      var init := ls[..|ls| - 1];
      var l := ls[|ls| - 1];
      assert ls == init + [l];
      SweepIds(pool0, init, cities, search, replace, ignore);
      var st := SweepAll(SweepState([], pool0), init, cities, search, replace, ignore);
      var mbs := SweepAll(SweepState([], pool0), ls, cities, search, replace, ignore).mbs;
      if IsDuplicate(st.mbs, l.stop.id) || IsSpecialDestination(l.stop.value, ignore) {
        assert mbs == st.mbs;
        forall id ensures IsDuplicate(mbs, id) <==> Accepted(ls, id, ignore) {
          AcceptedSnoc(init, l, id, ignore);
        }
      } else {
        var g := mbs[|mbs| - 1];
        assert mbs == st.mbs + [g] && g.vvrId == l.stop.id;
        assert DistinctIds(st.mbs);
        forall i | 0 <= i < |st.mbs| ensures mbs[i].vvrId != g.vvrId {
          assert mbs[i] == st.mbs[i];
        }
        forall id ensures IsDuplicate(mbs, id) <==> Accepted(ls, id, ignore) {
          AcceptedSnoc(init, l, id, ignore);
          if IsDuplicate(st.mbs, id) {
            var p :| 0 <= p < |st.mbs| && st.mbs[p].vvrId == id;
            assert mbs[p].vvrId == id;
          }
          if IsDuplicate(mbs, id) && !IsDuplicate(st.mbs, id) {
            var p :| 0 <= p < |mbs| && mbs[p].vvrId == id;
            assert p == |st.mbs|;
          }
          if id == l.stop.id {
            assert mbs[|st.mbs|].vvrId == id;
          }
        }
      }
    }
  }

  /** Group i copies a listing's stop and search word, and its name is not excluded. */
  predicate CopiedFrom(mbs: seq<MatchedBusStop>, ls: seq<Listing>, ignore: seq<string>)
  {
    forall i :: 0 <= i < |mbs| ==>
      && !IsSpecialDestination(mbs[i].name, ignore)
      && Listing(VvrBusStop(mbs[i].vvrId, mbs[i].name, mbs[i].linien), mbs[i].city) in ls
  }

  /** Every group of the sweep copies the id, name, lines and search word of a listing that is not excluded. */
  lemma {:induction false} SweepProvenance(pool0: seq<OsmElement>, ls: seq<Listing>, cities: seq<string>, search: seq<string>, replace: seq<string>, ignore: seq<string>)
    requires |search| == |replace|
    ensures CopiedFrom(SweepAll(SweepState([], pool0), ls, cities, search, replace, ignore).mbs, ls, ignore)
  {
    if ls != [] {
      var init := ls[..|ls| - 1];
      var l := ls[|ls| - 1];
      assert ls == init + [l];
      SweepProvenance(pool0, init, cities, search, replace, ignore);
      var st := SweepAll(SweepState([], pool0), init, cities, search, replace, ignore);
      var mbs := SweepAll(SweepState([], pool0), ls, cities, search, replace, ignore).mbs;
      forall x | x in init ensures x in ls {
        var j :| 0 <= j < |init| && init[j] == x;
        assert ls[j] == x;
      }
      assert CopiedFrom(st.mbs, init, ignore);
      if IsDuplicate(st.mbs, l.stop.id) || IsSpecialDestination(l.stop.value, ignore) {
        assert mbs == st.mbs;
      } else {
        assert mbs == st.mbs + [mbs[|mbs| - 1]];
        assert Listing(VvrBusStop(mbs[|st.mbs|].vvrId, mbs[|st.mbs|].name, mbs[|st.mbs|].linien), mbs[|st.mbs|].city) == l;
      }
    }
  }

  // ---------------------------------------------------------------------
  // The removal loop as written (see README "Findings")

  /**
   * One pass of the inner removal loop of main.go as written: it compares the
   * numeric ID only, and after a splice the loop increment steps over the
   * element that moved into the freed position.
   */
  function RemoveIdAsWritten(pool: seq<OsmElement>, id: int): seq<OsmElement>
    decreases |pool|
  {
    if pool == [] then []
    else if pool[0].id == id then
      if |pool| == 1 then [] else [pool[1]] + RemoveIdAsWritten(pool[2..], id)
    else [pool[0]] + RemoveIdAsWritten(pool[1..], id)
  }

  function RemoveIdsAsWritten(pool: seq<OsmElement>, ids: seq<int>): seq<OsmElement>
  {
    if ids == [] then pool else RemoveIdAsWritten(RemoveIdsAsWritten(pool, ids[..|ids| - 1]), ids[|ids| - 1])
  }

  lemma AsWrittenKeep(rest: seq<OsmElement>, p: nat, id: int)
    requires p < |rest| && rest[p].id != id
    ensures rest[..p] + RemoveIdAsWritten(rest[p..], id) == rest[..p + 1] + RemoveIdAsWritten(rest[p + 1..], id)
  {
    assert rest[p..][1..] == rest[p + 1..];
    assert rest[..p + 1] == rest[..p] + [rest[p]];
  }

  lemma AsWrittenSplice(rest: seq<OsmElement>, p: nat, id: int)
    requires p < |rest| && rest[p].id == id
    ensures var spliced := rest[..p] + rest[p + 1..];
      && (p + 1 < |rest| ==> rest[..p] + RemoveIdAsWritten(rest[p..], id) == spliced[..p + 1] + RemoveIdAsWritten(spliced[p + 1..], id))
      && (p + 1 == |rest| ==> rest[..p] + RemoveIdAsWritten(rest[p..], id) == spliced)
  {
    var spliced := rest[..p] + rest[p + 1..];
    if p + 1 < |rest| {
      assert rest[p..][2..] == rest[p + 2..];
      assert spliced[..p + 1] == rest[..p] + [rest[p + 1]];
      assert spliced[p + 1..] == rest[p + 2..];
    } else {
      assert spliced == rest[..p];
      assert |rest[p..]| == 1;
    }
  }

  method RemoveIdPassAsWritten(elements: seq<OsmElement>, toDeleteOsmId: int) returns (rest: seq<OsmElement>)
    ensures rest == RemoveIdAsWritten(elements, toDeleteOsmId)
  {
    rest := elements;
    var p := 0;
    assert rest[p..] == elements;
    while p < |rest|
      invariant p <= |rest| + 1
      invariant p <= |rest| ==> RemoveIdAsWritten(elements, toDeleteOsmId) == rest[..p] + RemoveIdAsWritten(rest[p..], toDeleteOsmId)
      invariant p == |rest| + 1 ==> RemoveIdAsWritten(elements, toDeleteOsmId) == rest
      decreases |rest| + 1 - p
    {
      if rest[p].id == toDeleteOsmId {
        AsWrittenSplice(rest, p, toDeleteOsmId);
        rest := rest[..p] + rest[p + 1..];
      } else {
        AsWrittenKeep(rest, p, toDeleteOsmId);
      }
      p := p + 1;
    }
    if p == |rest| {
      assert rest[..p] == rest && rest[p..] == [];
    }
  }

  /** The removal loop of main.go as written, over the collected IDs. */
  method RemoveByIdAsWritten(elements: seq<OsmElement>, removeOsmElementsByID: seq<int>) returns (rest: seq<OsmElement>)
    ensures rest == RemoveIdsAsWritten(elements, removeOsmElementsByID)
  {
    rest := elements;
    for n := 0 to |removeOsmElementsByID|
      invariant rest == RemoveIdsAsWritten(elements, removeOsmElementsByID[..n])
    {
      assert removeOsmElementsByID[..n + 1][..n] == removeOsmElementsByID[..n];
      rest := RemoveIdPassAsWritten(rest, removeOsmElementsByID[n]);
    }
    assert removeOsmElementsByID[..|removeOsmElementsByID|] == removeOsmElementsByID;
  }

  /**
   * A way and a node may share the number 5. When only the node matches,
   * the loop as written removes the way (the first element with ID 5) and
   * keeps the node; removal by (Type, ID) removes the node and keeps the way.
   */
  lemma RemovalByIdCounterexample()
    ensures var way := OsmElement("way", 5, OsmTags("", "B", "", "", "", "", "", ""));
      var node := OsmElement("node", 5, OsmTags("", "A", "", "", "", "", "", ""));
      && RemoveIdsAsWritten([way, node], [node.id]) == [node]
      && Without([way, node], Keys([node])) == [way]
  {
    var way := OsmElement("way", 5, OsmTags("", "B", "", "", "", "", "", ""));
    var node := OsmElement("node", 5, OsmTags("", "A", "", "", "", "", "", ""));
    assert [way, node][1..] == [node];
    assert [way, node][..1] == [way];
    assert [way][..0] == [];
    assert RemoveIdAsWritten([way, node], 5) == [node];
    assert Keys([node]) == [("node", 5)];
    assert Without([way], [("node", 5)]) == [way];
  }

  // When the numeric IDs of the pool are all different, the loop as written
  // removes exactly the matched elements, like the removal by (Type, ID).

  /** The numeric IDs of `es`, in order (the removeOsmElementsByID list). */
  function Ids(es: seq<OsmElement>): (ids: seq<int>)
    ensures |ids| == |es| && forall i :: 0 <= i < |es| ==> ids[i] == es[i].id
  {
    seq(|es|, i requires 0 <= i < |es| => es[i].id)
  }

  predicate UniqueIds(pool: seq<OsmElement>)
  {
    forall i, j :: 0 <= i < j < |pool| ==> pool[i].id != pool[j].id
  }

  /** The elements of `pool` whose numeric ID is not listed, in pool order. */
  function WithoutIds(pool: seq<OsmElement>, ids: seq<int>): seq<OsmElement>
  {
    if pool == [] then []
    else
      var e := pool[|pool| - 1];
      WithoutIds(pool[..|pool| - 1], ids) + (if e.id in ids then [] else [e])
  }

  lemma {:induction false} WithoutIdsAppend(a: seq<OsmElement>, b: seq<OsmElement>, ids: seq<int>)
    ensures WithoutIds(a + b, ids) == WithoutIds(a, ids) + WithoutIds(b, ids)
  {
    if b == [] {
      assert a + b == a;
    } else {
      assert (a + b)[..|a + b| - 1] == a + b[..|b| - 1];
      WithoutIdsAppend(a, b[..|b| - 1], ids);
    }
  }

  lemma WithoutIdsCons(e: OsmElement, rest: seq<OsmElement>, ids: seq<int>)
    ensures WithoutIds([e] + rest, ids) == (if e.id in ids then [] else [e]) + WithoutIds(rest, ids)
  {
    WithoutIdsAppend([e], rest, ids);
    assert [e][..0] == [];
  }

  lemma {:induction false} WithoutIdsMembers(pool: seq<OsmElement>, ids: seq<int>, x: OsmElement)
    ensures x in WithoutIds(pool, ids) <==> x in pool && x.id !in ids
  {
    if pool != [] {
      WithoutIdsMembers(pool[..|pool| - 1], ids, x);
      assert pool == pool[..|pool| - 1] + [pool[|pool| - 1]];
    }
  }

  lemma {:induction false} WithoutIdsUnique(pool: seq<OsmElement>, ids: seq<int>)
    requires UniqueIds(pool)
    ensures UniqueIds(WithoutIds(pool, ids))
  {
    if pool != [] {
      var init, e := pool[..|pool| - 1], pool[|pool| - 1];
      WithoutIdsUnique(init, ids);
      var w := WithoutIds(init, ids);
      forall i | 0 <= i < |w| ensures w[i].id != e.id {
        WithoutIdsMembers(init, ids, w[i]);
        var j :| 0 <= j < |init| && init[j] == w[i];
        assert pool[j] == w[i];
      }
    }
  }

  lemma {:induction false} WithoutIdsSnoc(pool: seq<OsmElement>, ids: seq<int>, id: int)
    ensures WithoutIds(WithoutIds(pool, ids), [id]) == WithoutIds(pool, ids + [id])
  {
    if pool != [] {
      var init := pool[..|pool| - 1];
      var e := pool[|pool| - 1];
      WithoutIdsSnoc(init, ids, id);
      WithoutIdsAppend(WithoutIds(init, ids), if e.id in ids then [] else [e], [id]);
    }
  }

  /** With different IDs the skipped element never carries the ID, so one pass drops exactly that ID. */
  lemma {:induction false} AsWrittenPassUnique(pool: seq<OsmElement>, id: int)
    requires UniqueIds(pool)
    ensures RemoveIdAsWritten(pool, id) == WithoutIds(pool, [id])
    decreases |pool|
  {
    if pool != [] {
      assert pool == [pool[0]] + pool[1..];
      WithoutIdsCons(pool[0], pool[1..], [id]);
      if pool[0].id == id && |pool| > 1 {
        var rest := pool[2..];
        assert pool[1..] == [pool[1]] + rest;
        assert pool[1].id != id by {
          assert pool[0].id != pool[1].id;
        }
        WithoutIdsCons(pool[1], rest, [id]);
        UniqueIdsSuffix(pool, 2);
        AsWrittenPassUnique(rest, id);
      } else if pool[0].id != id {
        UniqueIdsSuffix(pool, 1);
        AsWrittenPassUnique(pool[1..], id);
      }
    }
  }

  lemma UniqueIdsSuffix(pool: seq<OsmElement>, n: nat)
    requires UniqueIds(pool) && n <= |pool|
    ensures UniqueIds(pool[n..])
  {
    forall i, j | 0 <= i < j < |pool| - n
      ensures pool[n..][i].id != pool[n..][j].id
    {
      assert pool[n..][i] == pool[n + i] && pool[n..][j] == pool[n + j];
    }
  }

  /** With different IDs, the whole loop as written drops exactly the listed IDs. */
  lemma {:induction false} AsWrittenUnique(pool: seq<OsmElement>, ids: seq<int>)
    requires UniqueIds(pool)
    ensures RemoveIdsAsWritten(pool, ids) == WithoutIds(pool, ids)
  {
    if ids != [] {
      var init, id := ids[..|ids| - 1], ids[|ids| - 1];
      AsWrittenUnique(pool, init);
      WithoutIdsUnique(pool, init);
      AsWrittenPassUnique(WithoutIds(pool, init), id);
      WithoutIdsSnoc(pool, init, id);
      assert init + [id] == ids;
    } else {
      WithoutNoIds(pool);
    }
  }

  lemma {:induction false} WithoutNoIds(pool: seq<OsmElement>)
    ensures WithoutIds(pool, []) == pool
  {
    if pool != [] {
      WithoutNoIds(pool[..|pool| - 1]);
    }
  }

  lemma {:induction false} WithoutIdsExact(pool: seq<OsmElement>, ids: seq<int>, name: string, cities: seq<string>, search: seq<string>, replace: seq<string>)
    requires |search| == |replace|
    requires forall j :: 0 <= j < |pool| ==> (pool[j].id in ids <==> Matches(pool[j].tags.name, name, cities, search, replace))
    ensures WithoutIds(pool, ids) == UnmatchedIn(pool, name, cities, search, replace)
  {
    if pool != [] {
      var init := pool[..|pool| - 1];
      forall j | 0 <= j < |init| ensures init[j].id in ids <==> Matches(init[j].tags.name, name, cities, search, replace) {
        assert init[j] == pool[j];
      }
      WithoutIdsExact(init, ids, name, cities, search, replace);
    }
  }

  /**
   * When no two elements of the pool share a numeric ID, the removal loop as
   * written leaves exactly the unmatched elements in order, the same as the
   * removal by (Type, ID) that the rest of the model uses.
   */
  lemma AsWrittenAgrees(pool: seq<OsmElement>, name: string, cities: seq<string>, search: seq<string>, replace: seq<string>)
    requires |search| == |replace|
    requires UniqueIds(pool)
    ensures var matched := MatchedIn(pool, name, cities, search, replace);
      && RemoveIdsAsWritten(pool, Ids(matched)) == UnmatchedIn(pool, name, cities, search, replace)
      && RemoveIdsAsWritten(pool, Ids(matched)) == Without(pool, Keys(matched))
  {
    var m := MatchedIn(pool, name, cities, search, replace);
    var ids := Ids(m);
    forall j | 0 <= j < |pool| ensures pool[j].id in ids <==> Matches(pool[j].tags.name, name, cities, search, replace) {
      MatchedInMembership(pool, name, cities, search, replace, pool[j]);
      if Matches(pool[j].tags.name, name, cities, search, replace) {
        var i :| 0 <= i < |m| && m[i] == pool[j];
        assert ids[i] == pool[j].id;
      }
      if pool[j].id in ids {
        var i :| 0 <= i < |ids| && ids[i] == pool[j].id;
        MatchedInMembership(pool, name, cities, search, replace, m[i]);
        var j' :| 0 <= j' < |pool| && pool[j'] == m[i];
        assert j' == j by {
          assert pool[j'].id == pool[j].id;
        }
      }
    }
    WithoutIdsExact(pool, ids, name, cities, search, replace);
    AsWrittenUnique(pool, ids);
    RemoveMatched(pool, name, cities, search, replace);
  }

  // ---------------------------------------------------------------------
  // Leftover grouping (main.go:222-233)

  /**
   * One leftover element joins the first group with exactly its name, or
   * opens a new group with that name and no VVR stop.
   */
  function GroupOne(mbs: seq<MatchedBusStop>, e: OsmElement): seq<MatchedBusStop>
  {
    var index := NameIndex(mbs, e.tags.name);
    if index >= 0 then mbs[index := mbs[index].(elements := mbs[index].elements + [e])]
    else mbs + [MatchedBusStop(e.tags.name, "", "", "", [e])]
  }

  function GroupAll(mbs: seq<MatchedBusStop>, pool: seq<OsmElement>): seq<MatchedBusStop>
  {
    if pool == [] then mbs else GroupOne(GroupAll(mbs, pool[..|pool| - 1]), pool[|pool| - 1])
  }

  /** The loop that appends the remaining OSM elements. */
  method AppendRemaining(mbs: seq<MatchedBusStop>, elements: seq<OsmElement>) returns (groups: seq<MatchedBusStop>)
    ensures groups == GroupAll(mbs, elements)
  {
    groups := mbs;
    for i := 0 to |elements|
      invariant groups == GroupAll(mbs, elements[..i])
    {
      assert elements[..i + 1][..i] == elements[..i];
      var index := DoesNameExistAlreadyInArray(groups, elements[i].tags.name);
      if index >= 0 {
        groups := groups[index := groups[index].(elements := groups[index].elements + [elements[i]])];
      } else {
        var notInVvrButInOsm := MatchedBusStop(elements[i].tags.name, "", "", "", [elements[i]]);
        groups := groups + [notInVvrButInOsm];
      }
    }
    assert elements[..|elements|] == elements;
  }

  lemma {:induction false} FlattenAppendTo(mbs: seq<MatchedBusStop>, i: nat, e: OsmElement)
    requires i < |mbs|
    ensures multiset(Flatten(mbs[i := mbs[i].(elements := mbs[i].elements + [e])])) == multiset(Flatten(mbs)) + multiset{e}
  {
    var u := mbs[i := mbs[i].(elements := mbs[i].elements + [e])];
    var n := |mbs| - 1;
    assert Flatten(mbs) == Flatten(mbs[..n]) + mbs[n].elements;
    assert Flatten(u) == Flatten(u[..n]) + u[n].elements;
    if i == n {
      assert u[..n] == mbs[..n];
      assert u[n].elements == mbs[n].elements + [e];
    } else {
      assert u[..n] == mbs[..n][i := mbs[i].(elements := mbs[i].elements + [e])];
      assert u[n] == mbs[n];
      FlattenAppendTo(mbs[..n], i, e);
    }
  }

  /** Grouping loses and copies nothing: the groups end up holding the leftovers in addition. */
  lemma {:induction false} GroupAllMultiset(mbs: seq<MatchedBusStop>, pool: seq<OsmElement>)
    ensures multiset(Flatten(GroupAll(mbs, pool))) == multiset(Flatten(mbs)) + multiset(pool)
  {
    if pool != [] {
      var init := pool[..|pool| - 1];
      var e := pool[|pool| - 1];
      var r := GroupAll(mbs, init);
      GroupAllMultiset(mbs, init);
      GroupOneMultiset(r, e);
      assert GroupAll(mbs, pool) == GroupOne(r, e);
      MultisetSnoc(pool);
    }
  }

  lemma MultisetSnoc(pool: seq<OsmElement>)
    requires pool != []
    ensures multiset(pool) == multiset(pool[..|pool| - 1]) + multiset{pool[|pool| - 1]}
  {
    assert pool == pool[..|pool| - 1] + [pool[|pool| - 1]];
  }

  lemma GroupOneMultiset(r: seq<MatchedBusStop>, e: OsmElement)
    ensures multiset(Flatten(GroupOne(r, e))) == multiset(Flatten(r)) + multiset{e}
  {
    var index := NameIndex(r, e.tags.name);
    if index >= 0 {
      FlattenAppendTo(r, index, e);
    } else {
      FlattenSnoc(r, MatchedBusStop(e.tags.name, "", "", "", [e]));
    }
  }

  /** The groups before grouping keep their stop and may only gain elements with exactly their name. */
  ghost predicate KeepsGroups(mbs: seq<MatchedBusStop>, r: seq<MatchedBusStop>)
  {
    && |mbs| <= |r|
    && forall i :: 0 <= i < |mbs| ==>
      && r[i].(elements := mbs[i].elements) == mbs[i]
      && mbs[i].elements <= r[i].elements
      && forall k :: |mbs[i].elements| <= k < |r[i].elements| ==> r[i].elements[k].tags.name == r[i].name
  }

  /**
   * The groups grouping adds have no VVR stop, a name no earlier group has,
   * and only elements with exactly that name.
   */
  ghost predicate NewGroups(mbs: seq<MatchedBusStop>, r: seq<MatchedBusStop>)
    requires |mbs| <= |r|
  {
    forall i :: |mbs| <= i < |r| ==>
      && r[i].vvrId == "" && r[i].linien == "" && r[i].city == "" && r[i].elements != []
      && (forall k :: 0 <= k < |r[i].elements| ==> r[i].elements[k].tags.name == r[i].name)
      && (forall j :: 0 <= j < i ==> r[j].name != r[i].name)
  }

  lemma GroupOneShape(mbs: seq<MatchedBusStop>, r: seq<MatchedBusStop>, e: OsmElement)
    requires KeepsGroups(mbs, r) && NewGroups(mbs, r)
    ensures KeepsGroups(mbs, GroupOne(r, e)) && NewGroups(mbs, GroupOne(r, e))
  {
    var r' := GroupOne(r, e);
    var index := NameIndex(r, e.tags.name);
    if index >= 0 {
      forall i | 0 <= i < |mbs|
        ensures r'[i].(elements := mbs[i].elements) == mbs[i] && mbs[i].elements <= r'[i].elements
        ensures forall k :: |mbs[i].elements| <= k < |r'[i].elements| ==> r'[i].elements[k].tags.name == r'[i].name
      {
        if i == index {
          assert r'[i].elements == r[i].elements + [e];
        }
      }
      forall i | |mbs| <= i < |r'|
        ensures r'[i].vvrId == "" && r'[i].linien == "" && r'[i].city == "" && r'[i].elements != []
        ensures forall k :: 0 <= k < |r'[i].elements| ==> r'[i].elements[k].tags.name == r'[i].name
        ensures forall j :: 0 <= j < i ==> r'[j].name != r'[i].name
      {
        if i == index {
          assert r'[i].elements == r[i].elements + [e];
        }
      }
    } else {
      assert r' == r + [MatchedBusStop(e.tags.name, "", "", "", [e])];
    }
  }

  lemma {:induction false} GroupAllShape(mbs: seq<MatchedBusStop>, pool: seq<OsmElement>)
    ensures KeepsGroups(mbs, GroupAll(mbs, pool)) && NewGroups(mbs, GroupAll(mbs, pool))
  {
    if pool != [] {
      GroupAllShape(mbs, pool[..|pool| - 1]);
      GroupOneShape(mbs, GroupAll(mbs, pool[..|pool| - 1]), pool[|pool| - 1]);
    }
  }

  /** The groups grouping produces keep the names of the groups before it. */
  lemma NameIndexKept(r: seq<MatchedBusStop>, r': seq<MatchedBusStop>, name: string)
    requires |r| <= |r'| && forall i :: 0 <= i < |r| ==> r'[i].name == r[i].name
    requires NameIndex(r, name) >= 0
    ensures NameIndex(r', name) == NameIndex(r, name)
  {
    var x := NameIndex(r, name);
    var y := NameIndex(r', name);
    assert r'[x].name == name;
  }

  /** The leftover just grouped sits in the first group with its name. */
  lemma GroupOnePlaces(r: seq<MatchedBusStop>, e: OsmElement)
    ensures var r' := GroupOne(r, e);
      Grows(r, r') && Placed(r', e)
  {
    var r' := GroupOne(r, e);
    var index := NameIndex(r, e.tags.name);
    if index >= 0 {
      NameIndexKept(r, r', e.tags.name);
      assert r'[index].elements == r[index].elements + [e];
    } else {
      assert r' == r + [MatchedBusStop(e.tags.name, "", "", "", [e])];
      assert r'[|r|].name == e.tags.name;
    }
  }

  /** e sits in the first group that carries exactly its name. */
  predicate Placed(r: seq<MatchedBusStop>, e: OsmElement)
  {
    NameIndex(r, e.tags.name) >= 0 && e in r[NameIndex(r, e.tags.name)].elements
  }

  /** r' keeps the groups of r, in order and with their names, and only adds elements. */
  predicate Grows(r: seq<MatchedBusStop>, r': seq<MatchedBusStop>)
  {
    |r| <= |r'| && forall i :: 0 <= i < |r| ==> r'[i].name == r[i].name && r[i].elements <= r'[i].elements
  }

  /** Every leftover element ends up in the first group that carries exactly its name. */
  lemma {:induction false} GroupAllPlaces(mbs: seq<MatchedBusStop>, pool: seq<OsmElement>)
    ensures var r := GroupAll(mbs, pool);
      forall j :: 0 <= j < |pool| ==> Placed(r, pool[j])
  {
    if pool != [] {
      var init := pool[..|pool| - 1];
      var e := pool[|pool| - 1];
      GroupAllPlaces(mbs, init);
      var r := GroupAll(mbs, init);
      var r' := GroupOne(r, e);
      GroupOnePlaces(r, e);
      assert pool == init + [e];
      AllPlacedStep(r, r', init, e);
    }
  }

  lemma AllPlacedStep(r: seq<MatchedBusStop>, r': seq<MatchedBusStop>, init: seq<OsmElement>, e: OsmElement)
    requires Grows(r, r') && Placed(r', e)
    requires forall j :: 0 <= j < |init| ==> Placed(r, init[j])
    ensures forall j :: 0 <= j < |init + [e]| ==> Placed(r', (init + [e])[j])
  {
    forall j | 0 <= j < |init + [e]|
      ensures Placed(r', (init + [e])[j])
    {
      if j < |init| {
        assert (init + [e])[j] == init[j];
        PlacedKept(r, r', init[j]);
      } else {
        assert (init + [e])[j] == e;
      }
    }
  }

  /** An element placed in the first group with its name stays there when groups only grow. */
  lemma PlacedKept(r: seq<MatchedBusStop>, r': seq<MatchedBusStop>, e: OsmElement)
    requires Grows(r, r') && Placed(r, e)
    ensures Placed(r', e)
  {
    var x := NameIndex(r, e.tags.name);
    NameIndexKept(r, r', e.tags.name);
    var k :| 0 <= k < |r[x].elements| && r[x].elements[k] == e;
    assert r'[x].elements[k] == e;
  }

  // ---------------------------------------------------------------------
  // The whole reconciliation (main.go:104-233)

  /** The groups of the report, built with the program's tables. */
  function Reconciled(vvr: VvrData, pool0: seq<OsmElement>): SweepState
  {
    TablesAgree();
    var cities := CitiesOf(Listings(vvr.cityResults));
    var st := SweepAll(SweepState([], pool0), Listings(vvr.cityResults), cities, SearchStopName, ReplaceStopName, IgnoreVvrStops);
    SweepState(GroupAll(st.mbs, st.pool), st.pool)
  }

  /**
   * City vocabulary, sweep and grouping in sequence. Besides the groups it
   * returns the two counts the statistics use: the elements before the sweep
   * and those left after it.
   */
  method Reconcile(vvr: VvrData, elements: seq<OsmElement>)
    returns (mbs: seq<MatchedBusStop>, totalOsmElements: nat, remainingOsmElements: nat)
    ensures mbs == Reconciled(vvr, elements).mbs
    ensures totalOsmElements == |elements| && remainingOsmElements == |Reconciled(vvr, elements).pool|
  {
    TablesAgree();
    var extractedCities := ExtractCities(vvr);
    totalOsmElements := |elements|;
    var remaining;
    mbs, remaining := MatchVvrWithOsm(vvr, elements, extractedCities, SearchStopName, ReplaceStopName, IgnoreVvrStops);
    remainingOsmElements := |remaining|;
    mbs := AppendRemaining(mbs, remaining);
  }

  lemma {:induction false} UniqueKeysOnce(pool: seq<OsmElement>, e: OsmElement)
    requires UniqueKeys(pool)
    ensures multiset(pool)[e] <= 1
  {
    if pool != [] {
      var init := pool[..|pool| - 1];
      UniqueKeysOnce(init, e);
      MultisetSnoc(pool);
    }
  }

  /**
   * With unique (Type, ID) keys every OSM element ends up in exactly one
   * group: the groups hold the pool as a multiset, each element once, and
   * the elements the sweep took are those it removed from the pool.
   */
  lemma ReconcileKeepsEveryElement(vvr: VvrData, pool0: seq<OsmElement>)
    requires UniqueKeys(pool0)
    ensures multiset(Flatten(Reconciled(vvr, pool0).mbs)) == multiset(pool0)
    ensures |Flatten(Reconciled(vvr, pool0).mbs)| == |pool0|
    ensures forall e :: multiset(Flatten(Reconciled(vvr, pool0).mbs))[e] <= 1
    ensures var st := SweepAll(SweepState([], pool0), Listings(vvr.cityResults), CitiesOf(Listings(vvr.cityResults)), SearchStopName, ReplaceStopName, IgnoreVvrStops);
      |pool0| - |st.pool| == |Flatten(st.mbs)|
  {
    TablesAgree();
    var ls := Listings(vvr.cityResults);
    var cities := CitiesOf(ls);
    var st := SweepAll(SweepState([], pool0), ls, cities, SearchStopName, ReplaceStopName, IgnoreVvrStops);
    SweepAllKeepsInv(pool0, ls, cities, SearchStopName, ReplaceStopName, IgnoreVvrStops);
    GroupAllMultiset(st.mbs, st.pool);
    assert |multiset(pool0)| == |multiset(st.pool)| + |multiset(Flatten(st.mbs))|;
    forall e ensures multiset(Flatten(Reconciled(vvr, pool0).mbs))[e] <= 1 {
      UniqueKeysOnce(pool0, e);
    }
  }
}
