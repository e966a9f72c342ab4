# VVR–OSM bus-stop reconciliation, modelled in Dafny

This project models the core of *vvr-haltestellen-abgleich*. That Go program compares the bus stops of the Verkehrsgesellschaft Vorpommern-Rügen (VVR) with the bus-stop elements of OpenStreetMap (OSM) and writes an HTML report. The model covers these parts:

- **Search words and cache** (`cache.dfy`, main.go:52-98).
  - The 900 two-letter search words.
  - For each word, the choice between the cached VVR answer and a fresh request. The clock (`now`) and the request (`fetch`) are parameters.
- **Lookups, matcher and route_ref** (`vvr_osm.dfy`, vvr-osm.go).
  - `getCityResultFromData` and `doesNameExistAlreadyInArray`: linear searches with early return, each a method proved against a first-index function.
  - `doesOsmElementMatchVvrElement`. Both names are lower-cased and run through the ordered 25-rule replace table. They match when the cleaned names are equal, or when the cleaned OSM name prefixed with a lower-cased city and a blank equals the cleaned VVR name.
  - `convertLinienToRouteRef`. A scanner for the expression `<span.*?>([0-9]+)</span.*?>` takes the digits out of the HTML line list. `strconv.Atoi` is limited to the 64-bit range, `sort.Ints` becomes an insertion sort, and the numbers are joined with `;`.
- **Reconciler** (`reconcile.dfy`, main.go:104-233).
  - The city vocabulary: the text before the first comma of each VVR name, with no duplicates.
  - The sweep over all VVR listings:
    - duplicate VVR ids and excluded names are skipped;
    - each remaining stop takes every OSM element of the pool that matches its name;
    - the taken elements leave the pool.
  - The grouping of the leftover elements by exact name.
- **Validator** (`validate.dfy`, main.go:235-353).
  - One report row per group.
  - The ignore rule for foreign operators and its per-operator counters.
  - The network, network:guid, network:short, route_ref and operator checks.
  - The role counters and the statistics block.
  - The OSM reference column is kept as a sequence of notes (`Types.Note`). `Validate.Render` turns it into the HTML text the program writes.
- **Report** (`report.dfy`).
  - What a row and the statistics say about the OSM elements.
  - The whole run from the VVR data and the OSM elements to the report.
- **Support modules.**
  - `text.dfy`: the parts of Go's `strings` and `strconv` that the program uses (`ToLower`, `ReplaceAll`, `Contains`, `Split`, `Itoa`, `Atoi`).
  - `constants.dfy`: the tables of contants.go.
  - `rule_order.dfy`: concrete spellings followed through the ordered 25-rule table (contants.go:81-83), showing which of them clean to the same name and therefore match.
  - `types.dfy`: the record types of types.go that the core reads.

Operations that change state step by step are methods with loops. Examples are the rule loop of the matcher, the removal loop, the group loop of the validator (which fills an `array` of rows) and the counter map. Each such method is proved equal to a specification function, and the properties are lemmas about those functions. The groups grown by `append` and the counter map are `seq` and `map` values that the methods reassign.

The model keeps these behaviours of the code as they are:

- **Tag check condition.** The network, network:guid and network:short checks run when the element is not a relation and is either not a stop position or a bus stop (`Validate.TagChecked`, main.go:277). So a stop position is checked only when it is also tagged as a bus stop.
- **City prefix.** The city is only lower-cased. It is not run through the replace table (vvr-osm.go:36).
- **Normalisation is not idempotent.** "strstrasseasse" becomes "strstrasse" after one pass and "strstr" after a second. No idempotence lemma is stated.
- **Element identifiers.** OSM numbers elements per type, so a node and a way may share a number. The removal loop compares the number only (main.go:203-210). See "Findings".
- **Empty names.** OSM elements without a name clean to "" and match each other (`VvrOsm.EmptyNameCleansToEmpty`). Leftovers without a name therefore share one group.
- **Leftovers.** A leftover element joins a VVR group that has exactly its name, not only a group made of leftovers (`Reconcile.GroupOne`).
- **network:short text.** The "instead of network:short" text has no `=` before the expected value (main.go:296). `Validate.WarningText` keeps that.
- **route_ref errors.** When the conversion fails, the error is logged and the empty route_ref is used, so the route_ref check is skipped for that element (main.go:301-312).

## Model

| member | source | states |
|---|---|---|
| Text.ToLowerHasNoUpper | vvr-osm.go:24-25 | after lower-casing, no character is an upper-case ASCII letter or Ä Ö Ü |
| Text.ToLowerIdempotent | vvr-osm.go:24-25 | lower-casing twice is lower-casing once |
| Text.ReplaceAllAbsent | vvr-osm.go:27-28 | a non-empty pattern that does not occur leaves the string unchanged |
| Text.ReplaceAllFirst | vvr-osm.go:27-28 | the text before the first occurrence is copied, the occurrence is replaced and replacement continues after it (leftmost, non-overlapping) |
| Text.ReplaceAllMissingChar | vvr-osm.go:27-28 | a pattern with a character the string lacks changes nothing |
| Text.BeforeFirst | main.go:109 | the result is the longest prefix of the string without the separator; it is all of the string or is followed by the separator |
| Text.SplitFirst | main.go:109 | the first field of `strings.Split` is the text before the first separator |
| Text.SplitCons | main.go:109 | splitting `x + sep + rest` gives `x` followed by the fields of `rest` |
| Text.AtoiItoa | vvr-osm.go:64 | reading back the decimal text of n succeeds with n exactly when n fits in the 64-bit int range, and fails otherwise |
| Text.AtoiByLength | vvr-osm.go:64 | a digit run of at most 18 digits always reads back as its value; one of 20 or more digits without a leading zero always fails |
| Text.DecimalValueOfItoa | vvr-osm.go:64-72 | reading back the decimal text of n gives n |
| Constants.TablesAgree | contants.go:82-83 | both halves of the normalisation table have 25 entries, so the matcher's length check passes |
| Constants.SearchPatternsLowerCase | contants.go:81-82 | every search pattern is already lower case |
| Constants.SearchPatternsNonEmpty | contants.go:82 | no search pattern is empty |
| Constants.AlphabetDistinct | contants.go:64 | the alphabet has 30 pairwise different one-letter entries |
| Constants.IgnoreCountersStartAtZero | contants.go:65-77 | every ignored-operator counter starts at 0 |
| VvrOsm.CityIndex | vvr-osm.go:11-18 | the index found holds the search word and no earlier entry does; no index means no entry holds it |
| VvrOsm.GetCityResultFromData | vvr-osm.go:11-18 | the search loop returns the first entry with the search word, or none |
| VvrOsm.NameIndex | vvr-osm.go:43-50 | the result is the least index whose name equals the argument exactly, or -1 when none does |
| VvrOsm.DoesNameExistAlreadyInArray | vvr-osm.go:43-50 | the search loop returns NameIndex |
| VvrOsm.DoesOsmElementMatchVvrElement | vvr-osm.go:20-41 | the rule loop applies rule i to the output of rule i-1 on both names; the result is true exactly when the cleaned names are equal or some lower-cased city plus a blank plus the cleaned OSM name is the cleaned VVR name |
| VvrOsm.MatchesWhenCleanedEqual | vvr-osm.go:30-33 | names with equal cleaned forms match, in both directions, whatever the cities |
| VvrOsm.NoCityNoPrefixMatch | vvr-osm.go:34-40 | with no cities, a match means equal cleaned names and nothing else |
| VvrOsm.EmptyNameCleansToEmpty | vvr-osm.go:24-33 | with non-empty patterns the empty name cleans to "", so two unnamed elements match |
| VvrOsm.SpansFrom | vvr-osm.go:59-60 | the scan from a position yields matches of the expression: each is "<span", then the same line up to a '>' directly before the digits, the digits, "</span" and the line up to a '>'. The matches come in order, do not overlap, and leave no match before the first, between two or after the last |
| VvrOsm.Captures | vvr-osm.go:59-60 | one capture per match of the scan from the start, in order: exactly the digit group of that match, a non-empty run of digits between the '>' of an opening span tag and "</span" |
| VvrOsm.CapturesTwoDigits | vvr-osm.go:59-60 | the line list of two `<span>d</span>` tags yields the two digits as captures, in text order |
| VvrOsm.ParseTwoDigits | vvr-osm.go:62-69 | two one-digit captures read back as their digit values |
| VvrOsm.SortTwo | vvr-osm.go:70 | two numbers in descending order come out swapped |
| VvrOsm.JoinTwoDigits | vvr-osm.go:71-76 | two one-digit numbers are written as the digits with one ';' between |
| VvrOsm.RouteRefTwoDigits | vvr-osm.go:52-78 | for two tags whose second digit is smaller (as in `<span>3</span><span>1</span>`), the conversion gives the digits ascending, as in `1;3`, and no error |
| VvrOsm.SortInts | vvr-osm.go:70 | the result is ascending and a permutation of the input (duplicates kept) |
| VvrOsm.ConvertLinienToRouteRef | vvr-osm.go:52-78 | the loops return RouteRefOf: "" and no error for empty input, "" and the first out-of-range capture on an Atoi error, else the joined sorted numbers and no error |
| VvrOsm.JoinRouteRef | vvr-osm.go:71-76 | the append loop writes each number followed by ';' except the last |
| VvrOsm.JoinSeparators | vvr-osm.go:71-76 | n numbers give exactly n-1 separators, and the text is empty exactly when there are no numbers |
| VvrOsm.JoinEndsInDigit | vvr-osm.go:73-75 | a non-empty route_ref ends in a digit (no trailing ';') |
| VvrOsm.JoinSplitRoundTrip | vvr-osm.go:71-76 | splitting the route_ref at ';' gives the decimal text of every number, in order |
| VvrOsm.JoinParsesBack | vvr-osm.go:64-76 | every field of the route_ref reads back as the number it was written from |
| VvrOsm.RouteRefOfMeaning | vvr-osm.go:52-77 | empty input gives ("", nil); an error comes with ""; otherwise no error and the captured numbers ascending, duplicates kept, empty exactly when nothing was captured |
| VvrOsm.ParseAllFailsOnRange | vvr-osm.go:62-69 | the Atoi loop fails exactly when some capture exceeds the int range, and otherwise yields every capture's value in order |
| RuleOrder.StrasseFrom1 | contants.go:81-83 | from rule 1 on, "straße" and a quiet tail become "str" and the same tail: rule 17 turns ß into "ss" before rule 21 shortens "strasse" |
| RuleOrder.StrasseFrom0 | vvr-osm.go:26-29 | the whole table turns "straße" and a quiet tail into "str" and the tail |
| RuleOrder.GrossFrom3 | contants.go:81-83 | from rule 3 on, "groß" and a quiet tail become "gross" and the tail |
| RuleOrder.GrDotFrom0 | contants.go:81-83 | rule 2 spells out "gr." as "groß", and rule 17 later turns it into "gross" |
| RuleOrder.CleanStrasseName | vvr-osm.go:24-29 | a name that lower-cases to "straße" and a quiet tail cleans to "str" and the tail |
| RuleOrder.CleanGrossName | vvr-osm.go:24-29 | a name that lower-cases to "groß" and a quiet tail cleans to "gross" and the tail |
| RuleOrder.CleanGrDotName | vvr-osm.go:24-29 | a name that lower-cases to "gr." and a quiet tail cleans to "gross" and the tail |
| RuleOrder.CleanStreetOfYouthShort | vvr-osm.go:24-29 | a name that lower-cases to "straße d. jugend" cleans to "str der jugend" (rule 0, then rules 17 and 21) |
| RuleOrder.CleanStreetOfYouthLong | vvr-osm.go:24-29 | a name that lower-cases to "straße der jugend" cleans to "str der jugend" |
| RuleOrder.CleanMohrdorfShort | vvr-osm.go:24-29 | a name that lower-cases to "gr. mohrdorf" cleans to "gross mohrdorf" |
| RuleOrder.CleanMohrdorfLong | vvr-osm.go:24-29 | a name that lower-cases to "groß mohrdorf" cleans to "gross mohrdorf" |
| RuleOrder.CleanStrDot | vvr-osm.go:24-29 | a name that lower-cases to "str." cleans to "str" (rule 20 drops the dot) |
| RuleOrder.CleanStrasse | vvr-osm.go:24-29 | a name that lower-cases to "straße" cleans to "str" |
| RuleOrder.GrDotMatchesGross | vvr-osm.go:20-33 | "Gr. X" and "Groß X" match each other in both directions for every quiet tail X, whatever the cities |
| RuleOrder.StreetOfYouthSpellingsMatch | vvr-osm.go:20-33 | "Straße d. Jugend" and "Straße der Jugend" match each other in both directions, whatever the cities |
| RuleOrder.MohrdorfSpellingsMatch | vvr-osm.go:20-33 | "Gr. Mohrdorf" and "Groß Mohrdorf" match each other in both directions, whatever the cities |
| RuleOrder.StreetSpellingsMatch | vvr-osm.go:20-33 | "Str." and "Straße" match each other in both directions, whatever the cities |
| Cache.SearchWordSlot | main.go:54-57 | slot i*30+k of the table lies inside it and holds letter i followed by letter k |
| Cache.SearchWords | main.go:52-58 | the nested loop fills |alphabet|² words, word n being letter n/30 followed by letter n%30 |
| Cache.SearchWordsDistinct | main.go:52-58 | the 900 search words are pairwise different |
| Cache.UpdateVvrData | main.go:59-98 | the word loop builds exactly the refreshed city results, in word order |
| Cache.RefreshedShape | main.go:59-98 | each word adds at most one entry, and every entry belongs to one of the words |
| Cache.RefreshedEntry | main.go:63-97 | for distinct words, a word's entry is a fresh answer when the cache entry is missing or stale, the cached one when it is fresh or the request fails, and no entry when the request fails with nothing cached |
| Reconcile.CityListings | main.go:106-107 | one listing per VVR stop of a city answer, carrying its search word |
| Reconcile.IsCityKnown | main.go:110-116 | the inner search loop answers whether the city is already in the list |
| Reconcile.AddBussiCity | main.go:108-119 | a name with a comma adds the text before its first comma when it is new; other names add nothing |
| Reconcile.ExtractCities | main.go:104-122 | the nested loop builds CitiesOf over all listings in answer order |
| Reconcile.ContainsChar | main.go:108 | `strings.Contains(s, ",")` holds exactly when ',' occurs in s |
| Reconcile.CitiesDistinct | main.go:110-119 | the city vocabulary has no duplicates |
| Reconcile.CitiesMembership | main.go:104-122 | a city is in the vocabulary exactly when some listing's name has a comma and that city before the first one |
| Reconcile.CitiesPrefix | main.go:104-122 | more listings only add cities: the vocabulary keeps first-appearance order |
| Reconcile.IsVvrDuplicate | main.go:180-185 | the loop reports whether an accepted group already has this VVR id |
| Reconcile.IsVvrSpecialDestination | main.go:186-191 | the loop reports whether the name contains an exclusion entry |
| Reconcile.CollectMatches | main.go:194-201 | the matched elements in pool order, and their (type, id) keys |
| Reconcile.RemoveKey | main.go:205-210 | the corrected removal pass drops exactly the elements with the key and keeps the rest in order |
| Reconcile.RemoveByKeys | main.go:203-211 | the corrected removal loop drops exactly the elements whose key is listed |
| Reconcile.MatchOneStop | main.go:174-213 | one VVR stop: skipped when duplicate or excluded, else one new group with its name, id, lines, search word and matches, and the pool without them |
| Reconcile.MatchVvrWithOsm | main.go:170-216 | the sweep over all answers and stops equals SweepAll over the listings |
| Reconcile.MatchPartition | main.go:195-201 | the pool is the matched elements plus the unmatched ones, as a multiset |
| Reconcile.RemoveMatched | main.go:203-210 | with unique keys, removing the matched keys leaves exactly the unmatched elements in their order |
| Reconcile.StepKeepsInv | main.go:192-212 | one stop keeps the sweep invariant: no element lost or copied (pool plus groups is the start pool), keys unique, groups hold only matching elements, the pool holds none that match a group |
| Reconcile.SweepAllKeepsInv | main.go:170-215 | the sweep invariant holds after all stops when the start pool has unique keys |
| Reconcile.SweepIds | main.go:179-193 | a VVR id gets a group exactly when some listing with that id is not excluded, and at most one group |
| Reconcile.SweepProvenance | main.go:176-193 | every group copies the id, name, lines and search word of a listing whose name is not excluded |
| Reconcile.RemoveIdPassAsWritten | main.go:205-210 | the as-written inner loop: ID-only comparison, each splice followed by a skipped element |
| Reconcile.RemoveByIdAsWritten | main.go:203-211 | the as-written removal loop over the collected IDs |
| Reconcile.AsWrittenAgrees | main.go:194-211 | when no two pool elements share a numeric ID, the as-written removal of the matched IDs leaves exactly the unmatched elements, in order |
| Reconcile.RemovalByIdCounterexample | main.go:203-210 | way 5 and node 5 with only the node matching: as written the way is removed and the node kept; removal by (type, id) removes the node and keeps the way |
| Reconcile.AppendRemaining | main.go:222-233 | the leftover loop equals GroupAll |
| Reconcile.GroupAllMultiset | main.go:222-233 | grouping loses and copies nothing: the groups' elements gain exactly the leftovers |
| Reconcile.GroupAllShape | main.go:224-232 | existing groups keep their stop and only gain elements of exactly their name; new groups have no VVR id, a fresh name and only elements of that name |
| Reconcile.GroupAllPlaces | main.go:224-226 | every leftover ends up in the first group that has exactly its name |
| Reconcile.Reconcile | main.go:104-233 | city vocabulary, sweep, grouping and the two element counts, equal to Reconciled |
| Reconcile.ReconcileKeepsEveryElement | main.go:162-233 | with unique keys, the final groups hold every OSM element exactly once, and the pool shrank by the number of elements the sweep grouped |
| Validate.Warnings | main.go:277-320 | an element gets at most 5 warnings |
| Validate.NoWarningsIff | main.go:277-320 | an element gets no warning exactly when every check that applies to it passes |
| Validate.WarningCauses | main.go:277-320 | each "missing" warning appears exactly when its check applies and the tag is empty |
| Validate.CheckNetwork | main.go:277-298 | the three network checks append their warnings exactly as NetworkWarnings lists them |
| Validate.CollectWarnings | main.go:277-320 | the checks append the warnings in program order |
| Validate.CheckElement | main.go:257-334 | one element: the link note, then either the ignored-operator note with the counter bumped and nothing counted, or its warnings, the end note and the role and unnamed counts |
| Validate.CountRoles | main.go:323-331 | the three role counters are bumped by their own tags |
| Validate.BuildRow | main.go:239-338 | the element loop yields Row for the group, bumps the counters by the group's elements and adds its warnings and unnamed elements |
| Validate.BumpedAllKeys | main.go:265-268 | the counter map keeps its key set: only existing operators are bumped |
| Validate.ValidateGroup | main.go:239-338 | one group: its row and the totals after it |
| Validate.ValidateGroups | main.go:235-353 | the group loop fills the array with Row(i) for group i, returns the bumped map and the statistics StatsOf |
| Validate.RenderAppend | main.go:259-321 | the rendered column of appended notes is the appended renderings |
| Validate.NotesRenderable | main.go:259-263 | elements with a type give a column whose links can be rendered (the JOSM link takes the type's first letter) |
| Report.NotesCount | main.go:257-321 | a column links to every element of its group once and in order, marks each ignored one once, carries exactly the counted warnings and closes each element that is not ignored |
| Report.ElementNotesCount | main.go:258-321 | one element adds one link, then one ignored-operator note or its warnings and one end note |
| Report.AnyIgnoredIff | main.go:265-273 | a row is flagged ignored exactly when one of its elements has an ignored operator |
| Report.RoleCountBounds | main.go:265-331 | role and unnamed counts only count elements that are not ignored, and no element is both a platform and a stop position |
| Report.RowFacts | main.go:239-338 | row i has id i+1, the group's id and name, IsInOSM iff elements, IsInVVR iff a VVR id, links to the group's elements in order, the ignored flag iff an ignored-operator note, the warning count and bounded role counters |
| Report.BumpedCount | main.go:265-268 | an operator's counter rises by the number of elements with that operator |
| Report.BumpedAllCount | main.go:265-268 | over all groups, by the number of grouped elements with that operator |
| Report.OperatorCountPermutation | main.go:265-268 | the count of elements with an operator does not depend on their order |
| Report.VvrCountSplit | main.go:336-352 | VVR stops = remaining VVR stops + VVR stops with OSM elements |
| Report.NoNameCountFlatten | main.go:332-334 | the unnamed count is the count over all grouped elements |
| Report.RowTotals | main.go:235-353 | over all rows: links = grouped elements, ignored-operator notes = ignored grouped elements, warning notes = the printed warnings sum |
| Report.Run | main.go:162-353 | the run: Reconcile, then ValidateGroups with the program's tag values and operator map |
| Report.RunStatistics | main.go:162-353 | with unique keys: OSM stops = input size; matching = elements the sweep grouped; remaining = the rest; VVR stops with an OSM object = VVR groups with elements; unnamed counted over all groups |
| Report.RunIgnoreCounter | main.go:265-268 | with unique keys, an ignored operator's final counter is the number of input elements with that operator |

## Left out

- Lock file, flag parsing, logging and elapsed-time output (helper.go, main.go:22-49): process plumbing.
- The HTTP requests, JSON decoding and cache files (json.go, main.go:80-102, 126-160): I/O. The VVR request is the `fetch` parameter of `Cache.UpdateVvrData`. The OSM snapshot is the `elements` input.
- Overpass cache freshness (main.go:138-154): a time comparison followed by I/O. The model starts from the elements it yields.
- `time.Now`: the clock is the `now` parameter, and staleness is a comparison in seconds (`Cache.IsStale`).
- The template hand-off and html.go (main.go:341-354, including `fmt.Sprint` of the map): template rendering.
- `Lat`/`Lon` and the other fields the core does not read (types.go): not used by the core.
- cmp-vvr-osm.go is not part of this model. It is an older standalone version of the same program.
- Text.ToLower: covers ASCII A-Z and Ä Ö Ü only. Go lower-cases all of Unicode, but the names here are German.
- Strings are code-point sequences. Go replaces on UTF-8 bytes, which gives the same result for valid UTF-8 patterns.
- VvrOsm.SpansFrom, VvrOsm.Captures: a hand-written scanner for this one expression, not a model of RE2. It takes the leftmost match, prefers the shortest `.*?`, takes the longest `[0-9]+`, and `.` does not cross a newline, as in RE2.
- VvrOsm.CapturesTwoDigits, VvrOsm.RouteRefTwoDigits: stated for any two digit characters rather than for one literal line list, which keeps the proof small; the literal case is the instance with the digits 3 and 1.
- RuleOrder.CleanStrasseName, RuleOrder.CleanGrossName, RuleOrder.CleanGrDotName, RuleOrder.GrDotMatchesGross: stated for "quiet" tails only: lower-case letters and blanks that lack the letters h, l and s (after "straße") or a, c, l and k (after "groß"). Such a tail gives no later rule a place to fire. Other tails are not covered.
- Validate.Render: stated only for appending and well-formedness. The exact HTML characters are not otherwise constrained.
- The per-element `convertLinienToRouteRef` call inside the element loop is pure, so the model computes it once per group (`Validate.TargetRouteRef`).
- Go's panics are preconditions:
  - the matcher panics on tables of different length;
  - rendering a link panics on an empty element type.
- Reconcile.MatchOneStop, Reconcile.MatchVvrWithOsm, Reconcile.Reconcile, Report.Run: use the corrected removal by (type, id) recorded under "Findings", not the as-written removal by numeric ID. The two agree when no two pool elements share a numeric ID (`Reconcile.AsWrittenAgrees`).
- Reconcile.ReconcileKeepsEveryElement, Report.RunStatistics, Report.RunIgnoreCounter: stated for inputs with unique (type, id) keys. Overpass returns such snapshots; with repeated keys, removal by key can drop several elements at once.

## Findings

| source | as written | input that shows it | evidently intended | confidence | as-written member | corrected member |
|---|---|---|---|---|---|---|
| main.go:203-210 | matched elements are removed from the pool by numeric `ID` only, and after each splice the loop steps over the element that moved into the freed slot | pool [way 5 "B", node 5 "A"] with only the node matching VVR stop "A": the way is removed, the node stays and can be matched again by a later stop | remove exactly the matched elements, identified by (Type, ID) | not executed | Reconcile.RemovalByIdCounterexample | Reconcile.RemoveMatched |
