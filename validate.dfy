// main.go, lines 235-353: one report row per group, the tag checks on every
// OSM element of a group, the ignore counters per operator and the summary
// statistics.

module Validate {
  import opened Text
  import opened Types
  import opened Constants
  import opened VvrOsm
  import opened Reconcile

  // ---------------------------------------------------------------------
  // Tag checks of one element

  /** The tag values every VVR stop should carry. */
  datatype Tagging = Tagging(network: string, networkGuid: string, networkShort: string, operator: string)

  /** The values of contants.go. */
  const VvrTagging: Tagging := Tagging(TagNetwork, TagNetworkGuid, TagNetworkShort, TagOperator)

  /** The network family of checks skips relations and stop positions that are not also bus stops. */
  predicate TagChecked(e: OsmElement)
  {
    e.typ != "relation" && (e.tags.publicTransport != "stop_position" || e.tags.highway == "bus_stop")
  }

  function NetworkWarnings(t: OsmTags, x: Tagging): seq<Warning>
  {
    (if t.network == "" then [NetworkMissing]
     else if t.network != x.network then [NetworkNotCorrect(t.network)] else [])
    + (if t.networkGuid == "" then [NetworkGuidMissing]
       else if t.networkGuid != x.networkGuid then [NetworkGuidNotCorrect(t.networkGuid)] else [])
    + (if t.networkShort == "" then [NetworkShortMissing]
       else if t.networkShort != x.networkShort then [NetworkShortNotCorrect(t.networkShort)] else [])
  }

  /** route_ref is checked on platforms only, and only when the group's lines give a value. */
  function RouteRefWarnings(t: OsmTags, targetRouteRef: string): seq<Warning>
  {
    if t.publicTransport == "platform" && t.routeRef == "" && targetRouteRef != "" then [RouteRefMissing(targetRouteRef)]
    else if t.publicTransport == "platform" && t.routeRef != "" && targetRouteRef != "" && t.routeRef != targetRouteRef then
      [RouteRefNotMatching(t.routeRef, targetRouteRef)]
    else []
  }

  function OperatorWarnings(t: OsmTags, x: Tagging): seq<Warning>
  {
    if t.operator == "" then [OperatorMissing]
    else if t.operator != x.operator then [OperatorNotCorrect(t.operator)]
    else []
  }

  /** The warnings of one element that is not ignored, in the order the checks run. */
  function Warnings(e: OsmElement, targetRouteRef: string, x: Tagging): (ws: seq<Warning>)
    ensures |ws| <= 5
  {
    (if TagChecked(e) then NetworkWarnings(e.tags, x) else [])
    + RouteRefWarnings(e.tags, targetRouteRef)
    + OperatorWarnings(e.tags, x)
  }

  /** An element is free of warnings exactly when every check it is subject to passes. */
  lemma NoWarningsIff(e: OsmElement, targetRouteRef: string, x: Tagging)
    requires x.network != "" && x.networkGuid != "" && x.networkShort != "" && x.operator != ""
    ensures Warnings(e, targetRouteRef, x) == [] <==>
      && (TagChecked(e) ==> e.tags.network == x.network && e.tags.networkGuid == x.networkGuid && e.tags.networkShort == x.networkShort)
      && (e.tags.publicTransport == "platform" && targetRouteRef != "" ==> e.tags.routeRef == targetRouteRef)
      && e.tags.operator == x.operator
  {
    var t := e.tags;
    if Warnings(e, targetRouteRef, x) == [] {
      assert OperatorWarnings(t, x) == [];
      assert RouteRefWarnings(t, targetRouteRef) == [];
      if TagChecked(e) {
        assert NetworkWarnings(t, x) == [];
      }
    }
  }

  lemma NetworkCauses(e: OsmElement, x: Tagging)
    ensures var nw := if TagChecked(e) then NetworkWarnings(e.tags, x) else [];
      && (NetworkMissing in nw <==> TagChecked(e) && e.tags.network == "")
      && (NetworkGuidMissing in nw <==> TagChecked(e) && e.tags.networkGuid == "")
      && (NetworkShortMissing in nw <==> TagChecked(e) && e.tags.networkShort == "")
      && (forall w :: w in nw ==> !w.OperatorMissing? && !w.RouteRefMissing?)
  {
    if TagChecked(e) {
      NetworkCausesChecked(e.tags, x);
    }
  }

  lemma NetworkCausesChecked(t: OsmTags, x: Tagging)
    ensures var nw := NetworkWarnings(t, x);
      && (NetworkMissing in nw <==> t.network == "")
      && (NetworkGuidMissing in nw <==> t.networkGuid == "")
      && (NetworkShortMissing in nw <==> t.networkShort == "")
      && (forall w :: w in nw ==> !w.OperatorMissing? && !w.RouteRefMissing?)
  {
  }

  lemma RouteRefCauses(t: OsmTags, targetRouteRef: string)
    ensures var rw := RouteRefWarnings(t, targetRouteRef);
      && (RouteRefMissing(targetRouteRef) in rw <==>
            t.publicTransport == "platform" && t.routeRef == "" && targetRouteRef != "")
      && (forall w :: w in rw ==> w.RouteRefMissing? || w.RouteRefNotMatching?)
  {
  }

  lemma OperatorCauses(t: OsmTags, x: Tagging)
    ensures var ow := OperatorWarnings(t, x);
      && (OperatorMissing in ow <==> t.operator == "")
      && (forall w :: w in ow ==> w.OperatorMissing? || w.OperatorNotCorrect?)
  {
  }

  /** Which warning is raised for which tag values. */
  lemma WarningCauses(e: OsmElement, targetRouteRef: string, x: Tagging)
    ensures var ws := Warnings(e, targetRouteRef, x);
      && (NetworkMissing in ws <==> TagChecked(e) && e.tags.network == "")
      && (NetworkGuidMissing in ws <==> TagChecked(e) && e.tags.networkGuid == "")
      && (NetworkShortMissing in ws <==> TagChecked(e) && e.tags.networkShort == "")
      && (OperatorMissing in ws <==> e.tags.operator == "")
      && (RouteRefMissing(targetRouteRef) in ws <==>
            e.tags.publicTransport == "platform" && e.tags.routeRef == "" && targetRouteRef != "")
  {
    var t := e.tags;
    var nw := if TagChecked(e) then NetworkWarnings(t, x) else [];
    var rw := RouteRefWarnings(t, targetRouteRef);
    var ow := OperatorWarnings(t, x);
    NetworkCauses(e, x);
    RouteRefCauses(t, targetRouteRef);
    OperatorCauses(t, x);
    CausesCombine(Warnings(e, targetRouteRef, x), nw, rw, ow, targetRouteRef);
  }

  /** Membership in the three parts of an element's warnings, whatever the tags are. */
  lemma CausesCombine(ws: seq<Warning>, nw: seq<Warning>, rw: seq<Warning>, ow: seq<Warning>, targetRouteRef: string)
    requires ws == nw + rw + ow
    requires forall w :: w in nw ==> !w.OperatorMissing? && !w.RouteRefMissing?
    requires forall w :: w in rw ==> w.RouteRefMissing? || w.RouteRefNotMatching?
    requires forall w :: w in ow ==> w.OperatorMissing? || w.OperatorNotCorrect?
    ensures NetworkMissing in ws <==> NetworkMissing in nw
    ensures NetworkGuidMissing in ws <==> NetworkGuidMissing in nw
    ensures NetworkShortMissing in ws <==> NetworkShortMissing in nw
    ensures OperatorMissing in ws <==> OperatorMissing in ow
    ensures RouteRefMissing(targetRouteRef) in ws <==> RouteRefMissing(targetRouteRef) in rw
  {
    InConcat(NetworkMissing, nw, rw, ow);
    InConcat(NetworkGuidMissing, nw, rw, ow);
    InConcat(NetworkShortMissing, nw, rw, ow);
    InConcat(OperatorMissing, nw, rw, ow);
    InConcat(RouteRefMissing(targetRouteRef), nw, rw, ow);
  }

  lemma InConcat<T>(w: T, a: seq<T>, b: seq<T>, c: seq<T>)
    ensures w in a + b + c <==> w in a || w in b || w in c
  {
  }

  // ---------------------------------------------------------------------
  // One row

  /** The operators whose elements are ignored are the keys of the counter map. */
  predicate IsIgnored(e: OsmElement, keys: set<string>)
  {
    e.tags.operator in keys
  }

  /** What the OSM reference column says about one element. */
  function ElementNotes(e: OsmElement, targetRouteRef: string, keys: set<string>, x: Tagging): seq<Note>
  {
    [ObjectLink(e.typ, e.id)]
    + if IsIgnored(e, keys) then [IgnoredOperator(e.tags.operator)]
      else WarnNotes(Warnings(e, targetRouteRef, x)) + [EndOfObject]
  }

  function WarnNotes(ws: seq<Warning>): (ns: seq<Note>)
    ensures |ns| == |ws| && forall i :: 0 <= i < |ws| ==> ns[i] == Warn(ws[i])
  {
    seq(|ws|, i requires 0 <= i < |ws| => Warn(ws[i]))
  }

  function Notes(es: seq<OsmElement>, targetRouteRef: string, keys: set<string>, x: Tagging): seq<Note>
  {
    if es == [] then [] else Notes(es[..|es| - 1], targetRouteRef, keys, x) + ElementNotes(es[|es| - 1], targetRouteRef, keys, x)
  }

  /** The four things the row loop counts per element that is not ignored. */
  datatype Role = BusStop | StopPosition | Platform | NoName

  predicate HasRole(e: OsmElement, role: Role)
  {
    match role
    case BusStop => e.tags.highway == "bus_stop"
    case StopPosition => e.tags.publicTransport == "stop_position"
    case Platform => e.tags.publicTransport == "platform"
    case NoName => e.tags.name == ""
  }

  function RoleTick(e: OsmElement, role: Role): nat
  {
    if HasRole(e, role) then 1 else 0
  }

  function Tick(e: OsmElement, keys: set<string>, role: Role): nat
  {
    if IsIgnored(e, keys) then 0 else RoleTick(e, role)
  }

  /** The elements that are not ignored and have the role. */
  function Count(es: seq<OsmElement>, keys: set<string>, role: Role): nat
  {
    if es == [] then 0 else Count(es[..|es| - 1], keys, role) + Tick(es[|es| - 1], keys, role)
  }

  function ElementWarningCount(e: OsmElement, targetRouteRef: string, keys: set<string>, x: Tagging): nat
  {
    if IsIgnored(e, keys) then 0 else |Warnings(e, targetRouteRef, x)|
  }

  /** The warnings raised for the elements that are not ignored. */
  function WarningCount(es: seq<OsmElement>, targetRouteRef: string, keys: set<string>, x: Tagging): nat
  {
    if es == [] then 0
    else WarningCount(es[..|es| - 1], targetRouteRef, keys, x) + ElementWarningCount(es[|es| - 1], targetRouteRef, keys, x)
  }

  predicate AnyIgnored(es: seq<OsmElement>, keys: set<string>)
  {
    exists k :: 0 <= k < |es| && IsIgnored(es[k], keys)
  }

  /** One more for the operator of an ignored element. */
  function Bump(m: map<string, int>, e: OsmElement): map<string, int>
  {
    if e.tags.operator in m then m[e.tags.operator := m[e.tags.operator] + 1] else m
  }

  /** The counter map after the elements `es`. */
  function Bumped(m: map<string, int>, es: seq<OsmElement>): map<string, int>
  {
    if es == [] then m else Bump(Bumped(m, es[..|es| - 1]), es[|es| - 1])
  }

  function TargetRouteRef(g: MatchedBusStop): string
  {
    RouteRefOf(g.linien).0
  }

  /** Row i for group g once the elements `es` are checked. */
  function PartialRow(i: nat, g: MatchedBusStop, es: seq<OsmElement>, keys: set<string>, x: Tagging): MatchResult
  {
    MatchResult(
      i + 1, g.vvrId, g.name,
      AnyIgnored(es, keys), g.elements != [], g.vvrId != "",
      Count(es, keys, BusStop), Count(es, keys, Platform), Count(es, keys, StopPosition),
      Notes(es, TargetRouteRef(g), keys, x))
  }

  /** Row i of the report (numbered from 1) for group g. */
  function Row(i: nat, g: MatchedBusStop, keys: set<string>, x: Tagging): MatchResult
  {
    PartialRow(i, g, g.elements, keys, x)
  }

  /** The row after the element loop has handled `e`. */
  function WithElement(row: MatchResult, e: OsmElement, targetRouteRef: string, keys: set<string>, x: Tagging): MatchResult
  {
    row.(
      isIgnored := row.isIgnored || IsIgnored(e, keys),
      nrBusStops := row.nrBusStops + Tick(e, keys, BusStop),
      nrPlatforms := row.nrPlatforms + Tick(e, keys, Platform),
      nrStopPositions := row.nrStopPositions + Tick(e, keys, StopPosition),
      osmReference := row.osmReference + ElementNotes(e, targetRouteRef, keys, x))
  }

  /** The network, network:guid and network:short checks. */
  method CheckNetwork(t: OsmTags, x: Tagging) returns (ws: seq<Warning>)
    ensures ws == NetworkWarnings(t, x)
  {
    ws := [];
    if t.network == "" {
      ws := ws + [NetworkMissing];
    } else if t.network != x.network {
      ws := ws + [NetworkNotCorrect(t.network)];
    }
    ghost var w1 := ws;
    if t.networkGuid == "" {
      ws := ws + [NetworkGuidMissing];
    } else if t.networkGuid != x.networkGuid {
      ws := ws + [NetworkGuidNotCorrect(t.networkGuid)];
    }
    ghost var w2 := ws;
    if t.networkShort == "" {
      ws := ws + [NetworkShortMissing];
    } else if t.networkShort != x.networkShort {
      ws := ws + [NetworkShortNotCorrect(t.networkShort)];
    }
  }

  /** The warning checks of the element loop, in program order. */
  method CollectWarnings(osmObject: OsmElement, targetRouteRef: string, x: Tagging) returns (ws: seq<Warning>)
    ensures ws == Warnings(osmObject, targetRouteRef, x)
  {
    var t := osmObject.tags;
    ws := [];
    if osmObject.typ != "relation" && (t.publicTransport != "stop_position" || t.highway == "bus_stop") {
      ws := CheckNetwork(t, x);
    }
    ghost var w1 := ws;
    if t.publicTransport == "platform" && t.routeRef == "" && targetRouteRef != "" {
      ws := ws + [RouteRefMissing(targetRouteRef)];
    }
    if t.publicTransport == "platform" && t.routeRef != "" && targetRouteRef != "" && t.routeRef != targetRouteRef {
      ws := ws + [RouteRefNotMatching(t.routeRef, targetRouteRef)];
    }
    assert ws == w1 + RouteRefWarnings(t, targetRouteRef);
    ghost var w2 := ws;
    if t.operator == "" {
      ws := ws + [OperatorMissing];
    } else if t.operator != x.operator {
      ws := ws + [OperatorNotCorrect(t.operator)];
    }
    assert ws == w2 + OperatorWarnings(t, x);
  }

  /**
   * The body of the element loop for one element; `targetRouteRef` is what
   * convertLinienToRouteRef gives for the group's lines.
   */
  method CheckElement(
    row: MatchResult, osmObject: OsmElement, targetRouteRef: string, x: Tagging, ignore: map<string, int>, warningsSum: nat, osmStopsNoName: nat)
    returns (row': MatchResult, ignore': map<string, int>, warningsSum': nat, osmStopsNoName': nat)
    ensures var keys := ignore.Keys;
      && ignore'.Keys == keys
      && ignore' == Bump(ignore, osmObject)
      && row' == WithElement(row, osmObject, targetRouteRef, keys, x)
      && warningsSum' == warningsSum + ElementWarningCount(osmObject, targetRouteRef, keys, x)
      && osmStopsNoName' == osmStopsNoName + Tick(osmObject, keys, NoName)
  {
    row', ignore', warningsSum', osmStopsNoName' := row, ignore, warningsSum, osmStopsNoName;
    var link := [ObjectLink(osmObject.typ, osmObject.id)];
    row' := row'.(osmReference := row'.osmReference + link);
    if osmObject.tags.operator in ignore' {
      var value := ignore'[osmObject.tags.operator];
      value := value + 1;
      ignore' := ignore'[osmObject.tags.operator := value];
      row' := row'.(osmReference := row'.osmReference + [IgnoredOperator(osmObject.tags.operator)], isIgnored := true);
      IgnoredElement(row, row', osmObject, targetRouteRef, ignore.Keys, x);
      return;
    }
    var ws := CollectWarnings(osmObject, targetRouteRef, x);
    warningsSum' := warningsSum' + |ws|;
    row' := row'.(osmReference := row'.osmReference + WarnNotes(ws) + [EndOfObject]);
    ghost var checked := row';
    row' := CountRoles(row', osmObject);
    CheckedElement(row, checked, row', osmObject, targetRouteRef, ignore.Keys, x);
    if osmObject.tags.name == "" {
      osmStopsNoName' := osmStopsNoName' + 1;
    }
  }

  lemma IgnoredElement(row: MatchResult, row': MatchResult, e: OsmElement, targetRouteRef: string, keys: set<string>, x: Tagging)
    requires IsIgnored(e, keys)
    requires row' == row.(osmReference := row.osmReference + [ObjectLink(e.typ, e.id)] + [IgnoredOperator(e.tags.operator)], isIgnored := true)
    ensures row' == WithElement(row, e, targetRouteRef, keys, x)
  {
    assert ElementNotes(e, targetRouteRef, keys, x) == [ObjectLink(e.typ, e.id)] + [IgnoredOperator(e.tags.operator)];
  }

  lemma CheckedElement(row: MatchResult, checked: MatchResult, row': MatchResult, e: OsmElement, targetRouteRef: string, keys: set<string>, x: Tagging)
    requires !IsIgnored(e, keys)
    requires checked == row.(osmReference := row.osmReference + [ObjectLink(e.typ, e.id)] + WarnNotes(Warnings(e, targetRouteRef, x)) + [EndOfObject])
    requires row' == checked.(
      nrBusStops := checked.nrBusStops + RoleTick(e, BusStop),
      nrPlatforms := checked.nrPlatforms + RoleTick(e, Platform),
      nrStopPositions := checked.nrStopPositions + RoleTick(e, StopPosition))
    ensures row' == WithElement(row, e, targetRouteRef, keys, x)
  {
    var ws := WarnNotes(Warnings(e, targetRouteRef, x));
    assert ElementNotes(e, targetRouteRef, keys, x) == [ObjectLink(e.typ, e.id)] + (ws + [EndOfObject]);
    AppendAssoc(row.osmReference, [ObjectLink(e.typ, e.id)], ws, [EndOfObject]);
    assert Tick(e, keys, BusStop) == RoleTick(e, BusStop);
    assert Tick(e, keys, Platform) == RoleTick(e, Platform);
    assert Tick(e, keys, StopPosition) == RoleTick(e, StopPosition);
  }

  /** Regrouping a chain of appends. */
  lemma AppendAssoc<T>(s: seq<T>, a: seq<T>, b: seq<T>, c: seq<T>)
    ensures s + a + b + c == s + (a + (b + c))
  {
  }

  /** The three role counters of a row, for an element that is not ignored. */
  method CountRoles(row: MatchResult, osmObject: OsmElement) returns (row': MatchResult)
    ensures row' == row.(
      nrBusStops := row.nrBusStops + RoleTick(osmObject, BusStop),
      nrPlatforms := row.nrPlatforms + RoleTick(osmObject, Platform),
      nrStopPositions := row.nrStopPositions + RoleTick(osmObject, StopPosition))
  {
    row' := row;
    if osmObject.tags.highway == "bus_stop" {
      row' := row'.(nrBusStops := row'.nrBusStops + 1);
    }
    if osmObject.tags.publicTransport == "stop_position" {
      row' := row'.(nrStopPositions := row'.nrStopPositions + 1);
    }
    if osmObject.tags.publicTransport == "platform" {
      row' := row'.(nrPlatforms := row'.nrPlatforms + 1);
    }
  }

  lemma AnyIgnoredSnoc(es: seq<OsmElement>, k: nat, keys: set<string>)
    requires k < |es|
    ensures AnyIgnored(es[..k + 1], keys) <==> AnyIgnored(es[..k], keys) || IsIgnored(es[k], keys)
  {
    var a := es[..k + 1];
    if AnyIgnored(a, keys) {
      var j :| 0 <= j < |a| && IsIgnored(a[j], keys);
      if j < k {
        assert es[..k][j] == a[j];
      }
    }
    if AnyIgnored(es[..k], keys) {
      var j :| 0 <= j < k && IsIgnored(es[..k][j], keys);
      assert a[j] == es[..k][j];
    }
    if IsIgnored(es[k], keys) {
      assert a[k] == es[k];
    }
  }

  lemma PartialRowSnoc(i: nat, g: MatchedBusStop, es: seq<OsmElement>, k: nat, keys: set<string>, x: Tagging)
    requires k < |es|
    ensures var row := PartialRow(i, g, es[..k], keys, x);
      PartialRow(i, g, es[..k + 1], keys, x) == WithElement(row, es[k], TargetRouteRef(g), keys, x)
  {
    assert es[..k + 1][..k] == es[..k] && es[..k + 1][k] == es[k];
    AnyIgnoredSnoc(es, k, keys);
  }

  lemma TotalsElementSnoc(m: map<string, int>, es: seq<OsmElement>, k: nat, targetRouteRef: string, keys: set<string>, x: Tagging)
    requires k < |es|
    ensures Bumped(m, es[..k + 1]) == Bump(Bumped(m, es[..k]), es[k])
    ensures WarningCount(es[..k + 1], targetRouteRef, keys, x)
      == WarningCount(es[..k], targetRouteRef, keys, x) + ElementWarningCount(es[k], targetRouteRef, keys, x)
    ensures Count(es[..k + 1], keys, NoName) == Count(es[..k], keys, NoName) + Tick(es[k], keys, NoName)
  {
    assert es[..k + 1][..k] == es[..k] && es[..k + 1][k] == es[k];
  }

  /** The element loop of row i: the row for group g and what it adds to the totals. */
  method BuildRow(i: nat, g: MatchedBusStop, x: Tagging, ignore: map<string, int>, warningsSum: nat, osmStopsNoName: nat)
    returns (row: MatchResult, ignore': map<string, int>, warningsSum': nat, osmStopsNoName': nat)
    ensures row == Row(i, g, ignore.Keys, x)
    ensures ignore' == Bumped(ignore, g.elements) && ignore'.Keys == ignore.Keys
    ensures warningsSum' == warningsSum + WarningCount(g.elements, TargetRouteRef(g), ignore.Keys, x)
    ensures osmStopsNoName' == osmStopsNoName + Count(g.elements, ignore.Keys, NoName)
  {
    var es := g.elements;
    ghost var keys := ignore.Keys;
    row := MatchResult(i + 1, g.vvrId, g.name, false, es != [], g.vvrId != "", 0, 0, 0, []);
    ignore', warningsSum', osmStopsNoName' := ignore, warningsSum, osmStopsNoName;
    assert es[..0] == [];
    for k := 0 to |es|
      invariant row == PartialRow(i, g, es[..k], keys, x)
      invariant ignore' == Bumped(ignore, es[..k]) && ignore'.Keys == keys
      invariant warningsSum' == warningsSum + WarningCount(es[..k], TargetRouteRef(g), keys, x)
      invariant osmStopsNoName' == osmStopsNoName + Count(es[..k], keys, NoName)
    {
      PartialRowSnoc(i, g, es, k, keys, x);
      TotalsElementSnoc(ignore, es, k, TargetRouteRef(g), keys, x);
      var targetRouteRef, err := ConvertLinienToRouteRef(g.linien);
      assert targetRouteRef == TargetRouteRef(g);
      row, ignore', warningsSum', osmStopsNoName' := CheckElement(row, es[k], targetRouteRef, x, ignore', warningsSum', osmStopsNoName');
    }
    assert es[..|es|] == es;
  }

  // ---------------------------------------------------------------------
  // All rows and the statistics

  function VvrCount(mbs: seq<MatchedBusStop>): nat
  {
    if mbs == [] then 0 else VvrCount(mbs[..|mbs| - 1]) + if mbs[|mbs| - 1].vvrId != "" then 1 else 0
  }

  /** Groups of a VVR stop that no OSM element was put with. */
  function RemainingVvrCount(mbs: seq<MatchedBusStop>): nat
  {
    if mbs == [] then 0
    else RemainingVvrCount(mbs[..|mbs| - 1]) + if mbs[|mbs| - 1].vvrId != "" && mbs[|mbs| - 1].elements == [] then 1 else 0
  }

  function NoNameCount(mbs: seq<MatchedBusStop>, keys: set<string>): nat
  {
    if mbs == [] then 0 else NoNameCount(mbs[..|mbs| - 1], keys) + Count(mbs[|mbs| - 1].elements, keys, NoName)
  }

  function WarningsSum(mbs: seq<MatchedBusStop>, keys: set<string>, x: Tagging): nat
  {
    if mbs == [] then 0
    else
      var g := mbs[|mbs| - 1];
      WarningsSum(mbs[..|mbs| - 1], keys, x) + WarningCount(g.elements, TargetRouteRef(g), keys, x)
  }

  function BumpedAll(m: map<string, int>, mbs: seq<MatchedBusStop>): map<string, int>
  {
    if mbs == [] then m else Bumped(BumpedAll(m, mbs[..|mbs| - 1]), mbs[|mbs| - 1].elements)
  }

  /** The statistics block; the two OSM totals come from the reconciliation. */
  function StatsOf(mbs: seq<MatchedBusStop>, keys: set<string>, x: Tagging, totalOsmElements: int, remainingOsmElements: int): Statistics
  {
    var vvr := VvrCount(mbs);
    var remainingVvr := RemainingVvrCount(mbs);
    Statistics(
      vvr, totalOsmElements, NoNameCount(mbs, keys), remainingVvr, remainingOsmElements,
      totalOsmElements - remainingOsmElements, vvr - remainingVvr, WarningsSum(mbs, keys, x))
  }

  /** What the group loop accumulates besides the rows. */
  datatype Totals = Totals(ignore: map<string, int>, vvrStops: nat, remainingVvrStops: nat, noName: nat, warnings: nat)

  /** The totals after the group loop has handled group g. */
  function AfterGroup(t: Totals, g: MatchedBusStop, keys: set<string>, x: Tagging): Totals
  {
    Totals(
      Bumped(t.ignore, g.elements),
      t.vvrStops + (if g.vvrId != "" then 1 else 0),
      t.remainingVvrStops + (if g.vvrId != "" && g.elements == [] then 1 else 0),
      t.noName + Count(g.elements, keys, NoName),
      t.warnings + WarningCount(g.elements, TargetRouteRef(g), keys, x))
  }

  function TotalsOf(m: map<string, int>, mbs: seq<MatchedBusStop>, x: Tagging): Totals
  {
    Totals(BumpedAll(m, mbs), VvrCount(mbs), RemainingVvrCount(mbs), NoNameCount(mbs, m.Keys), WarningsSum(mbs, m.Keys, x))
  }

  lemma TotalsSnoc(m: map<string, int>, mbs: seq<MatchedBusStop>, i: nat, x: Tagging)
    requires i < |mbs|
    ensures var t := TotalsOf(m, mbs[..i], x);
      var g := mbs[i];
      TotalsOf(m, mbs[..i + 1], x) == AfterGroup(t, g, m.Keys, x)
  {
    assert mbs[..i + 1][..i] == mbs[..i] && mbs[..i + 1][i] == mbs[i];
  }

  lemma {:induction false} BumpedKeys(m: map<string, int>, es: seq<OsmElement>)
    ensures Bumped(m, es).Keys == m.Keys
  {
    if es != [] {
      BumpedKeys(m, es[..|es| - 1]);
    }
  }

  lemma {:induction false} BumpedAllKeys(m: map<string, int>, mbs: seq<MatchedBusStop>)
    ensures BumpedAll(m, mbs).Keys == m.Keys
  {
    if mbs != [] {
      BumpedAllKeys(m, mbs[..|mbs| - 1]);
      BumpedKeys(BumpedAll(m, mbs[..|mbs| - 1]), mbs[|mbs| - 1].elements);
    }
  }

  /** The body of the group loop for group i. */
  method ValidateGroup(i: nat, g: MatchedBusStop, x: Tagging, keys: set<string>, t: Totals) returns (row: MatchResult, t': Totals)
    requires t.ignore.Keys == keys
    ensures row == Row(i, g, keys, x)
    ensures t' == AfterGroup(t, g, keys, x)
  {
    var vvrBusStopSum, remainingVvrStops := t.vvrStops, t.remainingVvrStops;
    var ignore, warningsSum, osmStopsNoName;
    row, ignore, warningsSum, osmStopsNoName := BuildRow(i, g, x, t.ignore, t.warnings, t.noName);
    if row.isInVvr {
      vvrBusStopSum := vvrBusStopSum + 1;
    }
    if row.isInVvr && |g.elements| == 0 {
      remainingVvrStops := remainingVvrStops + 1;
    }
    t' := Totals(ignore, vvrBusStopSum, remainingVvrStops, osmStopsNoName, warningsSum);
  }

  ghost predicate RowsOf(rows: seq<MatchResult>, mbs: seq<MatchedBusStop>, keys: set<string>, x: Tagging)
  {
    |rows| <= |mbs| && forall j :: 0 <= j < |rows| ==> rows[j] == Row(j, mbs[j], keys, x)
  }

  lemma RowsOfSnoc(rows: seq<MatchResult>, mbs: seq<MatchedBusStop>, keys: set<string>, x: Tagging, row: MatchResult)
    requires RowsOf(rows, mbs, keys, x) && |rows| < |mbs| && row == Row(|rows|, mbs[|rows|], keys, x)
    ensures RowsOf(rows + [row], mbs, keys, x)
  {
  }

  /**
   * The loop over the groups: `result` gets row i for group i, and the
   * counters, sums and map are accumulated across all groups.
   */
  method ValidateGroups(
    mbs: seq<MatchedBusStop>, x: Tagging, ignoreIn: map<string, int>, totalOsmElements: int, remainingOsmElements: int)
    returns (result: array<MatchResult>, ignoreOut: map<string, int>, stats: Statistics)
    ensures fresh(result) && result.Length == |mbs|
    ensures RowsOf(result[..], mbs, ignoreIn.Keys, x)
    ensures ignoreOut == BumpedAll(ignoreIn, mbs) && ignoreOut.Keys == ignoreIn.Keys
    ensures stats == StatsOf(mbs, ignoreIn.Keys, x, totalOsmElements, remainingOsmElements)
  {
    var totals := Totals(ignoreIn, 0, 0, 0, 0);
    result := new MatchResult[|mbs|];
    assert mbs[..0] == [];
    for i := 0 to |mbs|
      invariant RowsOf(result[..i], mbs, ignoreIn.Keys, x)
      invariant totals == TotalsOf(ignoreIn, mbs[..i], x)
    {
      TotalsSnoc(ignoreIn, mbs, i, x);
      BumpedAllKeys(ignoreIn, mbs[..i]);
      var row;
      ghost var before := result[..i];
      row, totals := ValidateGroup(i, mbs[i], x, ignoreIn.Keys, totals);
      result[i] := row;
      assert result[..i + 1] == before + [row] by {
        assert result[..i] == before;
      }
      RowsOfSnoc(before, mbs, ignoreIn.Keys, x, row);
    }
    assert mbs[..|mbs|] == mbs;
    assert result[..|mbs|] == result[..];
    BumpedAllKeys(ignoreIn, mbs);
    ignoreOut := totals.ignore;
    stats := Statistics(
      totals.vvrStops, totalOsmElements, totals.noName, totals.remainingVvrStops, remainingOsmElements,
      totalOsmElements - remainingOsmElements, totals.vvrStops - totals.remainingVvrStops, totals.warnings);
  }

  // ---------------------------------------------------------------------
  // The OSM reference column as HTML

  /** strconv.FormatInt(n, 10). */
  function FormatInt(n: int): (r: string)
    ensures r != []
  {
    if n < 0 then "-" + Itoa(-n) else Itoa(n)
  }

  /** The text of a warning after its "<br />- " prefix. */
  function WarningText(w: Warning, x: Tagging): string
  {
    match w
    case NetworkMissing => WarningNetworkTagMissing
    case NetworkNotCorrect(v) => WarningNetworkTagNotCorrect + ". " + v + " instead of network=" + x.network
    case NetworkGuidMissing => WarningNetworkGuidTagMissing
    case NetworkGuidNotCorrect(v) => WarningNetworkGuidTagNotCorrect + ". " + v + " instead of network:guid=" + x.networkGuid
    case NetworkShortMissing => WarningNetworkShortTagMissing
    case NetworkShortNotCorrect(v) => WarningNetworkShortTagNotCorrect + ". " + v + " instead of network:short" + x.networkShort
    case RouteRefMissing(t) => "route_ref missing:<br><code>route_ref=" + t + "</code>"
    case RouteRefNotMatching(v, t) =>
      "existing <code>route_ref=" + v + "</code> does not match calculated <code>route_ref=" + t + "</code>"
    case OperatorMissing => WarningOperatorTagMissing + WarningOperatorMightBeVvr
    case OperatorNotCorrect(v) => WarningOperatorTagNotCorrect + ". " + v + " instead of operator=" + x.operator
  }

  /** Object links need a type: the JOSM link takes its first letter. */
  predicate Renderable(ns: seq<Note>)
  {
    forall k :: 0 <= k < |ns| && ns[k].ObjectLink? ==> ns[k].typ != ""
  }

  function NoteHtml(n: Note, x: Tagging): string
    requires n.ObjectLink? ==> n.typ != ""
  {
    match n
    case ObjectLink(typ, id) =>
      var objectId := FormatInt(id);
      var objectUrl := "http://osm.org/" + typ + "/" + objectId;
      var josmLink := "<a href=\"http://127.0.0.1:8111/load_object?new_layer=false&objects=" + [typ[0]] + objectId
        + "\" target=\"hiddenIframe\" title=\"edit in JOSM\">(j)</a>";
      "<p><a href=\"" + objectUrl + "\">" + typ + " " + objectId + "</a> " + josmLink
    case IgnoredOperator(operator) => " (Operator is " + operator + ")</p>"
    case Warn(w) => "<br />- " + WarningText(w, x)
    case EndOfObject => "</p>"
  }

  /** The strings of `ss`, one after the other. */
  function Concat(ss: seq<string>): string
  {
    if ss == [] then "" else Concat(ss[..|ss| - 1]) + ss[|ss| - 1]
  }

  lemma {:induction false} ConcatAppend(a: seq<string>, b: seq<string>)
    ensures Concat(a + b) == Concat(a) + Concat(b)
  {
    if b == [] {
      assert a + b == a;
    } else {
      var ab, init := a + b, b[..|b| - 1];
      assert ab[..|ab| - 1] == a + init;
      assert ab[|ab| - 1] == b[|b| - 1];
      ConcatAppend(a, init);
      assert Concat(ab) == Concat(a + init) + b[|b| - 1];
      assert Concat(b) == Concat(init) + b[|b| - 1];
    }
  }

  function NoteHtmls(ns: seq<Note>, x: Tagging): (hs: seq<string>)
    requires Renderable(ns)
    ensures |hs| == |ns| && forall k :: 0 <= k < |ns| ==> hs[k] == NoteHtml(ns[k], x)
  {
    seq(|ns|, k requires 0 <= k < |ns| && Renderable(ns) => NoteHtml(ns[k], x))
  }

  /** The column text: the notes rendered one after the other. */
  function Render(ns: seq<Note>, x: Tagging): string
    requires Renderable(ns)
  {
    Concat(NoteHtmls(ns, x))
  }

  lemma RenderableAppend(a: seq<Note>, b: seq<Note>)
    requires Renderable(a) && Renderable(b)
    ensures Renderable(a + b)
  {
    assert forall k :: 0 <= k < |a| ==> (a + b)[k] == a[k];
    assert forall k :: |a| <= k < |a + b| ==> (a + b)[k] == b[k - |a|];
  }

  lemma NoteHtmlsAppend(a: seq<Note>, b: seq<Note>, x: Tagging)
    requires Renderable(a) && Renderable(b) && Renderable(a + b)
    ensures NoteHtmls(a + b, x) == NoteHtmls(a, x) + NoteHtmls(b, x)
  {
    var h, ha, hb := NoteHtmls(a + b, x), NoteHtmls(a, x), NoteHtmls(b, x);
    forall k | 0 <= k < |h|
      ensures h[k] == (ha + hb)[k]
    {
      if k < |a| {
        assert (a + b)[k] == a[k];
      } else {
        assert (a + b)[k] == b[k - |a|];
      }
    }
  }

  /** Rendering a column built by appending is appending the renderings. */
  lemma RenderAppend(a: seq<Note>, b: seq<Note>, x: Tagging)
    requires Renderable(a) && Renderable(b)
    ensures Renderable(a + b)
    ensures Render(a + b, x) == Render(a, x) + Render(b, x)
  {
    RenderableAppend(a, b);
    NoteHtmlsAppend(a, b, x);
    ConcatAppend(NoteHtmls(a, x), NoteHtmls(b, x));
  }

  /** Elements of a non-empty type give a column that can be rendered. */
  lemma {:induction false} NotesRenderable(es: seq<OsmElement>, targetRouteRef: string, keys: set<string>, x: Tagging)
    requires forall k :: 0 <= k < |es| ==> es[k].typ != ""
    ensures Renderable(Notes(es, targetRouteRef, keys, x))
  {
    if es != [] {
      NotesRenderable(es[..|es| - 1], targetRouteRef, keys, x);
    }
  }
}
