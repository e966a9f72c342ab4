// What the report says about the OSM elements: the notes of a row against
// the elements of its group, the ignore counters against the operators
// seen, the statistics against the groups, and the run of main.go from the
// VVR data and the OSM elements to the report (main.go, lines 140-353).

module Report {
  import opened Types
  import opened Constants
  import opened Reconcile
  import opened Validate

  // ---------------------------------------------------------------------
  // Counting notes and elements

  /** The four kinds of notes in the OSM reference column. */
  datatype NoteKind = LinkKind | IgnoredKind | WarnKind | EndKind

  predicate OfKind(n: Note, k: NoteKind)
  {
    match k
    case LinkKind => n.ObjectLink?
    case IgnoredKind => n.IgnoredOperator?
    case WarnKind => n.Warn?
    case EndKind => n.EndOfObject?
  }

  function NoteCount(ns: seq<Note>, k: NoteKind): nat
  {
    if ns == [] then 0 else NoteCount(ns[..|ns| - 1], k) + if OfKind(ns[|ns| - 1], k) then 1 else 0
  }

  /** The objects a column links to, in order, as (type, id) keys. */
  function Links(ns: seq<Note>): seq<(string, int)>
  {
    if ns == [] then []
    else
      var n := ns[|ns| - 1];
      Links(ns[..|ns| - 1]) + if n.ObjectLink? then [(n.typ, n.id)] else []
  }

  /** The elements whose operator is one of the ignored ones. */
  function IgnoredCount(es: seq<OsmElement>, keys: set<string>): (r: nat)
    ensures r <= |es|
  {
    if es == [] then 0 else IgnoredCount(es[..|es| - 1], keys) + if IsIgnored(es[|es| - 1], keys) then 1 else 0
  }

  /** The elements tagged with operator `op`. */
  function OperatorCount(es: seq<OsmElement>, op: string): nat
  {
    if es == [] then 0 else OperatorCount(es[..|es| - 1], op) + if es[|es| - 1].tags.operator == op then 1 else 0
  }

  lemma {:induction false} NoteCountAppend(a: seq<Note>, b: seq<Note>, k: NoteKind)
    ensures NoteCount(a + b, k) == NoteCount(a, k) + NoteCount(b, k)
  {
    if b == [] {
      assert a + b == a;
    } else {
      assert (a + b)[..|a + b| - 1] == a + b[..|b| - 1];
      NoteCountAppend(a, b[..|b| - 1], k);
    }
  }

  lemma {:induction false} LinksAppend(a: seq<Note>, b: seq<Note>)
    ensures Links(a + b) == Links(a) + Links(b)
  {
    if b == [] {
      assert a + b == a;
    } else {
      assert (a + b)[..|a + b| - 1] == a + b[..|b| - 1];
      LinksAppend(a, b[..|b| - 1]);
    }
  }

  lemma {:induction false} CountAppend(a: seq<OsmElement>, b: seq<OsmElement>, keys: set<string>, role: Role)
    ensures Count(a + b, keys, role) == Count(a, keys, role) + Count(b, keys, role)
    ensures IgnoredCount(a + b, keys) == IgnoredCount(a, keys) + IgnoredCount(b, keys)
  {
    if b == [] {
      assert a + b == a;
    } else {
      assert (a + b)[..|a + b| - 1] == a + b[..|b| - 1];
      CountAppend(a, b[..|b| - 1], keys, role);
    }
  }

  lemma {:induction false} OperatorCountAppend(a: seq<OsmElement>, b: seq<OsmElement>, op: string)
    ensures OperatorCount(a + b, op) == OperatorCount(a, op) + OperatorCount(b, op)
  {
    if b == [] {
      assert a + b == a;
    } else {
      assert (a + b)[..|a + b| - 1] == a + b[..|b| - 1];
      OperatorCountAppend(a, b[..|b| - 1], op);
    }
  }

  /** Reordering the elements does not change how many carry an operator. */
  lemma {:induction false} OperatorCountPermutation(a: seq<OsmElement>, b: seq<OsmElement>, op: string)
    requires multiset(a) == multiset(b)
    ensures OperatorCount(a, op) == OperatorCount(b, op)
    decreases |a|
  {
    if a == [] {
      assert |b| == |multiset(b)| == 0;
    } else {
      var init, e := a[..|a| - 1], a[|a| - 1];
      MultisetSnoc(a);
      assert e in multiset(b);
      var j :| 0 <= j < |b| && b[j] == e;
      var rest := b[..j] + b[j + 1..];
      assert b == b[..j] + [e] + b[j + 1..];
      assert multiset(b) == multiset(b[..j]) + multiset{e} + multiset(b[j + 1..]);
      assert multiset(rest) == multiset(b[..j]) + multiset(b[j + 1..]);
      assert multiset(rest) == multiset(b) - multiset{e};
      assert multiset(init) == multiset(a) - multiset{e};
      OperatorCountPermutation(init, rest, op);
      OperatorCountAppend(b[..j], b[j + 1..], op);
      OperatorCountAppend(b[..j] + [e], b[j + 1..], op);
      OperatorCountAppend(b[..j], [e], op);
      assert [e][..0] == [];
    }
  }

  // ---------------------------------------------------------------------
  // One row against its group

  lemma {:induction false} WarnNotesCount(ws: seq<Warning>, k: NoteKind)
    ensures NoteCount(WarnNotes(ws), k) == if k == WarnKind then |ws| else 0
    ensures Links(WarnNotes(ws)) == []
  {
    if ws != [] {
      var init := ws[..|ws| - 1];
      assert WarnNotes(ws) == WarnNotes(init) + [Warn(ws[|ws| - 1])];
      WarnNotesCount(init, k);
      NoteCountAppend(WarnNotes(init), [Warn(ws[|ws| - 1])], k);
      LinksAppend(WarnNotes(init), [Warn(ws[|ws| - 1])]);
      assert [Warn(ws[|ws| - 1])][..0] == [];
    }
  }

  /** How many notes of each kind one element contributes. */
  function ElementShare(e: OsmElement, targetRouteRef: string, keys: set<string>, x: Tagging, k: NoteKind): nat
  {
    match k
    case LinkKind => 1
    case IgnoredKind => if IsIgnored(e, keys) then 1 else 0
    case WarnKind => ElementWarningCount(e, targetRouteRef, keys, x)
    case EndKind => if IsIgnored(e, keys) then 0 else 1
  }

  /** The notes of an element that is not ignored, whatever its warnings are. */
  lemma CheckedNotesCount(e: OsmElement, ws: seq<Warning>, k: NoteKind)
    ensures var ns := [ObjectLink(e.typ, e.id)] + (WarnNotes(ws) + [EndOfObject]);
      && NoteCount(ns, k) == (match k case LinkKind => 1 case IgnoredKind => 0 case WarnKind => |ws| case EndKind => 1)
      && Links(ns) == [KeyOf(e)]
  {
    var link: seq<Note> := [ObjectLink(e.typ, e.id)];
    var end: seq<Note> := [EndOfObject];
    assert link[..0] == [] && end[..0] == [];
    WarnNotesCount(ws, k);
    NoteCountAppend(WarnNotes(ws), end, k);
    NoteCountAppend(link, WarnNotes(ws) + end, k);
    LinksAppend(WarnNotes(ws), end);
    LinksAppend(link, WarnNotes(ws) + end);
  }

  /**
   * An element's notes: one link to it, then either the ignored-operator
   * note, or its warnings and the end-of-object note.
   */
  lemma ElementNotesCount(e: OsmElement, targetRouteRef: string, keys: set<string>, x: Tagging, k: NoteKind)
    ensures NoteCount(ElementNotes(e, targetRouteRef, keys, x), k) == ElementShare(e, targetRouteRef, keys, x, k)
    ensures Links(ElementNotes(e, targetRouteRef, keys, x)) == [KeyOf(e)]
  {
    var link: seq<Note> := [ObjectLink(e.typ, e.id)];
    if IsIgnored(e, keys) {
      var tail: seq<Note> := [IgnoredOperator(e.tags.operator)];
      assert link[..0] == [] && tail[..0] == [];
      NoteCountAppend(link, tail, k);
      LinksAppend(link, tail);
    } else {
      var ws := Warnings(e, targetRouteRef, x);
      assert ElementNotes(e, targetRouteRef, keys, x) == link + (WarnNotes(ws) + [EndOfObject]);
      CheckedNotesCount(e, ws, k);
    }
  }

  /**
   * The column of a group links to every element of the group exactly once
   * and in order, marks each ignored element once, carries every warning
   * of the elements that are not ignored and closes each of those once.
   */
  lemma {:induction false} NotesCount(es: seq<OsmElement>, targetRouteRef: string, keys: set<string>, x: Tagging)
    ensures Links(Notes(es, targetRouteRef, keys, x)) == Keys(es)
    ensures NoteCount(Notes(es, targetRouteRef, keys, x), LinkKind) == |es|
    ensures NoteCount(Notes(es, targetRouteRef, keys, x), IgnoredKind) == IgnoredCount(es, keys)
    ensures NoteCount(Notes(es, targetRouteRef, keys, x), WarnKind) == WarningCount(es, targetRouteRef, keys, x)
    ensures NoteCount(Notes(es, targetRouteRef, keys, x), EndKind) == |es| - IgnoredCount(es, keys)
  {
    if es != [] {
      var init, e := es[..|es| - 1], es[|es| - 1];
      var ni, ne := Notes(init, targetRouteRef, keys, x), ElementNotes(e, targetRouteRef, keys, x);
      NotesCount(init, targetRouteRef, keys, x);
      LinksAppend(ni, ne);
      ElementNotesCount(e, targetRouteRef, keys, x, LinkKind);
      ElementNotesCount(e, targetRouteRef, keys, x, IgnoredKind);
      ElementNotesCount(e, targetRouteRef, keys, x, WarnKind);
      ElementNotesCount(e, targetRouteRef, keys, x, EndKind);
      NoteCountAppend(ni, ne, LinkKind);
      NoteCountAppend(ni, ne, IgnoredKind);
      NoteCountAppend(ni, ne, WarnKind);
      NoteCountAppend(ni, ne, EndKind);
      assert Keys(es) == Keys(init) + [KeyOf(e)];
    }
  }

  /** A group has an ignored element exactly when one of its elements has an ignored operator. */
  lemma {:induction false} AnyIgnoredIff(es: seq<OsmElement>, keys: set<string>)
    ensures AnyIgnored(es, keys) <==> IgnoredCount(es, keys) > 0
  {
    if es != [] {
      var k := |es| - 1;
      AnyIgnoredIff(es[..k], keys);
      AnyIgnoredSnoc(es, k, keys);
      assert es[..k + 1] == es;
    }
  }

  /**
   * Each role counts only elements that are not ignored, and no element is
   * both a platform and a stop position.
   */
  lemma {:induction false} RoleCountBounds(es: seq<OsmElement>, keys: set<string>)
    ensures Count(es, keys, BusStop) <= |es| - IgnoredCount(es, keys)
    ensures Count(es, keys, NoName) <= |es| - IgnoredCount(es, keys)
    ensures Count(es, keys, Platform) + Count(es, keys, StopPosition) <= |es| - IgnoredCount(es, keys)
  {
    if es != [] {
      RoleCountBounds(es[..|es| - 1], keys);
    }
  }

  /** What row i says about group g. */
  lemma RowFacts(i: nat, g: MatchedBusStop, keys: set<string>, x: Tagging)
    ensures var r := Row(i, g, keys, x);
      var ignored := IgnoredCount(g.elements, keys);
      && r.id == i + 1 && r.vvrId == g.vvrId && r.name == g.name
      && (r.isInOsm <==> g.elements != [])
      && (r.isInVvr <==> g.vvrId != "")
      && Links(r.osmReference) == Keys(g.elements)
      && (r.isIgnored <==> ignored > 0)
      && (r.isIgnored <==> NoteCount(r.osmReference, IgnoredKind) > 0)
      && NoteCount(r.osmReference, WarnKind) == WarningCount(g.elements, TargetRouteRef(g), keys, x)
      && r.nrBusStops <= |g.elements| - ignored
      && r.nrPlatforms + r.nrStopPositions <= |g.elements| - ignored
  {
    NotesCount(g.elements, TargetRouteRef(g), keys, x);
    AnyIgnoredIff(g.elements, keys);
    RoleCountBounds(g.elements, keys);
  }

  // ---------------------------------------------------------------------
  // The ignore counters

  /** An ignore counter goes up by the number of elements with that operator. */
  lemma {:induction false} BumpedCount(m: map<string, int>, es: seq<OsmElement>, op: string)
    requires op in m
    ensures op in Bumped(m, es) && Bumped(m, es)[op] == m[op] + OperatorCount(es, op)
  {
    if es != [] {
      BumpedCount(m, es[..|es| - 1], op);
    }
  }

  lemma {:induction false} BumpedAllCount(m: map<string, int>, mbs: seq<MatchedBusStop>, op: string)
    requires op in m
    ensures op in BumpedAll(m, mbs) && BumpedAll(m, mbs)[op] == m[op] + OperatorCount(Flatten(mbs), op)
  {
    if mbs != [] {
      var init := mbs[..|mbs| - 1];
      BumpedAllCount(m, init, op);
      BumpedCount(BumpedAll(m, init), mbs[|mbs| - 1].elements, op);
      OperatorCountAppend(Flatten(init), mbs[|mbs| - 1].elements, op);
    }
  }

  // ---------------------------------------------------------------------
  // The statistics

  /** Groups of a VVR stop that received at least one OSM element. */
  function VvrWithOsmCount(mbs: seq<MatchedBusStop>): nat
  {
    if mbs == [] then 0
    else VvrWithOsmCount(mbs[..|mbs| - 1]) + if mbs[|mbs| - 1].vvrId != "" && mbs[|mbs| - 1].elements != [] then 1 else 0
  }

  /**
   * The VVR stops split into those with and those without OSM elements, so
   * the difference the statistics print counts the ones with elements.
   */
  lemma {:induction false} VvrCountSplit(mbs: seq<MatchedBusStop>)
    ensures VvrCount(mbs) == RemainingVvrCount(mbs) + VvrWithOsmCount(mbs)
  {
    if mbs != [] {
      VvrCountSplit(mbs[..|mbs| - 1]);
    }
  }

  /** Elements without a name, over all groups, are those of the concatenated groups. */
  lemma {:induction false} NoNameCountFlatten(mbs: seq<MatchedBusStop>, keys: set<string>)
    ensures NoNameCount(mbs, keys) == Count(Flatten(mbs), keys, NoName)
  {
    if mbs != [] {
      var init := mbs[..|mbs| - 1];
      NoNameCountFlatten(init, keys);
      CountAppend(Flatten(init), mbs[|mbs| - 1].elements, keys, NoName);
    }
  }

  /** The number of notes of kind k in the columns of all rows. */
  function RowNoteTotal(rows: seq<MatchResult>, k: NoteKind): nat
  {
    if rows == [] then 0 else RowNoteTotal(rows[..|rows| - 1], k) + NoteCount(rows[|rows| - 1].osmReference, k)
  }

  lemma RowsOfPrefix(rows: seq<MatchResult>, mbs: seq<MatchedBusStop>, keys: set<string>, x: Tagging)
    requires rows != [] && |rows| == |mbs| && RowsOf(rows, mbs, keys, x)
    ensures RowsOf(rows[..|rows| - 1], mbs[..|mbs| - 1], keys, x)
  {
  }

  /**
   * The rows of all groups link to every grouped element once, mark every
   * ignored one, and the printed warning total is the number of warnings
   * the columns carry.
   */
  lemma {:induction false} RowTotals(rows: seq<MatchResult>, mbs: seq<MatchedBusStop>, keys: set<string>, x: Tagging)
    requires |rows| == |mbs| && RowsOf(rows, mbs, keys, x)
    ensures RowNoteTotal(rows, LinkKind) == |Flatten(mbs)|
    ensures RowNoteTotal(rows, IgnoredKind) == IgnoredCount(Flatten(mbs), keys)
    ensures RowNoteTotal(rows, WarnKind) == WarningsSum(mbs, keys, x)
  {
    if rows != [] {
      var n := |rows| - 1;
      var g := mbs[n];
      RowsOfPrefix(rows, mbs, keys, x);
      RowTotals(rows[..n], mbs[..n], keys, x);
      assert rows[n] == Row(n, g, keys, x);
      NotesCount(g.elements, TargetRouteRef(g), keys, x);
      CountAppend(Flatten(mbs[..n]), g.elements, keys, NoName);
    }
  }

  // ---------------------------------------------------------------------
  // The whole run

  /**
   * Reconciliation followed by validation, with the tag values and ignored
   * operators of the program. The VVR data and the OSM elements are what
   * the program loads or fetches.
   */
  method Run(vvr: VvrData, elements: seq<OsmElement>)
    returns (result: array<MatchResult>, ignoreOut: map<string, int>, stats: Statistics)
    ensures fresh(result)
    ensures var st := Reconciled(vvr, elements);
      && result.Length == |st.mbs|
      && RowsOf(result[..], st.mbs, IgnoreBusStopsWithOperators.Keys, VvrTagging)
      && ignoreOut == BumpedAll(IgnoreBusStopsWithOperators, st.mbs)
      && stats == StatsOf(st.mbs, IgnoreBusStopsWithOperators.Keys, VvrTagging, |elements|, |st.pool|)
  {
    var mbs, totalOsmElements, remainingOsmElements := Reconcile.Reconcile(vvr, elements);
    result, ignoreOut, stats := ValidateGroups(mbs, VvrTagging, IgnoreBusStopsWithOperators, totalOsmElements, remainingOsmElements);
  }

  /** The groups the sweep built before the leftovers were added. */
  function Swept(vvr: VvrData, pool0: seq<OsmElement>): SweepState
  {
    var ls := Listings(vvr.cityResults);
    SweepAll(SweepState([], pool0), ls, CitiesOf(ls), SearchStopName, ReplaceStopName, IgnoreVvrStops)
  }

  /**
   * With unique (Type, ID) keys: "OSM stops matching VVR" is the number of
   * elements the sweep put with a VVR stop, "VVR stops with an OSM object"
   * counts the VVR groups that received elements, and the elements without
   * a name are counted over all groups.
   */
  lemma RunStatistics(vvr: VvrData, elements: seq<OsmElement>, keys: set<string>, x: Tagging)
    requires UniqueKeys(elements)
    ensures var st := Reconciled(vvr, elements);
      var s := StatsOf(st.mbs, keys, x, |elements|, |st.pool|);
      && s.osmStops == |elements|
      && s.osmStopsMatchingVvr == |Flatten(Swept(vvr, elements).mbs)|
      && s.remainingOsmStops == |elements| - |Flatten(Swept(vvr, elements).mbs)|
      && s.vvrStopsWithOsmObject == VvrWithOsmCount(st.mbs)
      && s.osmStopsNoName == Count(Flatten(st.mbs), keys, NoName)
  {
    var st := Reconciled(vvr, elements);
    ReconcileKeepsEveryElement(vvr, elements);
    assert st.pool == Swept(vvr, elements).pool;
    VvrCountSplit(st.mbs);
    NoNameCountFlatten(st.mbs, keys);
  }

  /**
   * With unique (Type, ID) keys, the counter the run prints for an ignored
   * operator is the number of input elements carrying that operator.
   */
  lemma RunIgnoreCounter(vvr: VvrData, elements: seq<OsmElement>, op: string)
    requires UniqueKeys(elements)
    requires op in IgnoreBusStopsWithOperators
    ensures var mbs := Reconciled(vvr, elements).mbs;
      op in BumpedAll(IgnoreBusStopsWithOperators, mbs)
      && BumpedAll(IgnoreBusStopsWithOperators, mbs)[op] == OperatorCount(elements, op)
  {
    var mbs := Reconciled(vvr, elements).mbs;
    ReconcileKeepsEveryElement(vvr, elements);
    IgnoreCountersStartAtZero();
    BumpedAllCount(IgnoreBusStopsWithOperators, mbs, op);
    OperatorCountPermutation(Flatten(mbs), elements, op);
  }
}
