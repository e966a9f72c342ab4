// The records of types.go that the reconciler reads or builds. Fields the
// core never touches (coordinates, amenity tags, VVR `cla`/`label`/`typ`)
// are omitted.

module Types {

  /** One stop as listed by the VVR search. */
  datatype VvrBusStop = VvrBusStop(id: string, value: string, linien: string)

  /** The VVR answer for one search word; the timestamp is in seconds. */
  datatype VvrCity = VvrCity(searchWord: string, resultTimeStamp: int, result: seq<VvrBusStop>)

  datatype VvrData = VvrData(cityResults: seq<VvrCity>)

  /** The OSM tags the validator inspects; an absent tag is the empty string. */
  datatype OsmTags = OsmTags(
    highway: string,
    name: string,
    network: string,
    networkGuid: string,
    networkShort: string,
    operator: string,
    publicTransport: string,
    routeRef: string)

  /** An OSM node, way or relation; `id` is the 64-bit OSM id, unique only per type. */
  datatype OsmElement = OsmElement(typ: string, id: int, tags: OsmTags)

  /** A group of the report: one VVR stop (empty `vvrId` if none) and the OSM elements put with it. */
  datatype MatchedBusStop = MatchedBusStop(
    name: string,
    vvrId: string,
    linien: string,
    city: string,
    elements: seq<OsmElement>)

  /** The problems the validator reports about one OSM element. */
  datatype Warning =
    | NetworkMissing
    | NetworkNotCorrect(network: string)
    | NetworkGuidMissing
    | NetworkGuidNotCorrect(guid: string)
    | NetworkShortMissing
    | NetworkShortNotCorrect(short: string)
    | RouteRefMissing(expected: string)
    | RouteRefNotMatching(existing: string, expected: string)
    | OperatorMissing
    | OperatorNotCorrect(operator: string)

  /** One piece of a row's OSM reference column (rendered to HTML by Validate.Render). */
  datatype Note =
    | ObjectLink(typ: string, id: int)
    | IgnoredOperator(operator: string)
    | Warn(warning: Warning)
    | EndOfObject

  /** One row of the report. */
  datatype MatchResult = MatchResult(
    id: int,
    vvrId: string,
    name: string,
    isIgnored: bool,
    isInOsm: bool,
    isInVvr: bool,
    nrBusStops: nat,
    nrPlatforms: nat,
    nrStopPositions: nat,
    osmReference: seq<Note>)

  datatype Statistics = Statistics(
    vvrStops: int,
    osmStops: int,
    osmStopsNoName: int,
    remainingVvrStops: int,
    remainingOsmStops: int,
    osmStopsMatchingVvr: int,
    vvrStopsWithOsmObject: int,
    warningsSum: int)
}
