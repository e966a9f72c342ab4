// The configuration tables of contants.go.

module Constants {
  import opened Text

  const CacheTimeOverpassInHours: nat := 8
  const CacheTimeVvrInHours: nat := 167

  // Expected tag values of a VVR stop.
  const TagNetwork: string := "Verkehrsgesellschaft Vorpommern-Rügen"
  const TagNetworkGuid: string := "DE-MV-VVR"
  const TagNetworkShort: string := "VVR"
  const TagOperator: string := "Verkehrsgesellschaft Vorpommern-Rügen"

  // Texts of the warnings written into the report.
  const WarningNetworkTagMissing: string := "network tag is missing"
  const WarningNetworkGuidTagMissing: string := "network:guid tag is missing"
  const WarningNetworkShortTagMissing: string := "network:short tag is missing"
  const WarningOperatorTagMissing: string := "operator is missing"
  const WarningOperatorMightBeVvr: string := ", might be operator=" + TagOperator
  const WarningNetworkTagNotCorrect: string := "network tag is not correct"
  const WarningNetworkGuidTagNotCorrect: string := "network:guid tag is not correct"
  const WarningNetworkShortTagNotCorrect: string := "network:short tag is not correct"
  const WarningOperatorTagNotCorrect: string := "operator is not correct"

  /** The letters that are paired up to form the VVR search words. */
  const Alphabet: seq<string> := ["a", "b", "c", "d", "e", "f", "g", "h", "i", "j", "k", "l", "m", "n", "o",
                                  "p", "q", "r", "s", "t", "u", "v", "w", "x", "y", "z", "ä", "ö", "ü", "ß"]

  /** Operators whose stops are not VVR's; each starts with a zero usage counter. */
  const IgnoreBusStopsWithOperators: map<string, int> := map[
    "Darßbahn" := 0,
    "Rügen-Bahnen" := 0,
    "Kap-Arkona-Bahn" := 0,
    "Busunternehmen M. Scholz" := 0,
    "Deutsche Bahn" := 0,
    "Flixbus" := 0,
    "Gemeinde Binz" := 0,
    "Regenbogencamp Nonnevitz" := 0,
    "Stadtwerke Greifswald GmbH (SWG)" := 0,
    "Stadtwerke Greifswald GmbH" := 0,
    "Anklamer Verkehrsgesellschaft mbH" := 0
  ]

  /** VVR stops to leave out: any whose name contains one of these. */
  const IgnoreVvrStops: seq<string> := [
    "Richtenberg, Mühlenbergstraße", "Kölzow", "Kloster, Kirchweg", "Neu Lüdershagen, II", "Vitte, Hafen",
    "Klevenow, Gemeinde", "Stralsund, Franzburg", "Schulenberg, Feuerwehr", "Papenhagen, Ersatzhaltestelle",
    "Hoikenhagen, Ersatzhaltestelle", "Stralsund, Bremer Str.", "Bergen, Industriestraße",
    "Barth, Vineta Sportarena", "Baabe, Haus des Gastes", "Baabe, Göhrener Chaussee", "Lassentin, Ausbau Ort",
    "Kölzow, Ausbau", "Richtenberg, Am Sportplatz", "Poggendorf, Alte Dorfstraße", "Stralsund, Altenpleen",
    "Stralsund, Betriebsfahrt", "Glowe, Wendeplatz", "Gager, Hafen", "Franzburg, Garthofstraße",
    "Dorow, Abzweig", "Damgarten, Bahnhof Ost", "Camper, Ortseingang", "Camitz, Försterei",
    "Balkenkoppel, Abzweig", "Groß Lehmhagen, Dorf", "Stralsund, Krönnevitz", "Stralsund, Kummerow", "SEV",
    "(Workshop)", "Schulbus", "Wagen defekt", "Stralsund, Velgast", "Stralsund, Tribseer Wiesen",
    "Sonderfahrt", "Probefahrt", "Stralsund, O.-Palme-Platz Wende", "Stralsund, Miltzow",
    "Stralsund, Klausdorf", "Stralsund, Jaromastraße", "Stralsund, Hexenplatz P+R", "Stralsund, Herzfeld"]

  /** The ordered normalisation table: rule i replaces SearchStopName[i] by ReplaceStopName[i]. */
  const SearchStopName: seq<string> := [
    "straße d. jugend", "elmemhorst", "gr.", "lüdershg.", "bartelshg.ii", "c.-heydemann", "h.-von-stephan",
    "e.-m.-arndt", "h.-heine-ring", "deutsche rentenversicherung", "l.-feuchtwanger", "-", "/", ",",
    "ä", "ö", "ü", "ß", "(", ")", ".", "strasse", "haupthst", "wpl", "krhs"]
  const ReplaceStopName: seq<string> := [
    "straße der jugend", "elmenhorst", "groß", "lüdershagen", "bartelshagen ii", "carl-heydemann",
    "heinrich-von-stephan", "ernst-moritz-arndt", "heinrich-heine-ring", "drv", "lion-feuchtwanger", " ", " ", "",
    "ae", "oe", "ue", "ss", "", "", "", "str", "haupthaltestelle", "wendeplatz", "krankenhaus"]

  /** The two halves of the table line up, which the matcher demands. */
  lemma TablesAgree()
    ensures |SearchStopName| == |ReplaceStopName| == 25
  {
  }

  /** No character of `s` is an upper-case letter. */
  predicate AllLower(s: string)
  {
    forall k :: 0 <= k < |s| ==> !IsUpper(s[k])
  }

  lemma LowerFixed(s: string)
    requires AllLower(s)
    ensures ToLower(s) == s
  {
  }

  // The table is checked in five slices, each a small proof on literals.
  lemma PatternsLower0()
    ensures forall i :: 0 <= i < 4 ==> AllLower(SearchStopName[i])
  {
  }

  lemma PatternsLower1()
    ensures forall i :: 4 <= i < 8 ==> AllLower(SearchStopName[i])
  {
  }

  lemma PatternsLower2()
    ensures forall i :: 8 <= i < 10 ==> AllLower(SearchStopName[i])
  {
  }

  lemma PatternsLower3()
    ensures forall i :: 10 <= i < 11 ==> AllLower(SearchStopName[i])
  {
  }

  lemma PatternsLower4()
    ensures forall i :: 11 <= i < 25 ==> AllLower(SearchStopName[i])
  {
  }

  /** Every search pattern is already lower case, so it can match a lower-cased name. */
  lemma SearchPatternsLowerCase()
    ensures forall i :: 0 <= i < |SearchStopName| ==> ToLower(SearchStopName[i]) == SearchStopName[i]
  {
    PatternsLower0();
    PatternsLower1();
    PatternsLower2();
    PatternsLower3();
    PatternsLower4();
    forall i | 0 <= i < |SearchStopName| ensures ToLower(SearchStopName[i]) == SearchStopName[i] {
      LowerFixed(SearchStopName[i]);
    }
  }

  /** No search pattern is empty. */
  lemma SearchPatternsNonEmpty()
    ensures forall i :: 0 <= i < |SearchStopName| ==> SearchStopName[i] != []
  {
  }

  /** The alphabet has 30 one-letter entries, pairwise distinct. */
  lemma AlphabetDistinct()
    ensures |Alphabet| == 30
    ensures forall i :: 0 <= i < |Alphabet| ==> |Alphabet[i]| == 1
    ensures forall i, j :: 0 <= i < j < |Alphabet| ==> Alphabet[i] != Alphabet[j]
  {
  }

  /** Every ignore-operator counter starts at zero. */
  lemma IgnoreCountersStartAtZero()
    ensures forall op :: op in IgnoreBusStopsWithOperators ==> IgnoreBusStopsWithOperators[op] == 0
  {
  }
}
