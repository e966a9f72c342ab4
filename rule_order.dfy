// The order of the cleaning table matters: each rule rewrites the output of
// the rules before it (contants.go:81-83, applied in order by
// vvr-osm.go:24-33). The lemmas below follow names through the whole table,
// one stretch of rules at a time, and show which spellings end up equal.
// A stretch of rules that does not fire is crossed with one character per
// rule: a character of its pattern that the string lacks.

module RuleOrder {
  import opened Text
  import opened Constants
  import opened VvrOsm

  /** A rule whose pattern holds a character the string lacks leaves the string as it is. */
  lemma SkipRule(s: string, search: seq<string>, replace: seq<string>, k: nat, c: char)
    requires |search| == |replace| && k < |search|
    requires c in search[k] && c !in ApplyRules(s, search, replace, k)
    ensures ApplyRules(s, search, replace, k + 1) == ApplyRules(s, search, replace, k)
  {
    ReplaceAllMissingChar(ApplyRules(s, search, replace, k), search[k], replace[k], c);
  }

  /** Rule k replaces the one occurrence of its pattern, which starts the string. */
  lemma FireAtStart(s: string, search: seq<string>, replace: seq<string>, k: nat, b: string, d: char)
    requires |search| == |replace| && k < |search| && search[k] != []
    requires ApplyRules(s, search, replace, k) == search[k] + b
    requires d in search[k] && d !in b
    ensures ApplyRules(s, search, replace, k + 1) == replace[k] + b
  {
    ReplaceAllAt(search[k], b, replace[k]);
    ReplaceAllMissingChar(b, search[k], replace[k], d);
  }

  /** Rule k replaces the one occurrence of its pattern, which follows the prefix `a`. */
  lemma FireAfter(s: string, search: seq<string>, replace: seq<string>, k: nat, a: string, b: string, c: char, d: char)
    requires |search| == |replace| && k < |search| && search[k] != []
    requires ApplyRules(s, search, replace, k) == a + search[k] + b
    requires c in search[k] && c !in a + search[k][..|search[k]| - 1]
    requires d in search[k] && d !in b
    ensures ApplyRules(s, search, replace, k + 1) == a + replace[k] + b
  {
    ReplaceAllFirstMissingChar(a, search[k], b, replace[k], c);
    ReplaceAllMissingChar(b, search[k], replace[k], d);
  }

  // The entries of the table, read off a few at a time.

  lemma SearchEntries0To5()
    ensures SearchStopName[0] == "straße d. jugend"
    ensures SearchStopName[1] == "elmemhorst"
    ensures SearchStopName[2] == "gr."
    ensures SearchStopName[3] == "lüdershg."
    ensures SearchStopName[4] == "bartelshg.ii"
  { }

  lemma SearchEntries5To10()
    ensures SearchStopName[5] == "c.-heydemann"
    ensures SearchStopName[6] == "h.-von-stephan"
    ensures SearchStopName[7] == "e.-m.-arndt"
    ensures SearchStopName[8] == "h.-heine-ring"
    ensures SearchStopName[9] == "deutsche rentenversicherung"
  { }

  lemma SearchEntries10To17()
    ensures SearchStopName[10] == "l.-feuchtwanger"
    ensures SearchStopName[11] == "-"
    ensures SearchStopName[12] == "/"
    ensures SearchStopName[13] == ","
    ensures SearchStopName[14] == "ä"
    ensures SearchStopName[15] == "ö"
    ensures SearchStopName[16] == "ü"
  { }

  lemma SearchEntries17To25()
    ensures SearchStopName[17] == "ß"
    ensures SearchStopName[18] == "("
    ensures SearchStopName[19] == ")"
    ensures SearchStopName[20] == "."
    ensures SearchStopName[21] == "strasse"
    ensures SearchStopName[22] == "haupthst"
    ensures SearchStopName[23] == "wpl"
    ensures SearchStopName[24] == "krhs"
  { }

  lemma ReplaceEntries()
    ensures ReplaceStopName[0] == "straße der jugend"
    ensures ReplaceStopName[2] == "groß"
    ensures ReplaceStopName[17] == "ss"
    ensures ReplaceStopName[20] == ""
    ensures ReplaceStopName[21] == "str"
  { }

  /** Rules 1 to 16 leave alone a string that lacks, for each of them, one character of its pattern. */
  lemma Rules1To16Keep(s: string, x: string, search: seq<string>, replace: seq<string>)
    requires |search| == |replace| && 17 <= |search|
    requires 'h' in search[1] && '.' in search[2] && '.' in search[3] && '.' in search[4] && '.' in search[5] && '.' in search[6]
    requires '.' in search[7] && '.' in search[8] && 'h' in search[9] && '.' in search[10] && '-' in search[11] && '/' in search[12]
    requires ',' in search[13] && 'ä' in search[14] && 'ö' in search[15] && 'ü' in search[16]
    requires ',' !in x && '-' !in x && '.' !in x && '/' !in x && 'h' !in x && 'ä' !in x && 'ö' !in x && 'ü' !in x
    requires ApplyRules(s, search, replace, 1) == x
    ensures ApplyRules(s, search, replace, 17) == x
  {
    SkipRule(s, search, replace, 1, 'h');
    SkipRule(s, search, replace, 2, '.');
    SkipRule(s, search, replace, 3, '.');
    SkipRule(s, search, replace, 4, '.');
    SkipRule(s, search, replace, 5, '.');
    SkipRule(s, search, replace, 6, '.');
    SkipRule(s, search, replace, 7, '.');
    SkipRule(s, search, replace, 8, '.');
    SkipRule(s, search, replace, 9, 'h');
    SkipRule(s, search, replace, 10, '.');
    SkipRule(s, search, replace, 11, '-');
    SkipRule(s, search, replace, 12, '/');
    SkipRule(s, search, replace, 13, ',');
    SkipRule(s, search, replace, 14, 'ä');
    SkipRule(s, search, replace, 15, 'ö');
    SkipRule(s, search, replace, 16, 'ü');
  }

  /** Rules 3 to 16, likewise (with a witness for rule 9 that "mohrdorf" lacks). */
  lemma Rules3To16Keep(s: string, x: string, search: seq<string>, replace: seq<string>)
    requires |search| == |replace| && 17 <= |search|
    requires '.' in search[3] && '.' in search[4] && '.' in search[5] && '.' in search[6] && '.' in search[7] && '.' in search[8]
    requires 'c' in search[9] && '.' in search[10] && '-' in search[11] && '/' in search[12] && ',' in search[13] && 'ä' in search[14]
    requires 'ö' in search[15] && 'ü' in search[16]
    requires ',' !in x && '-' !in x && '.' !in x && '/' !in x && 'c' !in x && 'ä' !in x && 'ö' !in x && 'ü' !in x
    requires ApplyRules(s, search, replace, 3) == x
    ensures ApplyRules(s, search, replace, 17) == x
  {
    SkipRule(s, search, replace, 3, '.');
    SkipRule(s, search, replace, 4, '.');
    SkipRule(s, search, replace, 5, '.');
    SkipRule(s, search, replace, 6, '.');
    SkipRule(s, search, replace, 7, '.');
    SkipRule(s, search, replace, 8, '.');
    SkipRule(s, search, replace, 9, 'c');
    SkipRule(s, search, replace, 10, '.');
    SkipRule(s, search, replace, 11, '-');
    SkipRule(s, search, replace, 12, '/');
    SkipRule(s, search, replace, 13, ',');
    SkipRule(s, search, replace, 14, 'ä');
    SkipRule(s, search, replace, 15, 'ö');
    SkipRule(s, search, replace, 16, 'ü');
  }

  /** Rules 18 to 20, likewise: they look for "(", ")" and ".". */
  lemma Rules18To20Keep(s: string, x: string, search: seq<string>, replace: seq<string>)
    requires |search| == |replace| && 21 <= |search|
    requires '(' in search[18] && ')' in search[19] && '.' in search[20]
    requires '(' !in x && ')' !in x && '.' !in x
    requires ApplyRules(s, search, replace, 18) == x
    ensures ApplyRules(s, search, replace, 21) == x
  {
    SkipRule(s, search, replace, 18, '(');
    SkipRule(s, search, replace, 19, ')');
    SkipRule(s, search, replace, 20, '.');
  }

  /** Rules 22 to 24, likewise. */
  lemma Rules22To24Keep(s: string, x: string, search: seq<string>, replace: seq<string>)
    requires |search| == |replace| && 25 <= |search|
    requires 'h' in search[22] && 'l' in search[23] && 'h' in search[24]
    requires 'h' !in x && 'l' !in x
    requires ApplyRules(s, search, replace, 22) == x
    ensures ApplyRules(s, search, replace, 25) == x
  {
    SkipRule(s, search, replace, 22, 'h');
    SkipRule(s, search, replace, 23, 'l');
    SkipRule(s, search, replace, 24, 'h');
  }

  /** Rules 21 to 24, likewise (with witnesses that "mohrdorf" lacks). */
  lemma Rules21To24Keep(s: string, x: string, search: seq<string>, replace: seq<string>)
    requires |search| == |replace| && 25 <= |search|
    requires 'a' in search[21] && 'a' in search[22] && 'l' in search[23] && 'k' in search[24]
    requires 'a' !in x && 'k' !in x && 'l' !in x
    requires ApplyRules(s, search, replace, 21) == x
    ensures ApplyRules(s, search, replace, 25) == x
  {
    SkipRule(s, search, replace, 21, 'a');
    SkipRule(s, search, replace, 22, 'a');
    SkipRule(s, search, replace, 23, 'l');
    SkipRule(s, search, replace, 24, 'k');
  }

  /** Rules 0 to 19, likewise (for strings without "ß" and "h"). */
  lemma Rules0To19Keep(s: string, x: string, search: seq<string>, replace: seq<string>)
    requires |search| == |replace| && 20 <= |search|
    requires 'ß' in search[0] && 'h' in search[1] && 'g' in search[2] && 'h' in search[3] && 'h' in search[4] && 'h' in search[5]
    requires 'h' in search[6] && '-' in search[7] && 'h' in search[8] && 'h' in search[9] && 'h' in search[10] && '-' in search[11]
    requires '/' in search[12] && ',' in search[13] && 'ä' in search[14] && 'ö' in search[15] && 'ü' in search[16] && 'ß' in search[17]
    requires '(' in search[18] && ')' in search[19]
    requires '(' !in x && ')' !in x && ',' !in x && '-' !in x && '/' !in x && 'g' !in x && 'h' !in x && 'ß' !in x
    requires 'ä' !in x && 'ö' !in x && 'ü' !in x
    requires ApplyRules(s, search, replace, 0) == x
    ensures ApplyRules(s, search, replace, 20) == x
  {
    SkipRule(s, search, replace, 0, 'ß');
    SkipRule(s, search, replace, 1, 'h');
    SkipRule(s, search, replace, 2, 'g');
    SkipRule(s, search, replace, 3, 'h');
    SkipRule(s, search, replace, 4, 'h');
    SkipRule(s, search, replace, 5, 'h');
    SkipRule(s, search, replace, 6, 'h');
    SkipRule(s, search, replace, 7, '-');
    SkipRule(s, search, replace, 8, 'h');
    SkipRule(s, search, replace, 9, 'h');
    SkipRule(s, search, replace, 10, 'h');
    SkipRule(s, search, replace, 11, '-');
    SkipRule(s, search, replace, 12, '/');
    SkipRule(s, search, replace, 13, ',');
    SkipRule(s, search, replace, 14, 'ä');
    SkipRule(s, search, replace, 15, 'ö');
    SkipRule(s, search, replace, 16, 'ü');
    SkipRule(s, search, replace, 17, 'ß');
    SkipRule(s, search, replace, 18, '(');
    SkipRule(s, search, replace, 19, ')');
  }

  /** Only lower-case ASCII letters and blanks. */
  predicate LettersAndBlanks(t: string)
  {
    forall i :: 0 <= i < |t| ==> t[i] == ' ' || 'a' <= t[i] <= 'z'
  }

  /** A character that is neither a letter nor a blank does not occur in such a t. */
  lemma NotLetter(t: string, c: char)
    requires LettersAndBlanks(t) && c != ' ' && !('a' <= c <= 'z')
    ensures c !in t
  { }

  /** Lower-case letters and blanks without h, l or s: no rule touches such a tail after "straße". */
  predicate StrasseTail(t: string)
  {
    LettersAndBlanks(t) && 'h' !in t && 'l' !in t && 's' !in t
  }

  /** The characters rules 1 to 16 are skipped by do not occur in "straße" and such a tail. */
  lemma StrasseQuiet(t: string)
    requires StrasseTail(t)
    ensures ',' !in "straße" + t && '-' !in "straße" + t && '.' !in "straße" + t && '/' !in "straße" + t && 'h' !in "straße" + t && 'ä' !in "straße" + t && 'ö' !in "straße" + t && 'ü' !in "straße" + t
  {
    NotLetter(t, '.'); NotLetter(t, '-'); NotLetter(t, '/'); NotLetter(t, ','); NotLetter(t, 'ä'); NotLetter(t, 'ö'); NotLetter(t, 'ü');
  }

  /** Rules 1 to 16 do not touch "straße" and a quiet tail. */
  lemma StrasseKeep(s: string, t: string)
    requires StrasseTail(t) && ApplyRules(s, SearchStopName, ReplaceStopName, 1) == "straße" + t
    ensures ApplyRules(s, SearchStopName, ReplaceStopName, 17) == "straße" + t
  {
    TablesAgree(); SearchEntries0To5(); SearchEntries5To10(); SearchEntries10To17();
    StrasseQuiet(t);
    Rules1To16Keep(s, "straße" + t, SearchStopName, ReplaceStopName);
  }

  /** Rule 17 spells out the ß. */
  lemma StrasseEszett(s: string, t: string)
    requires StrasseTail(t) && ApplyRules(s, SearchStopName, ReplaceStopName, 17) == "straße" + t
    ensures ApplyRules(s, SearchStopName, ReplaceStopName, 18) == "strasse" + t
  {
    TablesAgree(); SearchEntries17To25(); ReplaceEntries();
    NotLetter(t, 'ß');
    StrasseSplit(t);
    FireAfter(s, SearchStopName, ReplaceStopName, 17, "stra", "e" + t, 'ß', 'ß');
  }

  lemma StrasseSplit(t: string)
    ensures "straße" + t == "stra" + "ß" + ("e" + t)
    ensures "stra" + "ss" + ("e" + t) == "strasse" + t
  {
    assert "straße" == "stra" + "ß" + "e";
    assert "strasse" == "stra" + "ss" + "e";
  }

  /** Rules 18 to 20 do not touch "strasse" and a quiet tail. */
  lemma StrasseKeep2(s: string, t: string)
    requires StrasseTail(t) && ApplyRules(s, SearchStopName, ReplaceStopName, 18) == "strasse" + t
    ensures ApplyRules(s, SearchStopName, ReplaceStopName, 21) == "strasse" + t
  {
    TablesAgree(); SearchEntries17To25();
    NotLetter(t, '('); NotLetter(t, ')'); NotLetter(t, '.');
    Rules18To20Keep(s, "strasse" + t, SearchStopName, ReplaceStopName);
  }

  /** Rule 21 shortens the spelt-out word. */
  lemma StrasseShorten(s: string, t: string)
    requires StrasseTail(t) && ApplyRules(s, SearchStopName, ReplaceStopName, 21) == "strasse" + t
    ensures ApplyRules(s, SearchStopName, ReplaceStopName, 22) == "str" + t
  {
    TablesAgree(); SearchEntries17To25(); ReplaceEntries();
    FireAtStart(s, SearchStopName, ReplaceStopName, 21, t, 's');
  }

  /** Rules 22 to 24 do not touch "str" and a quiet tail. */
  lemma StrasseKeep3(s: string, t: string)
    requires StrasseTail(t) && ApplyRules(s, SearchStopName, ReplaceStopName, 22) == "str" + t
    ensures ApplyRules(s, SearchStopName, ReplaceStopName, 25) == "str" + t
  {
    TablesAgree(); SearchEntries17To25();
    Rules22To24Keep(s, "str" + t, SearchStopName, ReplaceStopName);
  }

  /**
   * From rule 1 on, "straße" and a tail no rule touches come out as "str" and
   * the same tail: rule 17 turns the ß into "ss" before rule 21 shortens
   * "strasse" to "str".
   */
  lemma StrasseFrom1(s: string, t: string)
    requires StrasseTail(t) && ApplyRules(s, SearchStopName, ReplaceStopName, 1) == "straße" + t
    ensures ApplyRules(s, SearchStopName, ReplaceStopName, 25) == "str" + t
  {
    StrasseKeep(s, t);
    StrasseEszett(s, t);
    StrasseKeep2(s, t);
    StrasseShorten(s, t);
    StrasseKeep3(s, t);
  }

  /** Lower-case letters and blanks without a, c, l or k: no rule touches such a tail after "groß". */
  predicate MohrdorfTail(t: string)
  {
    LettersAndBlanks(t) && 'a' !in t && 'c' !in t && 'l' !in t && 'k' !in t
  }

  /** The characters rules 3 to 16 are skipped by do not occur in "groß" and such a tail. */
  lemma GrossQuiet(t: string)
    requires MohrdorfTail(t)
    ensures ',' !in "groß" + t && '-' !in "groß" + t && '.' !in "groß" + t && '/' !in "groß" + t && 'c' !in "groß" + t && 'ä' !in "groß" + t && 'ö' !in "groß" + t && 'ü' !in "groß" + t
  {
    NotLetter(t, '.'); NotLetter(t, '-'); NotLetter(t, '/'); NotLetter(t, ','); NotLetter(t, 'ä'); NotLetter(t, 'ö'); NotLetter(t, 'ü');
  }

  /** Rules 3 to 16 do not touch "groß" and a quiet tail. */
  lemma GrossKeep(s: string, t: string)
    requires MohrdorfTail(t) && ApplyRules(s, SearchStopName, ReplaceStopName, 3) == "groß" + t
    ensures ApplyRules(s, SearchStopName, ReplaceStopName, 17) == "groß" + t
  {
    TablesAgree(); SearchEntries0To5(); SearchEntries5To10(); SearchEntries10To17();
    GrossQuiet(t);
    Rules3To16Keep(s, "groß" + t, SearchStopName, ReplaceStopName);
  }

  /** Rule 17 spells out the ß. */
  lemma GrossEszett(s: string, t: string)
    requires MohrdorfTail(t) && ApplyRules(s, SearchStopName, ReplaceStopName, 17) == "groß" + t
    ensures ApplyRules(s, SearchStopName, ReplaceStopName, 18) == "gross" + t
  {
    TablesAgree(); SearchEntries17To25(); ReplaceEntries();
    NotLetter(t, 'ß');
    FireAfter(s, SearchStopName, ReplaceStopName, 17, "gro", t, 'ß', 'ß');
    assert "gro" + "ss" + t == "gross" + t;
  }

  /** Rules 18 to 20 do not touch "gross" and a quiet tail. */
  lemma GrossKeep2(s: string, t: string)
    requires MohrdorfTail(t) && ApplyRules(s, SearchStopName, ReplaceStopName, 18) == "gross" + t
    ensures ApplyRules(s, SearchStopName, ReplaceStopName, 21) == "gross" + t
  {
    TablesAgree(); SearchEntries17To25();
    NotLetter(t, '('); NotLetter(t, ')'); NotLetter(t, '.');
    Rules18To20Keep(s, "gross" + t, SearchStopName, ReplaceStopName);
  }

  /** Rules 21 to 24 do not touch "gross" and a quiet tail. */
  lemma GrossKeep3(s: string, t: string)
    requires MohrdorfTail(t) && ApplyRules(s, SearchStopName, ReplaceStopName, 21) == "gross" + t
    ensures ApplyRules(s, SearchStopName, ReplaceStopName, 25) == "gross" + t
  {
    TablesAgree(); SearchEntries17To25();
    Rules21To24Keep(s, "gross" + t, SearchStopName, ReplaceStopName);
  }

  /** From rule 3 on, "groß" and a tail no rule touches come out as "gross" and the same tail. */
  lemma GrossFrom3(s: string, t: string)
    requires MohrdorfTail(t) && ApplyRules(s, SearchStopName, ReplaceStopName, 3) == "groß" + t
    ensures ApplyRules(s, SearchStopName, ReplaceStopName, 25) == "gross" + t
  {
    GrossKeep(s, t);
    GrossEszett(s, t);
    GrossKeep2(s, t);
    GrossKeep3(s, t);
  }

  /** The whole table turns "straße" and a quiet tail into "str" and the tail. */
  lemma StrasseFrom0(s: string, t: string)
    requires StrasseTail(t) && ApplyRules(s, SearchStopName, ReplaceStopName, 0) == "straße" + t
    ensures ApplyRules(s, SearchStopName, ReplaceStopName, 25) == "str" + t
  {
    TablesAgree(); SearchEntries0To5();
    NotLetter(t, '.');
    SkipRule(s, SearchStopName, ReplaceStopName, 0, '.');
    StrasseFrom1(s, t);
  }

  /** Rule 0 spells out the abbreviated street name. */
  lemma StreetOfYouthRule0(s: string)
    requires ApplyRules(s, SearchStopName, ReplaceStopName, 0) == "straße d. jugend"
    ensures ApplyRules(s, SearchStopName, ReplaceStopName, 1) == "straße" + " der jugend"
  {
    TablesAgree(); SearchEntries0To5(); ReplaceEntries();
    FireAtStart(s, SearchStopName, ReplaceStopName, 0, "", 'd');
  }

  /** The whole table turns "groß" and a quiet tail into "gross" and the tail. */
  lemma GrossFrom0(s: string, t: string)
    requires MohrdorfTail(t) && ApplyRules(s, SearchStopName, ReplaceStopName, 0) == "groß" + t
    ensures ApplyRules(s, SearchStopName, ReplaceStopName, 25) == "gross" + t
  {
    TablesAgree(); SearchEntries0To5();
    NotLetter(t, '.');
    SkipRule(s, SearchStopName, ReplaceStopName, 0, '.');
    SkipRule(s, SearchStopName, ReplaceStopName, 1, 'l');
    SkipRule(s, SearchStopName, ReplaceStopName, 2, '.');
    GrossFrom3(s, t);
  }

  /** Rule 2 spells out the abbreviation "gr.", and the rest of the table then the ß. */
  lemma GrDotFrom0(s: string, t: string)
    requires MohrdorfTail(t) && ApplyRules(s, SearchStopName, ReplaceStopName, 0) == "gr." + t
    ensures ApplyRules(s, SearchStopName, ReplaceStopName, 25) == "gross" + t
  {
    TablesAgree(); SearchEntries0To5(); ReplaceEntries();
    NotLetter(t, 'ß'); NotLetter(t, '.');
    SkipRule(s, SearchStopName, ReplaceStopName, 0, 'ß');
    SkipRule(s, SearchStopName, ReplaceStopName, 1, 'l');
    FireAtStart(s, SearchStopName, ReplaceStopName, 2, t, '.');
    GrossFrom3(s, t);
  }

  /** Rules 0 to 19 do not touch "str.". */
  lemma StrDotKeep(s: string)
    requires ApplyRules(s, SearchStopName, ReplaceStopName, 0) == "str."
    ensures ApplyRules(s, SearchStopName, ReplaceStopName, 20) == "str."
  {
    TablesAgree(); SearchEntries0To5(); SearchEntries5To10(); SearchEntries10To17(); SearchEntries17To25();
    Rules0To19Keep(s, "str.", SearchStopName, ReplaceStopName);
  }

  /** Rule 20 deletes the dot. */
  lemma StrDotDrop(s: string)
    requires ApplyRules(s, SearchStopName, ReplaceStopName, 20) == "str."
    ensures ApplyRules(s, SearchStopName, ReplaceStopName, 21) == "str"
  {
    TablesAgree(); SearchEntries17To25(); ReplaceEntries();
    assert "str." == "str" + "." + "";
    FireAfter(s, SearchStopName, ReplaceStopName, 20, "str", "", '.', '.');
  }

  /** Rules 21 to 24 do not touch "str". */
  lemma StrKeep(s: string)
    requires ApplyRules(s, SearchStopName, ReplaceStopName, 21) == "str"
    ensures ApplyRules(s, SearchStopName, ReplaceStopName, 25) == "str"
  {
    TablesAgree(); SearchEntries17To25();
    Rules21To24Keep(s, "str", SearchStopName, ReplaceStopName);
  }

  /** Rule 20 drops the dot of "str.", and no other rule touches it. */
  lemma StrDotFrom0(s: string)
    requires ApplyRules(s, SearchStopName, ReplaceStopName, 0) == "str."
    ensures ApplyRules(s, SearchStopName, ReplaceStopName, 25) == "str"
  {
    StrDotKeep(s);
    StrDotDrop(s);
    StrKeep(s);
  }

  // The lower-case forms of the example names.

  lemma LowerStreetOfYouthShort(name: string)
    requires name == "Straße d. Jugend"
    ensures ToLower(name) == "straße d. jugend"
  { }

  lemma LowerStreetOfYouthLong(name: string)
    requires name == "Straße der Jugend"
    ensures ToLower(name) == "straße der jugend"
  { }

  lemma LowerStreetWord(name: string)
    requires name == "Straße"
    ensures ToLower(name) == "straße"
  { }

  lemma LowerStreetAbbreviation(name: string)
    requires name == "Str."
    ensures ToLower(name) == "str."
  { }

  lemma LowerMohrdorfShort(name: string)
    requires name == "Gr. Mohrdorf"
    ensures ToLower(name) == "gr. mohrdorf"
  { }

  lemma LowerMohrdorfLong(name: string)
    requires name == "Groß Mohrdorf"
    ensures ToLower(name) == "groß mohrdorf"
  { }

  lemma JugendTail()
    ensures StrasseTail(" der jugend")
  { }

  lemma MohrdorfTailHolds()
    ensures MohrdorfTail(" mohrdorf")
  { }

  /** The whole table turns "straße d. jugend" into "str der jugend". */
  lemma StreetOfYouthShortFrom0(s: string)
    requires ApplyRules(s, SearchStopName, ReplaceStopName, 0) == "straße d. jugend"
    ensures ApplyRules(s, SearchStopName, ReplaceStopName, 25) == "str" + " der jugend"
  {
    StreetOfYouthRule0(s);
    JugendTail();
    StrasseFrom1(s, " der jugend");
  }

  lemma StrDerJugend()
    ensures "str" + " der jugend" == "str der jugend"
  { }

  /** Every name that lower-cases to "straße d. jugend" cleans to "str der jugend". */
  lemma CleanStreetOfYouthShort(name: string)
    requires ToLower(name) == "straße d. jugend"
    ensures Clean(name, SearchStopName, ReplaceStopName) == "str der jugend"
  {
    TablesAgree();
    StreetOfYouthShortFrom0(ToLower(name));
    StrDerJugend();
  }

  /** The whole table turns "straße der jugend" into "str der jugend". */
  lemma StreetOfYouthLongFrom0(s: string)
    requires ApplyRules(s, SearchStopName, ReplaceStopName, 0) == "straße der jugend"
    ensures ApplyRules(s, SearchStopName, ReplaceStopName, 25) == "str" + " der jugend"
  {
    JugendTail();
    assert "straße der jugend" == "straße" + " der jugend";
    StrasseFrom0(s, " der jugend");
  }

  /** Every name that lower-cases to "straße der jugend" cleans to "str der jugend". */
  lemma CleanStreetOfYouthLong(name: string)
    requires ToLower(name) == "straße der jugend"
    ensures Clean(name, SearchStopName, ReplaceStopName) == "str der jugend"
  {
    TablesAgree();
    StreetOfYouthLongFrom0(ToLower(name));
    StrDerJugend();
  }

  /** The whole table turns "gr. mohrdorf" into "gross mohrdorf". */
  lemma MohrdorfShortFrom0(s: string)
    requires ApplyRules(s, SearchStopName, ReplaceStopName, 0) == "gr. mohrdorf"
    ensures ApplyRules(s, SearchStopName, ReplaceStopName, 25) == "gross" + " mohrdorf"
  {
    MohrdorfTailHolds();
    assert "gr. mohrdorf" == "gr." + " mohrdorf";
    GrDotFrom0(s, " mohrdorf");
  }

  /** The whole table turns "groß mohrdorf" into "gross mohrdorf". */
  lemma MohrdorfLongFrom0(s: string)
    requires ApplyRules(s, SearchStopName, ReplaceStopName, 0) == "groß mohrdorf"
    ensures ApplyRules(s, SearchStopName, ReplaceStopName, 25) == "gross" + " mohrdorf"
  {
    MohrdorfTailHolds();
    assert "groß mohrdorf" == "groß" + " mohrdorf";
    GrossFrom0(s, " mohrdorf");
  }

  lemma GrossMohrdorf()
    ensures "gross" + " mohrdorf" == "gross mohrdorf"
  { }

  /** Every name that lower-cases to "gr. mohrdorf" cleans to "gross mohrdorf". */
  lemma CleanMohrdorfShort(name: string)
    requires ToLower(name) == "gr. mohrdorf"
    ensures Clean(name, SearchStopName, ReplaceStopName) == "gross mohrdorf"
  {
    TablesAgree();
    MohrdorfShortFrom0(ToLower(name));
    GrossMohrdorf();
  }

  /** Every name that lower-cases to "groß mohrdorf" cleans to "gross mohrdorf". */
  lemma CleanMohrdorfLong(name: string)
    requires ToLower(name) == "groß mohrdorf"
    ensures Clean(name, SearchStopName, ReplaceStopName) == "gross mohrdorf"
  {
    TablesAgree();
    MohrdorfLongFrom0(ToLower(name));
    GrossMohrdorf();
  }

  /** Every name that lower-cases to "str." cleans to "str". */
  lemma CleanStrDot(name: string)
    requires ToLower(name) == "str."
    ensures Clean(name, SearchStopName, ReplaceStopName) == "str"
  {
    TablesAgree();
    StrDotFrom0(ToLower(name));
  }

  /** Every name that lower-cases to "straße" cleans to "str". */
  lemma CleanStrasse(name: string)
    requires ToLower(name) == "straße"
    ensures Clean(name, SearchStopName, ReplaceStopName) == "str"
  {
    TablesAgree();
    assert "straße" == "straße" + "";
    StrasseFrom0(ToLower(name), "");
    assert "str" + "" == "str";
  }

  /** A name that lower-cases to "straße" and a quiet tail cleans to "str" and the tail. */
  lemma CleanStrasseName(name: string, t: string)
    requires StrasseTail(t) && ToLower(name) == "straße" + t
    ensures Clean(name, SearchStopName, ReplaceStopName) == "str" + t
  {
    TablesAgree();
    StrasseFrom0(ToLower(name), t);
  }

  /** A name that lower-cases to "groß" and a quiet tail cleans to "gross" and the tail. */
  lemma CleanGrossName(name: string, t: string)
    requires MohrdorfTail(t) && ToLower(name) == "groß" + t
    ensures Clean(name, SearchStopName, ReplaceStopName) == "gross" + t
  {
    TablesAgree();
    GrossFrom0(ToLower(name), t);
  }

  /** A name that lower-cases to "gr." and a quiet tail cleans to "gross" and the tail too. */
  lemma CleanGrDotName(name: string, t: string)
    requires MohrdorfTail(t) && ToLower(name) == "gr." + t
    ensures Clean(name, SearchStopName, ReplaceStopName) == "gross" + t
  {
    TablesAgree();
    GrDotFrom0(ToLower(name), t);
  }

  /** "Gr. X" and "Groß X" match each other for every quiet tail X, whatever the cities. */
  lemma GrDotMatchesGross(a: string, b: string, t: string, cities: seq<string>)
    requires MohrdorfTail(t) && ToLower(a) == "gr." + t && ToLower(b) == "groß" + t
    ensures Matches(a, b, cities, SearchStopName, ReplaceStopName) && Matches(b, a, cities, SearchStopName, ReplaceStopName)
  {
    TablesAgree();
    CleanGrDotName(a, t);
    CleanGrossName(b, t);
    MatchesWhenCleanedEqual(a, b, cities, SearchStopName, ReplaceStopName);
  }

  /** The two spellings of the street name match each other, whatever the cities. */
  lemma StreetOfYouthSpellingsMatch(a: string, b: string, cities: seq<string>)
    requires a == "Straße d. Jugend" && b == "Straße der Jugend"
    ensures Matches(a, b, cities, SearchStopName, ReplaceStopName) && Matches(b, a, cities, SearchStopName, ReplaceStopName)
  {
    TablesAgree();
    LowerStreetOfYouthShort(a);
    LowerStreetOfYouthLong(b);
    CleanStreetOfYouthShort(a);
    CleanStreetOfYouthLong(b);
    MatchesWhenCleanedEqual(a, b, cities, SearchStopName, ReplaceStopName);
  }

  /** The abbreviated and the full village name match each other, whatever the cities. */
  lemma MohrdorfSpellingsMatch(a: string, b: string, cities: seq<string>)
    requires a == "Gr. Mohrdorf" && b == "Groß Mohrdorf"
    ensures Matches(a, b, cities, SearchStopName, ReplaceStopName) && Matches(b, a, cities, SearchStopName, ReplaceStopName)
  {
    TablesAgree();
    LowerMohrdorfShort(a);
    LowerMohrdorfLong(b);
    CleanMohrdorfShort(a);
    CleanMohrdorfLong(b);
    MatchesWhenCleanedEqual(a, b, cities, SearchStopName, ReplaceStopName);
  }

  /** "Str." and "Straße" match each other, whatever the cities. */
  lemma StreetSpellingsMatch(a: string, b: string, cities: seq<string>)
    requires a == "Str." && b == "Straße"
    ensures Matches(a, b, cities, SearchStopName, ReplaceStopName) && Matches(b, a, cities, SearchStopName, ReplaceStopName)
  {
    TablesAgree();
    LowerStreetAbbreviation(a);
    LowerStreetWord(b);
    CleanStrDot(a);
    CleanStrasse(b);
    MatchesWhenCleanedEqual(a, b, cities, SearchStopName, ReplaceStopName);
  }
}
