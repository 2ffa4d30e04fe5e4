/** The pure part of `UltimateGeocoder`: house-number and street-name
    extraction from an address, and the 0-100 quality score of one search
    result. */
module Scoring {
  import opened Text
  import opened Patterns

  /** The `address` object of a search result. A missing field and an empty
      one behave alike everywhere they are read, so both are "". */
  datatype AddressParts = AddressParts(
    city: string, town: string, village: string,
    road: string, street: string, houseNumber: string)

  /** One search result. `latText`/`lonText` are `str(result['lat'])` and
      `str(result['lon'])`; `lat`/`lon` are the values `float()` reads from
      them. */
  datatype SearchResult = SearchResult(
    displayName: string, address: AddressParts,
    latText: string, lonText: string, lat: real, lon: real,
    osmType: string, cls: string, typ: string)

  // ---------------------------------------------------------------------
  // _extract_street_number: \b(\d+L?(?:[-/]\d+L?)?)\s*$  with L = [А-Яа-яA-Za-z]

  /** End of the greedy token `\d+L?(?:[-/]\d+L?)?` that starts with the
      digit at `p`. */
  function TokenEnd(s: string, p: nat): (e: nat)
    requires p < |s| && IsDigit(s[p])
    ensures p < e <= |s|
  {
    var q := p + ClassRun(s, p, Digits);
    var q1 := if q < |s| && IsLetterClass(s[q]) then q + 1 else q;
    if q1 + 1 < |s| && (s[q1] == '-' || s[q1] == '/') && IsDigit(s[q1 + 1]) then
      var r := q1 + 1 + ClassRun(s, q1 + 1, Digits);
      if r < |s| && IsLetterClass(s[r]) then r + 1 else r
    else q1
  }

  /** The street-number pattern matches at `p`: a digit after a word
      boundary, and nothing but whitespace after the token. */
  predicate NumberAt(s: string, p: nat) {
    p < |s| && IsDigit(s[p]) && Boundary(s, p)
    && forall j :: TokenEnd(s, p) <= j < |s| ==> IsSpace(s[j])
  }

  /** The leftmost position at or after `i` where the pattern matches. */
  function FirstNumberAt(s: string, i: nat): (r: Option<nat>)
    requires i <= |s|
    ensures r.Some? ==> i <= r.value && NumberAt(s, r.value)
    ensures r.Some? ==> forall j :: i <= j < r.value ==> !NumberAt(s, j)
    ensures r.None? ==> forall j :: i <= j < |s| ==> !NumberAt(s, j)
    decreases |s| - i
  {
    if i == |s| then None
    else if NumberAt(s, i) then Some(i)
    else FirstNumberAt(s, i + 1)
  }

  /** `_extract_street_number`: the token that ends the address, if any.
      The token begins at the leftmost position where the pattern matches. */
  function ExtractStreetNumber(address: string): (r: Option<string>)
    ensures r.None? <==> forall p :: !NumberAt(address, p)
    ensures r.Some? ==>
      var p := FirstNumberAt(address, 0).value;
      NumberAt(address, p) && r.value == address[p..TokenEnd(address, p)]
      && (forall j :: 0 <= j < p ==> !NumberAt(address, j))
      && |r.value| > 0 && IsDigit(r.value[0])
  {
    match FirstNumberAt(address, 0)
    case None => None
    case Some(p) => Some(address[p..TokenEnd(address, p)])
  }

  /** A house number made of digits that follows a space at the end of an
      address is what `_extract_street_number` returns. */
  lemma {:induction false} TrailingDigitsAreTheNumber(a: string, d: string)
    requires |d| > 0 && forall i :: 0 <= i < |d| ==> IsDigit(d[i])
    ensures ExtractStreetNumber(a + " " + d) == Some(d)
  {
    var s := a + " " + d;
    var p := |a| + 1;
    assert s[p..] == d;
    assert ClassRun(s, p, Digits) == |d| by { DigitRunToEnd(s, p); }
    assert TokenEnd(s, p) == |s|;
    assert NumberAt(s, p);
    forall j | 0 <= j < p ensures !NumberAt(s, j) {
      if j < |s| && IsDigit(s[j]) {
        TokenStopsAtSpace(s, j, |a|);
        assert !IsSpace(s[|s| - 1]);
      }
    }
    assert FirstNumberAt(s, 0) == Some(p) by { FirstIs(s, 0, p); }
    assert s[p..TokenEnd(s, p)] == d;
  }

  lemma {:induction false} DigitRunToEnd(s: string, p: nat)
    requires p <= |s| && forall i :: p <= i < |s| ==> IsDigit(s[i])
    ensures ClassRun(s, p, Digits) == |s| - p
    decreases |s| - p
  {
    if p < |s| { DigitRunToEnd(s, p + 1); }
  }

  /** A token cannot run over a space. */
  lemma TokenStopsAtSpace(s: string, p: nat, k: nat)
    requires p < |s| && IsDigit(s[p]) && p <= k < |s| && IsSpace(s[k])
    ensures TokenEnd(s, p) <= k
  {
    assert !IsDigit(s[k]) && !IsLetterClass(s[k]) && s[k] != '-' && s[k] != '/';
  }

  lemma {:induction false} FirstIs(s: string, i: nat, p: nat)
    requires i <= p < |s| && NumberAt(s, p)
    requires forall j :: i <= j < p ==> !NumberAt(s, j)
    ensures FirstNumberAt(s, i) == Some(p)
    decreases p - i
  {
    if i < p { FirstIs(s, i + 1, p); }
  }

  // ---------------------------------------------------------------------
  // _extract_street_name

  /** The first half of `_extract_street_name`: `ул.`, then `бул.`, then
      `жк` deleted everywhere, and the result trimmed. */
  function StreetMarkersDropped(address: string): (t: string)
    ensures Trimmed(t) && |t| <= |address|
    ensures '\n' !in address ==> '\n' !in t
  {
    var d := Replace(Replace(Replace(address, "ул.", ""), "бул.", ""), "жк", "");
    assert |d| <= |address| by {
      ReplaceShrinks(address, "ул.");
      ReplaceShrinks(Replace(address, "ул.", ""), "бул.");
      ReplaceShrinks(Replace(Replace(address, "ул.", ""), "бул.", ""), "жк");
    }
    assert '\n' !in address ==> '\n' !in Strip(d) by {
      if '\n' !in address {
        ReplaceChars(address, "ул.", "", '\n');
        ReplaceChars(Replace(address, "ул.", ""), "бул.", "", '\n');
        ReplaceChars(Replace(Replace(address, "ул.", ""), "бул.", ""), "жк", "", '\n');
        StripKeepsOut(d, '\n');
      }
    }
    Strip(d)
  }

  /** `_extract_street_name`: the markers dropped, then the text from the
      first whitespace run that a digit follows cut off, and trimmed again.
      On one line no whitespace is left directly before a digit. */
  function ExtractStreetName(address: string): (r: string)
    ensures Trimmed(r)
    ensures |r| <= |address|
    ensures '\n' !in address ==> NoSpaceBeforeDigit(r)
  {
    var a := StreetMarkersDropped(address);
    CutTailShrinks(a, SpaceThenDigits);
    assert '\n' !in address ==> NoSpaceBeforeDigit(Strip(CutTail(a, SpaceThenDigits))) by {
      if '\n' !in address {
        CutAtSpaceDigits(a);
        StripKeepsNoSpaceBeforeDigit(CutTail(a, SpaceThenDigits));
      }
    }
    Strip(CutTail(a, SpaceThenDigits))
  }

  /** Trimming cannot put whitespace before a digit. */
  lemma StripKeepsNoSpaceBeforeDigit(s: string)
    requires NoSpaceBeforeDigit(s)
    ensures NoSpaceBeforeDigit(Strip(s))
  {
    StripIsInfix(s);
    NoSpaceBeforeDigitInfix(s, LeadingWs(s), LeadingWs(s) + |Strip(s)|);
  }

  /** For a one-line address, the street name is the marker-free text up to
      the first whitespace run before a digit (trimmed), and the whole
      marker-free text when no whitespace stands before a digit. */
  lemma ExtractStreetNameCut(address: string)
    requires '\n' !in address
    ensures var t := StreetMarkersDropped(address);
      ExtractStreetName(address) == Strip(t[..SpaceDigitCut(t)])
    ensures var t := StreetMarkersDropped(address);
      NoSpaceBeforeDigit(t) ==> ExtractStreetName(address) == t
  {
    var t := StreetMarkersDropped(address);
    var n := SpaceDigitCut(t);
    if NoSpaceBeforeDigit(t) {
      assert t[..n] == t;
      StripTrimmed(t);
    }
  }

  lemma {:induction false} ReplaceShrinks(s: string, pat: string)
    requires |pat| > 0
    ensures |Replace(s, pat, "")| <= |s|
    decreases |s|
  {
    if |s| >= |pat| {
      if s[..|pat|] == pat { ReplaceShrinks(s[|pat|..], pat); }
      else { ReplaceShrinks(s[1..], pat); }
    }
  }

  lemma CutTailShrinks(s: string, p: Pattern)
    requires MinLen(p.atoms) > 0
    ensures |CutTail(s, p)| <= |s|
  {}

  /** Because `ул.` is removed before `бул.`, a boulevard keeps its first
      letter: the `бул.` rule never fires on an address that starts with it. */
  lemma BoulevardLeavesStrayLetter(address: string)
    requires address == "бул. Витоша 12"
    ensures ExtractStreetName(address) == "б Витоша"
  {
    var t := "б Витоша 12";
    BoulevardRemovals(address, t);
    StrayLetterStrips(t);
    BoulevardCut(t);
  }

  /** Neither text has whitespace at its ends. */
  lemma StrayLetterStrips(t: string)
    requires t == "б Витоша 12"
    ensures Strip(t) == t && t[..8] == "б Витоша" && Strip(t[..8]) == t[..8]
  {
    assert LeadingWs(t) == 0 && TrailingWs(t) == 0;
    StripTrimmed(t);
    var u := t[..8];
    assert LeadingWs(u) == 0 && TrailingWs(u) == 0;
    StripTrimmed(u);
  }

  /** The three removals turn the boulevard address into `б Витоша 12`. */
  lemma BoulevardRemovals(s: string, t: string)
    requires s == "бул. Витоша 12" && t == "б Витоша 12"
    ensures Replace(Replace(Replace(s, "ул.", ""), "бул.", ""), "жк", "") == t
  {
    StreetPrefixRemoved(s, t, "ул.");
    AbsentPatternKept(t, "бул.", 1);
    AbsentPatternKept(t, "жк", 0);
  }

  /** Removing `ул.` from `бул. Витоша 12` leaves the `б`. */
  lemma StreetPrefixRemoved(s: string, t: string, ul: string)
    requires s == "бул. Витоша 12" && t == "б Витоша 12" && ul == "ул."
    ensures Replace(s, ul, "") == t
  {
    var rest := t[1..];
    assert s == [s[0]] + ul + rest;
    assert t == [s[0]] + rest;
    assert ul[0] !in rest;
    PatternAfterFirstRemoved(s[0], ul, rest);
  }

  /** A pattern right after a first character that cannot start it is
      removed, and a rest lacking the pattern's first character stays. */
  lemma PatternAfterFirstRemoved(c: char, pat: string, rest: string)
    requires |pat| > 0 && c != pat[0] && pat[0] !in rest
    ensures Replace([c] + pat + rest, pat, "") == [c] + rest
  {
    var s := [c] + pat + rest;
    assert s[..|pat|][0] == c;
    assert s[1..] == pat + rest;
    assert (pat + rest)[..|pat|] == pat && (pat + rest)[|pat|..] == rest;
    AbsentPatternKept(rest, pat, 0);
  }

  lemma AbsentPatternKept(t: string, pat: string, k: nat)
    requires k < |pat| && pat[k] !in t
    ensures Replace(t, pat, "") == t
  {
    MissingCharNotContained(t, pat, k);
    ReplaceAbsent(t, pat, "");
  }

  /** `\s+\d+.*$` first matches at the space before `12`. */
  lemma BoulevardCut(t: string)
    requires t == "б Витоша 12"
    ensures CutTail(t, SpaceThenDigits) == t[..8]
  {
    assert TailMatchAt(t, 8, SpaceThenDigits) == Some(|t|) by {
      assert SpaceRun(t, 8) == 1 by { assert SpaceRun(t, 9) == 0; }
      assert ClassRun(t, 9, Digits) == 2 by { assert ClassRun(t, 11, Digits) == 0; assert ClassRun(t, 10, Digits) == 1; }
      assert DotEnd(t, 11) == 11;
    }
    forall j | 0 <= j < 8 ensures TailMatchAt(t, j, SpaceThenDigits).None? {
      if j != 1 { assert !IsSpace(t[j]); assert SpaceRun(t, j) == 0; }
      else { assert SpaceRun(t, 1) == 1 by { assert SpaceRun(t, 2) == 0; } assert ClassRun(t, 2, Digits) == 0; }
    }
    FirstTailIs(t, 0, 8, SpaceThenDigits);
  }

  /** `t` does not occur in `s` when no position of `s` starts it. */
  lemma {:induction false} NoOccurrence(s: string, t: string)
    requires |t| > 0 && forall i :: 0 <= i < |s| ==> s[i] != t[0] || !StartsWith(s[i..], t)
    ensures !Contains(s, t)
    decreases |s|
  {
    assert !StartsWith(s, t) by {
      if |s| > 0 { assert !StartsWith(s[0..], t); assert s[0..] == s; }
    }
    if |s| > 0 {
      forall i | 0 <= i < |s[1..]| ensures s[1..][i] != t[0] || !StartsWith(s[1..][i..], t) {
        assert s[1..][i..] == s[i + 1..];
      }
      NoOccurrence(s[1..], t);
    }
  }

  // ---------------------------------------------------------------------
  // _score_result

  function FirstNonEmpty(a: string, b: string, c: string): string {
    if a != "" then a else if b != "" then b else c
  }

  /** 1. City: the result's city/town/village field against the query city. */
  function CityTerm(resultCity: string, display: string, city: string): int {
    var cityLower := Lower(city);
    if Lower(resultCity) == cityLower then 30
    else if Contains(Lower(display), cityLower) then 20
    else -30
  }

  /** 2. House number: the query's number (`number`, "" when there is none)
      against the result's `house_number` field and display text. */
  function NumberTerm(resultNumber: string, display: string, number: string): int {
    var displayLower := Lower(display);
    if number != "" && resultNumber != "" then
      if number == resultNumber then 40
      else if DigitsOnly(number) == DigitsOnly(resultNumber) then 35
      else if Contains(displayLower, number) then 25
      else 0
    else if number != "" && Contains(displayLower, number) then 20
    else if number != "" then -10
    else 0
  }

  /** How many of `words` are longer than 3 characters. */
  function LongWordCount(words: seq<string>): (k: nat)
    ensures k <= |words|
  {
    if words == [] then 0 else (if |words[0]| > 3 then 1 else 0) + LongWordCount(words[1..])
  }

  /** Words of the street name longer than 3 characters that occur in the
      display text or the road. */
  function WordMatches(words: seq<string>, display: string, road: string): (n: nat)
    ensures n <= LongWordCount(words) <= |words|
    ensures (forall i :: 0 <= i < |words| ==> Contains(display, Lower(words[i]))) ==> n == LongWordCount(words)
  {
    if words == [] then 0
    else
      var w := words[0];
      (if |w| > 3 && (Contains(display, Lower(w)) || Contains(road, Lower(w))) then 1 else 0)
      + WordMatches(words[1..], display, road)
  }

  function Min(a: int, b: int): int { if a <= b then a else b }

  /** 3. Street name (extracted from the address, never from a hint)
      against the result's road (or street) field and display text. */
  function StreetTerm(streetName: string, road: string, street: string, display: string): int {
    var resultRoad := Lower(if road != "" then road else street);
    var displayLower := Lower(display);
    if |streetName| > 3 then
      var streetLower := Lower(streetName);
      if Contains(resultRoad, streetLower) || Contains(streetLower, resultRoad) then 25
      else if Contains(displayLower, streetLower) then 15
      else Min(15, WordMatches(Words(streetName), displayLower, resultRoad) * 7)
    else 0
  }

  /** 4. Address fields present. */
  function FieldTerm(houseNumber: string, road: string, street: string): int {
    (if houseNumber != "" then 8 else 0) + (if road != "" || street != "" then 7 else 0)
  }

  /** Number of characters after the last '.', or 0 without a '.'. */
  function Decimals(text: string): (n: nat)
    ensures n <= |text|
  {
    if '.' !in text then 0 else AfterLastDot(text)
  }

  function AfterLastDot(text: string): (n: nat)
    ensures n <= |text|
    decreases |text|
  {
    if text == [] || text[|text| - 1] == '.' then 0
    else 1 + AfterLastDot(text[..|text| - 1])
  }

  /** 5. Coordinate precision, from the average decimal count. */
  function PrecisionTerm(latText: string, lonText: string): int {
    var average := (Decimals(latText) + Decimals(lonText)) as real / 2.0;
    if average >= 7.0 then 10 else if average >= 5.0 then 5 else 0
  }

  /** 6. OSM element type. */
  function OsmTerm(osmType: string): int {
    if osmType == "node" then 5 else if osmType == "way" then 3 else 0
  }

  /** 7. Class and type. */
  function ClassTerm(cls: string, typ: string): int {
    if cls == "building" || typ == "house" then 5
    else if cls == "amenity" && typ in ["hospital", "clinic", "doctors"] then 5
    else if cls == "place" then -20
    else 0
  }

  function ResultCity(r: SearchResult): string {
    FirstNonEmpty(r.address.city, r.address.town, r.address.village)
  }

  /** The rubric before clamping. */
  function RawScore(r: SearchResult, address: string, city: string, number: string): int {
    CityTerm(ResultCity(r), r.displayName, city)
    + NumberTerm(r.address.houseNumber, r.displayName, number)
    + StreetTerm(ExtractStreetName(address), r.address.road, r.address.street, r.displayName)
    + FieldTerm(r.address.houseNumber, r.address.road, r.address.street)
    + PrecisionTerm(r.latText, r.lonText) + OsmTerm(r.osmType) + ClassTerm(r.cls, r.typ)
  }

  function Clamp(x: int): (r: int)
    ensures 0 <= r <= 100
    ensures 0 <= x <= 100 ==> r == x
    ensures x < 0 ==> r == 0
    ensures x > 100 ==> r == 100
  {
    if x < 0 then 0 else if x > 100 then 100 else x
  }

  /** `_score_result`: the rubric, clamped to [0, 100]. */
  function ScoreResult(r: SearchResult, address: string, city: string, number: string): (score: int)
    ensures 0 <= score <= 100
  {
    Clamp(RawScore(r, address, city, number))
  }

  // ---------------------------------------------------------------------
  // Properties of the rubric

  /** The city term: an exact field match gives 30, a match in the display
      text only 20, anything else -30. */
  lemma CityTermCases(resultCity: string, display: string, city: string)
    ensures CityTerm(resultCity, display, city) in {30, 20, -30}
    ensures CityTerm(resultCity, display, city) == 30 <==> Lower(resultCity) == Lower(city)
    ensures CityTerm(resultCity, display, city) == -30 <==>
      Lower(resultCity) != Lower(city) && !Contains(Lower(display), Lower(city))
  {}

  /** Two results that differ only in their city fields: one whose field
      matches scores 10 more (before clamping) than one matched only through
      the display text, and never less after clamping. */
  lemma ExactCityOutranksDisplayMatch(r1: SearchResult, r2: SearchResult,
                                      address: string, city: string, number: string)
    requires r1.address.(city := "", town := "", village := "") == r2.address.(city := "", town := "", village := "")
    requires r1.(address := r2.address) == r2
    requires Lower(ResultCity(r1)) == Lower(city)
    requires Lower(ResultCity(r2)) != Lower(city)
    requires Contains(Lower(r2.displayName), Lower(city))
    ensures RawScore(r1, address, city, number) == RawScore(r2, address, city, number) + 10
    ensures ScoreResult(r1, address, city, number) >= ScoreResult(r2, address, city, number)
  {
    assert r1.address.houseNumber == r2.address.houseNumber;
    assert r1.address.road == r2.address.road && r1.address.street == r2.address.street;
    assert r1.displayName == r2.displayName;
    CityTermCases(ResultCity(r1), r1.displayName, city);
    CityTermCases(ResultCity(r2), r2.displayName, city);
  }

  /** The house-number term: its range and the cases that decide it. */
  lemma NumberTermCases(resultNumber: string, display: string, number: string)
    ensures -10 <= NumberTerm(resultNumber, display, number) <= 40
    ensures number == "" ==> NumberTerm(resultNumber, display, number) == 0
    ensures NumberTerm(resultNumber, display, number) == 40 <==> number != "" && number == resultNumber
    ensures NumberTerm(resultNumber, display, number) == -10 <==>
      number != "" && resultNumber == "" && !Contains(Lower(display), number)
    ensures number != "" && resultNumber == "" && Contains(Lower(display), number)
      ==> NumberTerm(resultNumber, display, number) == 20
    ensures (number != "" && resultNumber != "" && number != resultNumber
             && DigitsOnly(number) != DigitsOnly(resultNumber)
             && !Contains(Lower(display), number))
      ==> NumberTerm(resultNumber, display, number) == 0
  {}

  /** For results that differ only in the house-number field, an exact
      match is worth 58 more than no number at all (40 for the match, 8 for
      the field, instead of the -10 penalty), so it never scores lower and
      scores strictly higher unless clamping hides the difference. */
  lemma ExactNumberOutranksMissing(r1: SearchResult, r2: SearchResult,
                                   address: string, city: string, number: string)
    requires number != ""
    requires r1 == r2.(address := r2.address.(houseNumber := number))
    requires r2.address.houseNumber == ""
    requires !Contains(Lower(r2.displayName), number)
    ensures RawScore(r1, address, city, number) == RawScore(r2, address, city, number) + 58
    ensures ScoreResult(r1, address, city, number) >= ScoreResult(r2, address, city, number)
    ensures -58 < RawScore(r2, address, city, number) < 100 ==>
      ScoreResult(r1, address, city, number) > ScoreResult(r2, address, city, number)
  {
    assert ResultCity(r1) == ResultCity(r2);
    assert r1.displayName == r2.displayName && r1.address.road == r2.address.road;
    assert r1.address.street == r2.address.street;
    NumberTermCases(number, r1.displayName, number);
    NumberTermCases("", r2.displayName, number);
  }

  /** The street term: 25 for a road match, 15 for a display match, else
      7 per matching word up to 15, and nothing for a short street name. */
  lemma StreetTermBounds(streetName: string, road: string, street: string, display: string)
    ensures 0 <= StreetTerm(streetName, road, street, display) <= 25
    ensures |streetName| <= 3 ==> StreetTerm(streetName, road, street, display) == 0
    ensures StreetTerm(streetName, road, street, display) in {0, 7, 14, 15, 25}
  {
    if |streetName| > 3 {
      var n := WordMatches(Words(streetName), Lower(display), Lower(if road != "" then road else street));
      assert n == 0 || n == 1 || n == 2 || n >= 3;
    }
  }

  /** An empty road field is contained in every street name, so a street
      name longer than 3 characters against a result without a road earns
      the full 25. */
  lemma EmptyRoadCountsAsMatch(streetName: string, display: string)
    requires |streetName| > 3
    ensures StreetTerm(streetName, "", "", display) == 25
  {
    assert StartsWith(Lower(streetName), "");
  }

  /** Averaging the two decimal counts against 7 and 5 is the same as
      comparing their sum with 14 and 10. */
  lemma PrecisionBySum(latText: string, lonText: string)
    ensures PrecisionTerm(latText, lonText) ==
      var n := Decimals(latText) + Decimals(lonText);
      if n >= 14 then 10 else if n >= 10 then 5 else 0
  {
    var n := Decimals(latText) + Decimals(lonText);
    assert (n as real / 2.0 >= 7.0) <==> n >= 14;
    assert (n as real / 2.0 >= 5.0) <==> n >= 10;
  }

  /** The type terms: fixed bonuses, and a penalty only for a bare place. */
  lemma TypeTermsCases(cls: string, typ: string, osmType: string)
    ensures OsmTerm(osmType) == 5 <==> osmType == "node"
    ensures OsmTerm(osmType) == 3 <==> osmType == "way"
    ensures ClassTerm(cls, typ) == -20 <==> cls == "place" && typ != "house"
    ensures ClassTerm(cls, typ) == 5 <==>
      cls == "building" || typ == "house" || (cls == "amenity" && typ in ["hospital", "clinic", "doctors"])
  {}
}
