/** The cleaning helpers of the data-improvement script: one rewrite chain
    each for the address, the settlement name, the building number, the
    street name and the hospital name. Each takes a table cell, which is
    NaN or a string. */
module ImproveData {
  import opened Text
  import opened Patterns
  import opened Sheet

  // =====================================================================
  // advanced_address_normalization

  /** Step 1: markers deleted wherever they occur, in this order. */
  const Markers: seq<(string, string)> := [
    ("№", ""), ("No", ""), ("no", ""), ("ет.", ""), ("етаж", ""),
    ("вх.", ""), ("вход", ""), ("ап.", ""), ("апартамент", ""),
    ("партер", ""), ("сутерен", ""), ("кабинет", ""), ("каб.", "")]

  /** Step 2: `\bул\.\s*`, `\bбул\.\s*`, `\bжк\s+` and `\bж\.к\.\s*` (both
      case-insensitive) and `\bпл\.\s*`. */
  const StreetAbbrev := Pattern(true, [Lit("ул.", false), Spaces(0)])
  const BoulevardAbbrev := Pattern(true, [Lit("бул.", false), Spaces(0)])
  const QuarterWord := Pattern(true, [Lit("жк", true), Spaces(1)])
  const QuarterDots := Pattern(true, [Lit("ж.к.", true), Spaces(0)])
  const SquareAbbrev := Pattern(true, [Lit("пл.", false), Spaces(0)])

  /** Step 2: each abbreviation is followed by exactly one space. */
  function Abbreviations(s: string): string {
    var a := Sub(s, StreetAbbrev, "ул. ");
    var b := Sub(a, BoulevardAbbrev, "бул. ");
    var c := Sub(b, QuarterWord, "жк ");
    var d := Sub(c, QuarterDots, "жк ");
    Sub(d, SquareAbbrev, "пл. ")
  }

  /** Step 3: the typo table, in insertion order. Some keys hold a Latin
      letter among Cyrillic ones (`o`, `p`, `e`). */
  const Typos: seq<(string, string)> := [
    ("Боо Божилов", "Божко Божилов"),
    ("Боo Божилов", "Божко Божилов"),
    ("Христо Смиpненски", "Христо Смирненски"),
    ("Христо Смирнeнски", "Христо Смирненски"),
    ("Цаp Симеон", "Цар Симеон"),
    ("Цаp Освободител", "Цар Освободител"),
    ("Шосе Банкя", "Банкя"),
    ("пл.пл.", "пл."),
    ("ул.ул.", "ул."),
    ("бул.бул.", "бул.")]

  /** Step 5: `re.sub(r'[,\.]+$', '', s)` on a string without line breaks
      removes the trailing run of commas and periods. */
  function DropTrailingPunct(s: string): (r: string)
    ensures |r| <= |s| && r == s[..|r|]
    ensures |r| > 0 ==> r[|r| - 1] != ',' && r[|r| - 1] != '.'
    ensures forall i :: |r| <= i < |s| ==> s[i] == ',' || s[i] == '.'
    decreases |s|
  {
    if |s| > 0 && (s[|s| - 1] == ',' || s[|s| - 1] == '.') then DropTrailingPunct(s[..|s| - 1])
    else s
  }

  /** End of `\d+[А-Яа-яA-Za-z]?` for the digit at `k`: the whole digit
      run and at most one letter after it. */
  function NumberEnd(s: string, k: nat): (e: nat)
    requires k < |s| && IsDigit(s[k])
    ensures k < e <= |s|
    ensures forall j :: k <= j < e - 1 ==> IsDigit(s[j])
    ensures IsDigit(s[e - 1]) || IsLetterClass(s[e - 1])
  {
    var d := k + ClassRun(s, k, Digits);
    if d < |s| && IsLetterClass(s[d]) then d + 1 else d
  }

  /** The words that introduce a landmark after the house number. */
  const Landmarks: seq<string> := ["до", "срещу", "зад", "пред", "над", "под", "в", "на"]

  /** One of the words `ws` at `a`, followed by whitespace. */
  predicate LandmarkIn(s: string, a: nat, ws: seq<string>)
    decreases |ws|
  {
    ws != [] &&
    (LandmarkWordAt(s, a, ws[0]) || LandmarkIn(s, a, ws[1..]))
  }

  /** `(?:\s+(?:до|срещу|…)\s+.*)?$` at `e` on a string without line
      breaks: the end of the string, or a landmark word between whitespace. */
  predicate LandmarkTail(s: string, e: nat)
    requires e <= |s|
  {
    e == |s| || (SpaceRun(s, e) >= 1 && LandmarkIn(s, e + SpaceRun(s, e), Landmarks))
  }

  /** Step 6 can stop after the number that starts at `k`. */
  predicate CutsAt(s: string, k: nat)
    requires k < |s|
  {
    IsDigit(s[k]) && LandmarkTail(s, NumberEnd(s, k))
  }

  /** Step 6 can stop at `j`, as a test on positions. */
  function CutAt(s: string): nat -> bool {
    (j: nat) => j < |s| && CutsAt(s, j)
  }

  /** The lazy `.*?` of step 6: the first digit from `k` on whose number is
      followed by the end or by a landmark. */
  function FirstLandmarkNumber(s: string, k: nat): (r: Option<nat>)
    requires k <= |s|
    ensures r.Some? ==> k <= r.value < |s| && CutsAt(s, r.value)
  {
    FirstWhere(CutAt(s), k, |s|)
  }

  /** No position before the one found can stop step 6. */
  lemma FirstLandmarkMinimal(s: string, k: nat, j: nat)
    requires k <= j < |s|
    requires FirstLandmarkNumber(s, k).None? || j < FirstLandmarkNumber(s, k).value
    ensures !CutsAt(s, j)
  {
    FirstWhereMinimal(CutAt(s), k, |s|, j);
  }

  /** The first digit, when its number is followed by the end or by a
      landmark, is where step 6 stops. */
  lemma FirstLandmarkIs(s: string, i: nat, k: nat)
    requires i <= k < |s| && CutsAt(s, k)
    requires forall j :: i <= j < k ==> !IsDigit(s[j])
    ensures FirstLandmarkNumber(s, i) == Some(k)
  {
    FirstWhereIs(CutAt(s), i, |s|, k);
  }

  /** Step 6 on a string without line breaks: when the whole string matches
      `^(.*?\d+[А-Яа-яA-Za-z]?)(?:…)?$`, only the text up to the house
      number is kept, trimmed. */
  function CutAfterNumber(s: string): string
    requires '\n' !in s
  {
    match FirstLandmarkNumber(s, 0)
    case None => s
    case Some(k) => Strip(s[..NumberEnd(s, k)])
  }

  /** `\b<word>\s+\d+` at `i`, case-sensitive. */
  predicate NumberedAt(s: string, i: nat, word: string)
    requires i <= |s|
  {
    Boundary(s, i) && LitAt(s, i, word, false) && SpaceRun(s, i + |word|) >= 1
    && ClassRun(s, i + |word| + SpaceRun(s, i + |word|), Digits) >= 1
  }

  /** The bounds of the digits `(\d+)` of a match at `i`. */
  function NumberedDigits(s: string, i: nat, word: string): (r: (nat, nat))
    requires i <= |s| && NumberedAt(s, i, word)
    ensures i + |word| <= r.0 < r.1 <= |s|
    ensures forall j :: r.0 <= j < r.1 ==> IsDigit(s[j])
  {
    var d := i + |word| + SpaceRun(s, i + |word|);
    (d, d + ClassRun(s, d, Digits))
  }

  /** Step 7: `re.sub(r'\b' + word + r'\s+(\d+)', r'бл. \1', s[i..])`. */
  function NumberedFrom(s: string, i: nat, word: string): string
    requires i <= |s|
    decreases |s| - i
  {
    if i == |s| then []
    else if NumberedAt(s, i, word) then
      var g := NumberedDigits(s, i, word);
      "бл. " + s[g.0..g.1] + NumberedFrom(s, g.1, word)
    else [s[i]] + NumberedFrom(s, i + 1, word)
  }

  lemma MarkersWellFormed()
    ensures forall j :: 0 <= j < |Markers| ==> |Markers[j].0| > 0 && Markers[j].1 == ""
  {}

  lemma TyposWellFormed()
    ensures forall j :: 0 <= j < |Typos| ==> |Typos[j].0| > 0 && '№' !in Typos[j].1
  {}

  /** Step 1 on the trimmed address. */
  function DeleteMarkers(a: string): (r: string)
    ensures '№' !in r
  {
    MarkersWellFormed();
    MarkersRemoveNumberSign(a);
    ReplaceEach(a, Markers)
  }

  /** Steps 2 and 3. */
  function RewriteAbbreviations(a: string): (r: string)
    requires '№' !in a
    ensures '№' !in r
  {
    TyposWellFormed();
    AbbreviationsKeepOut(a, '№');
    ReplaceEachKeepsOut(Abbreviations(a), Typos, '№');
    ReplaceEach(Abbreviations(a), Typos)
  }

  /** Steps 4 and 5 leave no line break, so step 6 applies. */
  function Collapsed(s: string): (r: string)
    ensures '\n' !in r && NoDoubleWs(r) && Trimmed(r)
  {
    var c := CollapseWs(s);
    CollapseHasNoLineBreak(s);
    var p := DropTrailingPunct(c);
    NoDoubleWsPrefix(c, |p|);
    StripKeepsNoDoubleWs(p);
    StripKeepsOut(p, '\n');
    Strip(p)
  }

  /** Steps 4 to 6. */
  function CollapseAndCut(b: string): (r: string)
    requires '№' !in b
    ensures '№' !in r && NoDoubleWs(r)
  {
    CollapsedKeepsOut(b, '№');
    CutAfterNumberKeeps(Collapsed(b), '№');
    CutAfterNumber(Collapsed(b))
  }

  /** Step 7 and the final strip. */
  function BlockNumbers(d: string): (r: string)
    requires NoDoubleWs(d) && '№' !in d
    ensures '№' !in r && NoDoubleWs(r) && Trimmed(r)
  {
    NumberBlocksKeep(d, '№');
    Strip(NumberedFrom(NumberedFrom(d, 0, "бл"), 0, "блок"))
  }

  /** What the address chain guarantees: trimmed, no two whitespace
      characters in a row, no `№`. */
  predicate CleanAddress(r: string) {
    Trimmed(r) && NoDoubleWs(r) && '№' !in r
  }

  /** The rewrite chain on a non-empty address: step 1 removes every `№`
      and no later step brings one back. */
  function NormalizeAddressText(address: string): (r: string)
    ensures CleanAddress(r)
  {
    BlockNumbers(CollapseAndCut(RewriteAbbreviations(DeleteMarkers(Strip(address)))))
  }

  /** `advanced_address_normalization`: NaN and the empty string come back
      unchanged; any other string is rewritten into a clean address. */
  function AdvancedAddressNormalization(address: Cell): (r: Cell)
    ensures address.NaN? || address.s == "" ==> r == address
    ensures address.Str? && address.s != "" ==> r.Str? && CleanAddress(r.s)
  {
    if address.NaN? || address.s == "" then address
    else Str(NormalizeAddressText(address.s))
  }

  lemma MarkersRemoveNumberSign(s: string)
    ensures '№' !in ReplaceEach(s, Markers)
  {
    MarkersWellFormed();
    assert Markers[0] == (['№'], "");
    FirstDeletionKeepsOut(s, Markers, '№');
  }

  lemma NumberBlocksKeep(d: string, c: char)
    requires NoDoubleWs(d) && c !in d && c !in "бл. "
    ensures var r := Strip(NumberedFrom(NumberedFrom(d, 0, "бл"), 0, "блок"));
      c !in r && NoDoubleWs(r)
  {
    assert d[0..] == d;
    NumberedKeeps(d, 0, "бл", c);
    var e := NumberedFrom(d, 0, "бл");
    assert e[0..] == e;
    NumberedKeeps(e, 0, "блок", c);
    StripKeepsOut(NumberedFrom(e, 0, "блок"), c);
    StripKeepsNoDoubleWs(NumberedFrom(e, 0, "блок"));
  }

  lemma AbbreviationsKeepOut(s: string, c: char)
    requires c !in s && c !in "ул. бл.жкп"
    ensures c !in Abbreviations(s)
  {
    assert s[0..] == s;
    SubChars(s, 0, StreetAbbrev, "ул. ", c);
    var a := Sub(s, StreetAbbrev, "ул. ");
    assert a[0..] == a;
    SubChars(a, 0, BoulevardAbbrev, "бул. ", c);
    var b := Sub(a, BoulevardAbbrev, "бул. ");
    assert b[0..] == b;
    SubChars(b, 0, QuarterWord, "жк ", c);
    var d := Sub(b, QuarterWord, "жк ");
    assert d[0..] == d;
    SubChars(d, 0, QuarterDots, "жк ", c);
    var e := Sub(d, QuarterDots, "жк ");
    assert e[0..] == e;
    SubChars(e, 0, SquareAbbrev, "пл. ", c);
  }

  lemma CollapsedKeepsOut(s: string, c: char)
    requires c !in s && c != ' '
    ensures c !in Collapsed(s)
  {
    CollapseKeepsOut(s, c);
    var p := DropTrailingPunct(CollapseWs(s));
    assert c !in p;
    StripKeepsOut(p, c);
  }

  /** Step 6 keeps the absence of a character and of whitespace pairs. */
  lemma CutAfterNumberKeeps(s: string, c: char)
    requires '\n' !in s && c !in s && NoDoubleWs(s)
    ensures c !in CutAfterNumber(s) && NoDoubleWs(CutAfterNumber(s))
  {
    match FirstLandmarkNumber(s, 0)
    case None =>
    case Some(k) =>
      var p := s[..NumberEnd(s, k)];
      assert c !in p;
      NoDoubleWsPrefix(s, |p|);
      StripKeepsOut(p, c);
      StripKeepsNoDoubleWs(p);
  }

  /** Step 7 keeps the absence of whitespace pairs and of any character
      other than those of `бл. `; its output starts where its input does. */
  lemma {:induction false} NumberedKeeps(s: string, i: nat, word: string, c: char)
    requires i <= |s| && NoDoubleWs(s) && |word| > 0 && word[0] == 'б'
    requires c !in s[i..] && c !in "бл. "
    ensures c !in NumberedFrom(s, i, word) && NoDoubleWs(NumberedFrom(s, i, word))
    ensures i < |s| ==> |NumberedFrom(s, i, word)| > 0 && NumberedFrom(s, i, word)[0] == s[i]
    decreases |s| - i
  {
    if i < |s| {
      if NumberedAt(s, i, word) {
        var g := NumberedDigits(s, i, word);
        assert s[g.1..] == s[i..][g.1 - i..];
        NumberedKeeps(s, g.1, word, c);
        NumberedBlockKeeps(s, i, word, c);
      } else {
        assert s[i + 1..] == s[i..][1..];
        NumberedKeeps(s, i + 1, word, c);
        assert s[i] in s[i..];
        NoDoubleWsConcat([s[i]], NumberedFrom(s, i + 1, word));
      }
    }
  }

  /** The step of `NumberedKeeps` at a rewritten block number. */
  lemma NumberedBlockKeeps(s: string, i: nat, word: string, c: char)
    requires i < |s| && |word| > 0 && word[0] == 'б' && NumberedAt(s, i, word)
    requires c !in s[i..] && c !in "бл. "
    requires c !in NumberedFrom(s, NumberedDigits(s, i, word).1, word)
    requires NoDoubleWs(NumberedFrom(s, NumberedDigits(s, i, word).1, word))
    ensures c !in NumberedFrom(s, i, word) && NoDoubleWs(NumberedFrom(s, i, word))
    ensures |NumberedFrom(s, i, word)| > 0 && NumberedFrom(s, i, word)[0] == s[i]
  {
    var g := NumberedDigits(s, i, word);
    var ds := s[g.0..g.1];
    assert c !in ds by { assert ds == s[i..][g.0 - i..g.1 - i]; }
    assert forall j :: 0 <= j < |ds| ==> IsDigit(ds[j]) by {
      forall j | 0 <= j < |ds| ensures IsDigit(ds[j]) { assert ds[j] == s[g.0 + j]; }
    }
    BlockTextClean(ds);
    NoDoubleWsConcat("бл. " + ds, NumberedFrom(s, g.1, word));
    assert s[i] == word[0];
  }

  /** The replacement text of step 7 has no whitespace pair and ends with
      a digit. */
  lemma BlockTextClean(ds: string)
    requires |ds| > 0 && forall j :: 0 <= j < |ds| ==> IsDigit(ds[j])
    ensures NoDoubleWs("бл. " + ds) && IsDigit(("бл. " + ds)[|ds| + 3])
  {
    var a := "бл. " + ds;
    forall j | 0 <= j < |a| - 1 ensures !(IsSpace(a[j]) && IsSpace(a[j + 1])) {
      if j >= 3 { assert a[j + 1] == ds[j - 3]; }
    }
    assert a[|ds| + 3] == ds[|ds| - 1];
  }

  /** Step 6 stops at the first number that a landmark word follows: for
      `ул. Иван Вазов 15 до болница` it stops at `15`, so `CutAfterFound`
      keeps `ул. Иван Вазов 15`. */
  lemma LandmarkStopsCut(s: string, k: nat, n: nat)
    requires k < |s| && IsDigit(s[k])
    requires forall j :: 0 <= j < k ==> !IsDigit(s[j])
    requires n < |Landmarks|
    requires SpaceRun(s, NumberEnd(s, k)) >= 1
    requires LandmarkWordAt(s, NumberEnd(s, k) + SpaceRun(s, NumberEnd(s, k)), Landmarks[n])
    ensures FirstLandmarkNumber(s, 0) == Some(k)
  {
    LandmarkCuts(s, k, n);
    FirstLandmarkIs(s, 0, k);
  }

  /** A landmark word after whitespace past the number at `k` lets step 6
      stop at `k`. */
  lemma LandmarkCuts(s: string, k: nat, n: nat)
    requires k < |s| && IsDigit(s[k]) && n < |Landmarks|
    requires SpaceRun(s, NumberEnd(s, k)) >= 1
    requires LandmarkWordAt(s, NumberEnd(s, k) + SpaceRun(s, NumberEnd(s, k)), Landmarks[n])
    ensures CutsAt(s, k)
  {
    LandmarkTailHas(s, NumberEnd(s, k), n);
  }

  /** A landmark word after whitespace at `e` makes the tail match there. */
  lemma LandmarkTailHas(s: string, e: nat, n: nat)
    requires e <= |s| && n < |Landmarks| && SpaceRun(s, e) >= 1
    requires LandmarkWordAt(s, e + SpaceRun(s, e), Landmarks[n])
    ensures LandmarkTail(s, e)
  {
    LandmarkInHas(s, e + SpaceRun(s, e), Landmarks, n);
  }

  /** Step 6 keeps the text up to the end of the number it stops at. */
  lemma CutAfterFound(s: string, k: nat)
    requires '\n' !in s && FirstLandmarkNumber(s, 0) == Some(k)
    ensures CutAfterNumber(s) == Strip(s[..NumberEnd(s, k)])
  {
  }

  /** The word `w` at `a`, followed by whitespace. */
  predicate LandmarkWordAt(s: string, a: nat, w: string) {
    LitAt(s, a, w, false) && SpaceRun(s, a + |w|) >= 1
  }

  lemma {:induction false} LandmarkInHas(s: string, a: nat, ws: seq<string>, n: nat)
    requires n < |ws| && LandmarkWordAt(s, a, ws[n])
    ensures LandmarkIn(s, a, ws)
    decreases n
  {
    if n > 0 { LandmarkInHas(s, a, ws[1..], n - 1); }
  }

  /** A number at the very end always matches, so nothing is dropped from
      an address that ends with its house number and has no earlier one. */
  lemma FinalNumberKept(s: string, k: nat)
    requires '\n' !in s && Trimmed(s) && k < |s| && IsDigit(s[k]) && NumberEnd(s, k) == |s|
    requires forall j :: 0 <= j < k ==> !IsDigit(s[j])
    ensures CutAfterNumber(s) == s
  {
    FirstLandmarkIs(s, 0, k);
    assert s[..|s|] == s;
    assert LeadingWs(s) == 0;
    assert TrailingWs(s) == 0;
  }

  /** The deletions are not exhaustive: deleting `No` from `NNoo` joins the
      remaining letters into a new `No`. */
  lemma MarkerDeletionRejoins(s: string)
    requires s == "NNoo"
    ensures Replace(s, "No", "") == "No"
  {
    assert s[..2][1] == 'N';
    assert s[1..][..2] == "No";
    assert s[1..][2..] == "o";
    assert Replace("o", "No", "") == "o";
  }

  // =====================================================================
  // improve_city_name

  /** `^ГР\.\s*`, `^Г[РP]\s+`, `^С\.\s*`, `^СЕЛ[ОO]\s+`, `^К\.К\.\s*`, all
      case-insensitive (the second and fourth accept a Latin `P` or `O`). */
  const CityPrefixes: seq<Pattern> := [
    Pattern(false, [Lit("ГР.", true), Spaces(0)]),
    Pattern(false, [Lit("Г", true), OneOf("РP", true), Spaces(1)]),
    Pattern(false, [Lit("С.", true), Spaces(0)]),
    Pattern(false, [Lit("СЕЛ", true), OneOf("ОO", true), Spaces(1)]),
    Pattern(false, [Lit("К.К.", true), Spaces(0)])]

  /** Each prefix pattern removed once, at the start, in order. */
  function CutLeadingEach(s: string, ps: seq<Pattern>): (r: string)
    ensures |r| <= |s| && r == s[|s| - |r|..]
    decreases |ps|
  {
    if ps == [] then s else CutLeadingEach(CutLeading(s, ps[0]), ps[1..])
  }

  /** When the patterns before `ps[k]` do not match at the start and `ps[k]`
      does, the text it matches is gone from the result; when none of the
      later patterns then matches, exactly that text is gone. */
  lemma {:induction false} CutLeadingEachDrops(s: string, ps: seq<Pattern>, k: nat, e: nat)
    requires k < |ps| && forall j :: 0 <= j < k ==> MatchAt(s, 0, ps[j]).None?
    requires MatchAt(s, 0, ps[k]) == Some(e)
    ensures |CutLeadingEach(s, ps)| <= |s| - e
    ensures (forall j :: k < j < |ps| ==> MatchAt(s[e..], 0, ps[j]).None?) ==>
      CutLeadingEach(s, ps) == s[e..]
    decreases k
  {
    if k == 0 {
      assert CutLeadingEach(s, ps) == CutLeadingEach(s[e..], ps[1..]);
      if forall j :: 0 < j < |ps| ==> MatchAt(s[e..], 0, ps[j]).None? {
        CutLeadingEachNone(s[e..], ps[1..]);
      }
    } else {
      assert CutLeadingEach(s, ps) == CutLeadingEach(s, ps[1..]);
      CutLeadingEachDrops(s, ps[1..], k - 1, e);
    }
  }

  /** No pattern matches at the start: nothing is cut. */
  lemma {:induction false} CutLeadingEachNone(s: string, ps: seq<Pattern>)
    requires forall j :: 0 <= j < |ps| ==> MatchAt(s, 0, ps[j]).None?
    ensures CutLeadingEach(s, ps) == s
    decreases |ps|
  {
    if ps != [] {
      CutLeadingEachNone(s, ps[1..]);
    }
  }

  /** Each settlement prefix at the start, in any case, is dropped: `гр.`,
      `Гр ` (also with a Latin `P`), `с.`, `Село ` (also with a Latin `O`)
      and `к.к.` */
  lemma CityPrefixDropped(s: string)
    ensures LitAt(s, 0, "ГР.", true) ==> |CutLeadingEach(s, CityPrefixes)| <= |s| - 3
    ensures LitAt(s, 0, "Г", true) && |s| > 2 && CharIn(s[1], "РP", true) && IsSpace(s[2]) ==>
      |CutLeadingEach(s, CityPrefixes)| <= |s| - 3
    ensures LitAt(s, 0, "С.", true) ==> |CutLeadingEach(s, CityPrefixes)| <= |s| - 2
    ensures LitAt(s, 0, "СЕЛ", true) && |s| > 4 && CharIn(s[3], "ОO", true) && IsSpace(s[4]) ==>
      |CutLeadingEach(s, CityPrefixes)| <= |s| - 5
    ensures LitAt(s, 0, "К.К.", true) ==> |CutLeadingEach(s, CityPrefixes)| <= |s| - 4
  {
    if LitAt(s, 0, "ГР.", true) { CityPrefixAt(s, 0); }
    if LitAt(s, 0, "Г", true) && |s| > 2 && CharIn(s[1], "РP", true) && IsSpace(s[2]) {
      GrSpaceDropped(s);
    }
    if LitAt(s, 0, "С.", true) { SDotDropped(s); }
    if LitAt(s, 0, "СЕЛ", true) && |s| > 4 && CharIn(s[3], "ОO", true) && IsSpace(s[4]) {
      SeloDropped(s);
    }
    if LitAt(s, 0, "К.К.", true) { KkDropped(s); }
  }

  lemma GrSpaceDropped(s: string)
    requires LitAt(s, 0, "Г", true) && |s| > 2 && CharIn(s[1], "РP", true) && IsSpace(s[2])
    ensures |CutLeadingEach(s, CityPrefixes)| <= |s| - 3
  {
    assert !LitAt(s, 0, "ГР.", true) by {
      assert "ГР."[2] == '.' && !SameIgnoringCase(s[2], '.');
    }
    CityPrefixAt(s, 1);
  }

  lemma SDotDropped(s: string)
    requires LitAt(s, 0, "С.", true)
    ensures |CutLeadingEach(s, CityPrefixes)| <= |s| - 2
  {
    LitAtChar(s, 0, "С.", true, 0);
    assert LowerChar(s[0]) == 'с';
    assert !LitAt(s, 0, "ГР.", true) && !LitAt(s, 0, "Г", true) by {
      assert "ГР."[0] == 'Г' && "Г"[0] == 'Г' && LowerChar('Г') == 'г';
    }
    CityPrefixAt(s, 2);
  }

  lemma SeloDropped(s: string)
    requires LitAt(s, 0, "СЕЛ", true) && |s| > 4 && CharIn(s[3], "ОO", true) && IsSpace(s[4])
    ensures |CutLeadingEach(s, CityPrefixes)| <= |s| - 5
  {
    LitAtChar(s, 0, "СЕЛ", true, 0);
    LitAtChar(s, 0, "СЕЛ", true, 1);
    assert LowerChar(s[0]) == 'с' && LowerChar(s[1]) == 'е';
    assert !LitAt(s, 0, "ГР.", true) && !LitAt(s, 0, "Г", true) by {
      assert "ГР."[0] == 'Г' && "Г"[0] == 'Г' && LowerChar('Г') == 'г';
    }
    assert !LitAt(s, 0, "С.", true) by {
      assert "С."[1] == '.' && LowerChar('.') == '.';
    }
    CityPrefixAt(s, 3);
  }

  lemma KkDropped(s: string)
    requires LitAt(s, 0, "К.К.", true)
    ensures |CutLeadingEach(s, CityPrefixes)| <= |s| - 4
  {
    LitAtChar(s, 0, "К.К.", true, 0);
    assert LowerChar(s[0]) == 'к';
    assert !LitAt(s, 0, "ГР.", true) && !LitAt(s, 0, "Г", true) by {
      assert "ГР."[0] == 'Г' && "Г"[0] == 'Г' && LowerChar('Г') == 'г';
    }
    assert !LitAt(s, 0, "С.", true) && !LitAt(s, 0, "СЕЛ", true) by {
      assert "С."[0] == 'С' && "СЕЛ"[0] == 'С' && LowerChar('С') == 'с';
    }
    CityPrefixAt(s, 4);
  }

  /** The prefix pattern `CityPrefixes[k]` matching at the start, after the
      earlier ones did not, removes at least its minimum length. */
  lemma CityPrefixAt(s: string, k: nat)
    requires k < |CityPrefixes| && MatchAt(s, 0, CityPrefixes[k]).Some?
    requires forall j :: 0 <= j < k ==> MatchAt(s, 0, CityPrefixes[j]).None?
    ensures |CutLeadingEach(s, CityPrefixes)| <= |s| - MinLen(CityPrefixes[k].atoms)
  {
    CutLeadingEachDrops(s, CityPrefixes, k, MatchAt(s, 0, CityPrefixes[k]).value);
  }

  const CityTable: seq<(string, string)> := [
    ("СОФИЯ - ГРАД", "София"), ("СОФИЯ-ГРАД", "София"), ("СОФИЯ ГРАД", "София"),
    ("С О Ф И Я", "София"), ("ПЛОВДИВ - ГРАД", "Пловдив"), ("ПЛОВДИВ-ГРАД", "Пловдив"),
    ("ВАРНА - ГРАД", "Варна"), ("ВАРНА-ГРАД", "Варна"),
    ("БУРГАС - ГРАД", "Бургас"), ("БУРГАС-ГРАД", "Бургас")]

  /** `for old, new in table.items(): if city.upper() == old: city = new` */
  function MapByUpper(city: string, table: seq<(string, string)>): string
    decreases |table|
  {
    if table == [] then city
    else MapByUpper(if Upper(city) == table[0].0 then table[0].1 else city, table[1..])
  }

  /** The first entry whose key equals `u`. */
  function FirstKey(u: string, table: seq<(string, string)>): (r: Option<nat>)
    ensures r.Some? ==> r.value < |table| && table[r.value].0 == u
    ensures forall j :: 0 <= j < |table| && (r.None? || j < r.value) ==> table[j].0 != u
    decreases |table|
  {
    if table == [] then None
    else if table[0].0 == u then Some(0)
    else match FirstKey(u, table[1..])
      case None => None
      case Some(j) => Some(j + 1)
  }

  /** With every replacement shorter than every key, the loop applies the
      first key equal to the upper-cased city and nothing after it. */
  lemma {:induction false} MapByUpperFirst(city: string, table: seq<(string, string)>)
    requires forall j, k :: 0 <= j < |table| && 0 <= k < |table| ==> |table[j].1| < |table[k].0|
    ensures FirstKey(Upper(city), table).None? ==> MapByUpper(city, table) == city
    ensures FirstKey(Upper(city), table).Some? ==>
      MapByUpper(city, table) == table[FirstKey(Upper(city), table).value].1
    decreases |table|
  {
    if table != [] {
      var rest := table[1..];
      assert forall j :: 0 <= j < |rest| ==> rest[j] == table[j + 1];
      if Upper(city) == table[0].0 {
        var v := table[0].1;
        assert FirstKey(Upper(city), table) == Some(0);
        assert MapByUpper(city, table) == MapByUpper(v, rest);
        MapByUpperFirst(v, rest);
        assert FirstKey(Upper(v), rest).None?;
      } else {
        assert MapByUpper(city, table) == MapByUpper(city, rest);
        MapByUpperFirst(city, rest);
      }
    }
  }

  /** `if city.isupper() and len(city) > 2: city = city.title()` */
  function TitleIfShouted(s: string): (r: string)
    ensures IsUpperStr(s) && |s| > 2 ==> r == Title(s)
    ensures !(IsUpperStr(s) && |s| > 2) ==> r == s
    ensures |r| == |s|
    ensures forall i :: 0 <= i < |s| ==> (IsSpace(r[i]) <==> IsSpace(s[i]))
  {
    if IsUpperStr(s) && |s| > 2 then Title(s) else s
  }

  /** The steps after the table: whitespace collapsed, title case for a
      shouted name, trimmed. */
  function SpacingAndCase(m: string): (r: string)
    ensures NoDoubleWs(r) && Trimmed(r)
  {
    var b := CollapseWs(m);
    var t := TitleIfShouted(b);
    assert NoDoubleWs(t) by {
      forall i | 0 <= i < |t| - 1 ensures !(IsSpace(t[i]) && IsSpace(t[i + 1])) {
        assert !(IsSpace(b[i]) && IsSpace(b[i + 1]));
      }
    }
    StripKeepsNoDoubleWs(t);
    Strip(t)
  }

  /** The rewrite chain on a non-empty settlement name. */
  function ImproveCityText(city: string): string {
    SpacingAndCase(MapByUpper(CutLeadingEach(Strip(city), CityPrefixes), CityTable))
  }

  /** `improve_city_name`: NaN and the empty string come back unchanged. */
  function ImproveCityName(city: Cell): (r: Cell)
    ensures city.NaN? || city.s == "" ==> r == city
    ensures city.Str? && city.s != "" ==> r.Str? && Trimmed(r.s) && NoDoubleWs(r.s)
  {
    if city.NaN? || city.s == "" then city else Str(ImproveCityText(city.s))
  }

  /** A one-word name in lower case after a capital letter. */
  predicate Capitalised(v: string) {
    |v| >= 2 && IsLowerChar(v[1]) && forall i :: 0 <= i < |v| ==> IsCyrRange(v[i])
  }

  lemma CityValuesCapitalised()
    ensures forall j :: 0 <= j < |CityTable| ==> Capitalised(CityTable[j].1)
  {
    var s1, s2, s3, s4 := "София", "Пловдив", "Варна", "Бургас";
    assert Capitalised(s1);
    assert Capitalised(s2);
    assert Capitalised(s3);
    assert Capitalised(s4);
  }

  /** A name such as `СОФИЯ-ГРАД` or `ВАРНА - ГРАД`, after its prefix, is
      replaced by the table's value, which then survives the remaining
      steps unchanged. */
  lemma CityTableApplies(city: string, j: nat)
    requires FirstKey(Upper(CutLeadingEach(Strip(city), CityPrefixes)), CityTable) == Some(j)
    ensures ImproveCityText(city) == CityTable[j].1
  {
    var a := CutLeadingEach(Strip(city), CityPrefixes);
    CityValuesShorter();
    MapByUpperFirst(a, CityTable);
    CityValuesCapitalised();
    CapitalisedKept(CityTable[j].1);
  }

  /** A shouted one-word name longer than two characters that is not a table
      key, once its prefix is cut, comes out in title case: `ПЛЕВЕН` and
      `гр. ПЛЕВЕН` become `Плевен`. */
  lemma ShoutedCityTitled(city: string)
    requires var a := CutLeadingEach(Strip(city), CityPrefixes);
      FirstKey(Upper(a), CityTable).None? && IsUpperStr(a) && |a| > 2
      && forall i :: 0 <= i < |a| ==> !IsSpace(a[i])
    ensures ImproveCityText(city) == Title(CutLeadingEach(Strip(city), CityPrefixes))
  {
    var a := CutLeadingEach(Strip(city), CityPrefixes);
    CityValuesShorter();
    MapByUpperFirst(a, CityTable);
    ShoutedWordTitled(a);
  }

  /** The steps after the table turn a shouted word into title case. */
  lemma ShoutedWordTitled(a: string)
    requires IsUpperStr(a) && |a| > 2 && forall i :: 0 <= i < |a| ==> !IsSpace(a[i])
    ensures SpacingAndCase(a) == Title(a)
  {
    CollapseWsNoSpace(a);
    var u := Title(a);
    forall i | 0 <= i < |u| ensures !IsSpace(u[i]) {
      CaseKeepsNonSpace(a[i]);
    }
    StripTrimmed(u);
  }

  lemma CaseKeepsNonSpace(c: char)
    requires !IsSpace(c)
    ensures !IsSpace(LowerChar(c)) && !IsSpace(UpperChar(c))
  {
  }

  lemma CityValuesShorter()
    ensures forall j, k :: 0 <= j < |CityTable| && 0 <= k < |CityTable| ==>
      |CityTable[j].1| < |CityTable[k].0|
  {}

  /** A capitalised one-word name passes the steps after the table
      unchanged. */
  lemma CapitalisedKept(v: string)
    requires Capitalised(v)
    ensures SpacingAndCase(v) == v
  {
    CollapseWsNoSpace(v);
    assert !IsUpperStr(v);
    assert TitleIfShouted(v) == v;
    StripTrimmed(v);
  }

  lemma {:induction false} CollapseWsNoSpace(s: string)
    requires forall i :: 0 <= i < |s| ==> !IsSpace(s[i])
    ensures CollapseWs(s) == s
    decreases |s|
  {
    if s != [] {
      CollapseWsNoSpace(s[1..]);
      assert s == [s[0]] + s[1..];
    }
  }

  // =====================================================================
  // extract_building_number

  /** A house or block number: digits, and at most one letter at the end. */
  predicate NumberToken(t: string) {
    |t| > 0 && IsDigit(t[0]) && (forall j :: 0 <= j < |t| - 1 ==> IsDigit(t[j]))
    && (IsDigit(t[|t| - 1]) || IsLetterClass(t[|t| - 1]))
  }

  /** `(?:бл\.|блок)\s*(\d+[А-Яа-я]?)` with IGNORECASE at `i`: the bounds of
      the group. Under IGNORECASE `[А-Яа-я]` still matches the same letters. */
  function BlockNumberAt(s: string, i: nat): (r: Option<(nat, nat)>)
    requires i <= |s|
    ensures r.Some? ==> i < r.value.0 < r.value.1 <= |s| && NumberToken(s[r.value.0..r.value.1])
  {
    var m := if LitAt(s, i, "бл.", true) then i + 3 else if LitAt(s, i, "блок", true) then i + 4 else i;
    if m == i then None
    else
      var d := m + SpaceRun(s, m);
      var n := ClassRun(s, d, Digits);
      if n == 0 then None
      else
        var e := if d + n < |s| && IsCyrRange(s[d + n]) then d + n + 1 else d + n;
        assert forall j :: 0 <= j < e - d - 1 ==> s[d..e][j] == s[d + j];
        Some((d, e))
  }

  /** Whether a block marker followed by a number starts at `j`. */
  function BlockAt(s: string): nat -> bool {
    (j: nat) => j <= |s| && BlockNumberAt(s, j).Some?
  }

  /** `re.search` for a block marker followed by a number: the leftmost
      start position in `[0, |s|]`. */
  function FirstBlockNumber(s: string): (r: Option<nat>)
    ensures r.Some? ==> r.value <= |s| && BlockNumberAt(s, r.value).Some?
  {
    FirstWhere(BlockAt(s), 0, |s| + 1)
  }

  /** `(?:\s*[,.]?\s*)?$` at `e`: only whitespace and at most one comma or
      period are left. */
  predicate PunctSpaceTail(s: string, e: nat)
    requires e <= |s|
  {
    var a := e + SpaceRun(s, e);
    a == |s| || ((s[a] == ',' || s[a] == '.') && a + 1 + SpaceRun(s, a + 1) == |s|)
  }

  /** `\b(\d+[А-Яа-яA-Za-z]?)(?:\s*[,.]?\s*)?$` at `i`. */
  predicate TrailingNumberAt(s: string, i: nat)
    requires i <= |s|
  {
    Boundary(s, i) && i < |s| && IsDigit(s[i]) && PunctSpaceTail(s, NumberEnd(s, i))
  }

  function TrailingAt(s: string): nat -> bool {
    (j: nat) => j <= |s| && TrailingNumberAt(s, j)
  }

  /** `re.search` for a number that ends the address. */
  function FirstTrailingNumber(s: string): (r: Option<nat>)
    ensures r.Some? ==> r.value < |s| && TrailingNumberAt(s, r.value)
  {
    FirstWhere(TrailingAt(s), 0, |s| + 1)
  }

  /** The text of the number that starts at `k`. */
  function NumberText(s: string, k: nat): (t: string)
    requires k < |s| && IsDigit(s[k])
    ensures NumberToken(t)
  {
    var e := NumberEnd(s, k);
    assert forall j :: 0 <= j < e - k ==> s[k..e][j] == s[k + j];
    s[k..e]
  }

  /** `extract_building_number`: the number after the leftmost `бл.` or
      `блок`, else the number that ends the address, else none. */
  function ExtractBuildingNumber(address: Cell): (r: Option<string>)
    ensures address.NaN? ==> r.None?
    ensures r.Some? ==> NumberToken(r.value)
  {
    if address.NaN? then None
    else
      var s := address.s;
      match FirstBlockNumber(s)
      case Some(i) =>
        var g := BlockNumberAt(s, i).value;
        Some(s[g.0..g.1])
      case None =>
        match FirstTrailingNumber(s)
        case Some(i) => Some(NumberText(s, i))
        case None => None
  }

  /** A block marker with a number wins over a trailing number: the result
      is the number after the leftmost such marker. */
  lemma BlockNumberFirst(s: string, i: nat)
    requires i <= |s| && BlockNumberAt(s, i).Some?
    requires forall j :: 0 <= j < i ==> BlockNumberAt(s, j).None?
    ensures ExtractBuildingNumber(Str(s)) ==
      Some(s[BlockNumberAt(s, i).value.0..BlockNumberAt(s, i).value.1])
  {
    FirstBlockIs(s, i);
  }

  /** The search for a block number stops at the leftmost one. */
  lemma FirstBlockIs(s: string, i: nat)
    requires i <= |s| && BlockNumberAt(s, i).Some?
    requires forall j :: 0 <= j < i ==> BlockNumberAt(s, j).None?
    ensures FirstBlockNumber(s) == Some(i)
  {
    FirstWhereIs(BlockAt(s), 0, |s| + 1, i);
  }

  /** The number taken is always the one after the leftmost marker: no
      earlier position starts a block marker with a number. */
  lemma BlockNumberLeftmost(s: string, j: nat)
    requires FirstBlockNumber(s).Some? && j < FirstBlockNumber(s).value
    ensures BlockNumberAt(s, j).None?
  {
    FirstWhereMinimal(BlockAt(s), 0, |s| + 1, j);
  }

  /** Without a block number, the number that ends the address is taken:
      `ул. Шипка 15А.` gives `15А`. */
  lemma TrailingNumberTaken(s: string, i: nat)
    requires forall j :: 0 <= j <= |s| ==> BlockNumberAt(s, j).None?
    requires i < |s| && TrailingNumberAt(s, i)
    requires forall j :: 0 <= j < i ==> !TrailingNumberAt(s, j)
    ensures ExtractBuildingNumber(Str(s)) == Some(s[i..NumberEnd(s, i)])
  {
    FirstWhereNone(BlockAt(s), 0, |s| + 1);
    FirstWhereIs(TrailingAt(s), 0, |s| + 1, i);
  }

  /** An address with neither a block number nor a trailing number gives
      none. */
  lemma NoNumberNone(s: string)
    requires forall j :: 0 <= j <= |s| ==> BlockNumberAt(s, j).None? && !TrailingNumberAt(s, j)
    ensures ExtractBuildingNumber(Str(s)).None?
  {
    FirstWhereNone(BlockAt(s), 0, |s| + 1);
    FirstWhereNone(TrailingAt(s), 0, |s| + 1);
  }

  // =====================================================================
  // extract_street_name_clean

  /** `^(?:ул\.|бул\.|жк|пл\.)\s*` with IGNORECASE: the length of the match
      at the start, 0 when there is none. */
  function LeadingStreetMarker(s: string): (n: nat)
    ensures n <= |s|
    ensures LitAt(s, 0, "ул.", true) ==> n == 3 + SpaceRun(s, 3)
    ensures LitAt(s, 0, "бул.", true) ==> n == 4 + SpaceRun(s, 4)
    ensures LitAt(s, 0, "жк", true) ==> n == 2 + SpaceRun(s, 2)
    ensures LitAt(s, 0, "пл.", true) ==> n == 3 + SpaceRun(s, 3)
    ensures n == 0 <==> !LitAt(s, 0, "ул.", true) && !LitAt(s, 0, "бул.", true)
                        && !LitAt(s, 0, "жк", true) && !LitAt(s, 0, "пл.", true)
    ensures 0 < n < |s| ==> !IsSpace(s[n])
  {
    StreetMarkersExclusive(s);
    var m := if LitAt(s, 0, "ул.", true) then 3
      else if LitAt(s, 0, "бул.", true) then 4
      else if LitAt(s, 0, "жк", true) then 2
      else if LitAt(s, 0, "пл.", true) then 3
      else 0;
    if m == 0 then 0 else m + SpaceRun(s, m)
  }

  /** The four markers start with different letters in any case, so at
      most one of them is found at the start. */
  lemma StreetMarkersExclusive(s: string)
    ensures LitAt(s, 0, "бул.", true) ==> !LitAt(s, 0, "ул.", true)
    ensures LitAt(s, 0, "жк", true) ==> !LitAt(s, 0, "ул.", true) && !LitAt(s, 0, "бул.", true)
    ensures LitAt(s, 0, "пл.", true) ==>
      !LitAt(s, 0, "ул.", true) && !LitAt(s, 0, "бул.", true) && !LitAt(s, 0, "жк", true)
  {
    if |s| > 0 {
      assert "ул."[0] == 'у' && "бул."[0] == 'б' && "жк"[0] == 'ж' && "пл."[0] == 'п';
      if LitAt(s, 0, "бул.", true) { LitAtChar(s, 0, "бул.", true, 0); }
      if LitAt(s, 0, "жк", true) { LitAtChar(s, 0, "жк", true, 0); }
      if LitAt(s, 0, "пл.", true) { LitAtChar(s, 0, "пл.", true, 0); }
    }
  }

  /** `\s+бл\.` without IGNORECASE: the flag is passed where `re.sub` takes
      its count, so the match is case-sensitive. */
  const SpaceBlock := Pattern(false, [Spaces(1), Lit("бл.", false)])

  function StreetNameText(address: string): (r: string)
    ensures Trimmed(r)
  {
    var a := address[LeadingStreetMarker(address)..];
    Strip(CutTail(CutTail(a, SpaceThenDigits), SpaceBlock))
  }

  /** `extract_street_name_clean`: none for NaN or for an empty result. */
  function ExtractStreetNameClean(address: Cell): (r: Option<string>)
    ensures address.NaN? ==> r.None?
    ensures address.Str? ==> (r.Some? <==> StreetNameText(address.s) != "")
    ensures r.Some? ==> r.value == StreetNameText(address.s)
    ensures r.Some? ==> r.value != "" && Trimmed(r.value)
  {
    if address.NaN? then None
    else
      var t := StreetNameText(address.s);
      if t == "" then None else Some(t)
  }

  /** On one line, the street name never holds a whitespace character
      followed by a digit: the cut at the first one removed it. */
  lemma StreetNameHasNoNumber(address: string)
    requires '\n' !in address
    ensures NoSpaceBeforeDigit(StreetNameText(address))
  {
    var a := address[LeadingStreetMarker(address)..];
    assert '\n' !in a;
    CutAtSpaceDigits(a);
    var b := CutTail(a, SpaceThenDigits);
    var _ := OneLineCut(a, SpaceThenDigits);
    var n := OneLineCut(b, SpaceBlock);
    var c := CutTail(b, SpaceBlock);
    NoSpaceBeforeDigitInfix(b, 0, n);
    StripIsInfix(c);
    NoSpaceBeforeDigitInfix(c, LeadingWs(c), LeadingWs(c) + |Strip(c)|);
  }

  /** A one-line address whose text after the marker has no whitespace
      before a digit and no lower-case `бл.` keeps all of that text. */
  lemma StreetNameWhole(address: string)
    requires '\n' !in address
    requires var a := address[LeadingStreetMarker(address)..];
      NoSpaceBeforeDigit(a) && !Contains(a, "бл.")
    ensures StreetNameText(address) == Strip(address[LeadingStreetMarker(address)..])
  {
    var a := address[LeadingStreetMarker(address)..];
    assert '\n' !in a;
    var n := SpaceDigitCut(a);
    assert a[..n] == a;
    UpperBlockMarkerKept(a);
  }

  /** Because the block cut is case-sensitive, a name without a lower-case
      `бл.` (an upper-case `БЛ.` for one) is not cut there. */
  lemma UpperBlockMarkerKept(s: string)
    requires !Contains(s, "бл.")
    ensures CutTail(s, SpaceBlock) == s
  {
    forall j | 0 <= j <= |s| ensures TailMatchAt(s, j, SpaceBlock).None? {
      if MatchAt(s, j, SpaceBlock).Some? {
        SpaceBlockHasMarker(s, j);
      }
    }
  }

  /** Every match of `\s+бл\.` holds a lower-case `бл.`. */
  lemma SpaceBlockHasMarker(s: string, j: nat)
    requires j <= |s| && MatchAt(s, j, SpaceBlock).Some?
    ensures Contains(s, "бл.")
  {
    var k := SpaceRun(s, j);
    assert SpaceBlock.atoms[1..] == [Lit("бл.", false)];
    assert MatchEnd(s, j + k, [Lit("бл.", false)]).Some?;
    LitAtContains(s, j + k, "бл.");
  }

  // =====================================================================
  // standardize_hospital_name

  const MbalSpaced := Pattern(false, [Lit("МБАЛ", false), Spaces(1)])
  const MbalDotted := Pattern(false, [Lit("М.Б.А.Л.", false)])

  /** The rewrite chain on a non-empty name: quotes removed (the source
      removes the same character three times), `МБАЛ` followed by one space,
      `М.Б.А.Л.` written `МБАЛ`, whitespace collapsed, trimmed. */
  function HospitalNameText(name: string): string {
    var q := Replace(Replace(Replace(Strip(name), "\"", ""), "\"", ""), "\"", "");
    Strip(CollapseWs(Sub(Sub(q, MbalSpaced, "МБАЛ "), MbalDotted, "МБАЛ")))
  }

  /** `standardize_hospital_name`: NaN and the empty string come back
      unchanged. */
  function StandardizeHospitalName(name: Cell): (r: Cell)
    ensures name.NaN? || name.s == "" ==> r == name
    ensures name.Str? && name.s != "" ==> r.Str? && Trimmed(r.s)
    ensures name.Str? && name.s != "" ==>
      '"' !in r.s && !Contains(r.s, "М.Б.А.Л.") && NoDoubleWs(r.s)
  {
    if name.NaN? || name.s == "" then name
    else HospitalNameClean(name.s); Str(HospitalNameText(name.s))
  }

  /** The standardised name holds no quote and no two whitespace
      characters in a row. */
  lemma HospitalNameClean(name: string)
    ensures '"' !in HospitalNameText(name)
    ensures !Contains(HospitalNameText(name), "М.Б.А.Л.")
    ensures NoDoubleWs(HospitalNameText(name)) && Trimmed(HospitalNameText(name))
  {
    var s := Strip(name);
    ReplaceCharRemoves(s, '"');
    var q1 := Replace(s, "\"", "");
    ReplaceChars(q1, "\"", "", '"');
    var q2 := Replace(q1, "\"", "");
    ReplaceChars(q2, "\"", "", '"');
    var q := Replace(q2, "\"", "");
    assert q[0..] == q;
    SubChars(q, 0, MbalSpaced, "МБАЛ ", '"');
    var a := Sub(q, MbalSpaced, "МБАЛ ");
    assert a[0..] == a;
    SubChars(a, 0, MbalDotted, "МБАЛ", '"');
    var b := Sub(a, MbalDotted, "МБАЛ");
    CollapseKeepsOut(b, '"');
    StripKeepsOut(CollapseWs(b), '"');
    StripKeepsNoDoubleWs(CollapseWs(b));
    HospitalNameUndotted(name);
  }

  /** No dotted `М.Б.А.Л.` is left: the last rewrite removes every one, and
      collapsing and trimming do not put one together. */
  lemma HospitalNameUndotted(name: string)
    ensures !Contains(HospitalNameText(name), "М.Б.А.Л.")
  {
    var q := Replace(Replace(Replace(Strip(name), "\"", ""), "\"", ""), "\"", "");
    var a := Sub(q, MbalSpaced, "МБАЛ ");
    var b := Sub(a, MbalDotted, "МБАЛ");
    DottedGone(a, 0);
    CollapseKeepsAbsent(b, "М.Б.А.Л.");
    StripKeepsAbsent(CollapseWs(b), "М.Б.А.Л.");
    AbsentNotContained(HospitalNameText(name), "М.Б.А.Л.");
  }

  /** After `М.Б.А.Л.` is rewritten no dotted form is left: the replacement
      `МБАЛ` cannot begin one, and text copied unchanged held none. */
  lemma {:induction false} DottedGone(s: string, i: nat)
    requires i <= |s|
    ensures Absent(SubFrom(s, i, MbalDotted, "МБАЛ"), "М.Б.А.Л.")
    decreases |s| - i
  {
    if i < |s| {
      match MatchAt(s, i, MbalDotted)
      case Some(e) =>
        DottedGone(s, e);
        ReplacedNotDotted(s, i, e);
      case None =>
        DottedGone(s, i + 1);
        CopiedNotDotted(s, i);
    }
  }

  /** The replacement `МБАЛ` in front of dot-free text begins no dotted form. */
  lemma ReplacedNotDotted(s: string, i: nat, e: nat)
    requires i < |s| && MatchAt(s, i, MbalDotted) == Some(e)
    requires Absent(SubFrom(s, e, MbalDotted, "МБАЛ"), "М.Б.А.Л.")
    ensures Absent(SubFrom(s, i, MbalDotted, "МБАЛ"), "М.Б.А.Л.")
  {
    var d := "М.Б.А.Л.";
    var r := SubFrom(s, i, MbalDotted, "МБАЛ");
    var rest := SubFrom(s, e, MbalDotted, "МБАЛ");
    assert r == "МБАЛ" + rest;
    forall k: nat | k <= |r| && k + |d| <= |r| ensures !OccursAt(r, d, k) {
      if k >= 4 {
        assert r[k..k + |d|] == rest[k - 4..k - 4 + |d|];
        assert !OccursAt(rest, d, k - 4);
      } else if k == 0 {
        assert r[k..k + |d|][1] == 'Б' != d[1];
      } else {
        assert r[k..k + |d|][0] == r[k] != 'М' == d[0];
      }
    }
  }

  /** A character copied where no dotted form starts begins none in the
      output either. */
  lemma CopiedNotDotted(s: string, i: nat)
    requires i < |s| && MatchAt(s, i, MbalDotted).None?
    requires Absent(SubFrom(s, i + 1, MbalDotted, "МБАЛ"), "М.Б.А.Л.")
    ensures Absent(SubFrom(s, i, MbalDotted, "МБАЛ"), "М.Б.А.Л.")
  {
    var d := "М.Б.А.Л.";
    var r := SubFrom(s, i, MbalDotted, "МБАЛ");
    var rest := SubFrom(s, i + 1, MbalDotted, "МБАЛ");
    assert r == [s[i]] + rest;
    forall k: nat | k <= |r| && k + |d| <= |r| ensures !OccursAt(r, d, k) {
      if k >= 1 {
        assert r[k..k + |d|] == rest[k - 1..k - 1 + |d|];
        assert !OccursAt(rest, d, k - 1);
      } else if r[..|d|] == d {
        assert rest[..7] == r[1..8] == d[1..];
        DottedTailCopied(s, i + 1);
      }
    }
  }

  /** Output that starts with `.Б.А.Л.` was copied from the input. */
  lemma DottedTailCopied(s: string, i: nat)
    requires i <= |s|
    requires var r := SubFrom(s, i, MbalDotted, "МБАЛ"); 7 <= |r| && r[..7] == ".Б.А.Л."
    ensures i + 7 <= |s| && s[i..i + 7] == ".Б.А.Л."
  {
    var w := ".Б.А.Л.";
    assert forall j :: 0 <= j < |w| ==> w[j] != 'М';
    DottedCopied(s, i, w);
  }

  lemma DottedReplacementFirst(x: string)
    ensures ("МБАЛ" + x)[0] == 'М'
  {
  }

  /** Output of the rewrite that begins with text lacking `М` was copied
      unchanged from the input. */
  lemma {:induction false} DottedCopied(s: string, i: nat, w: string)
    requires i <= |s| && forall j :: 0 <= j < |w| ==> w[j] != 'М'
    requires |w| <= |SubFrom(s, i, MbalDotted, "МБАЛ")| && SubFrom(s, i, MbalDotted, "МБАЛ")[..|w|] == w
    ensures i + |w| <= |s| && s[i..i + |w|] == w
    decreases |w|
  {
    if |w| > 0 && MatchAt(s, i, MbalDotted).None? {
      var rest := SubFrom(s, i + 1, MbalDotted, "МБАЛ");
      assert SubFrom(s, i, MbalDotted, "МБАЛ") == [s[i]] + rest;
      assert rest[..|w| - 1] == w[1..];
      DottedCopied(s, i + 1, w[1..]);
      assert s[i..i + |w|] == [s[i]] + s[i + 1..i + |w|];
    } else if |w| > 0 {
      SubFromMatch(s, i, MbalDotted, "МБАЛ");
      DottedReplacementFirst(SubFrom(s, MatchAt(s, i, MbalDotted).value, MbalDotted, "МБАЛ"));
    }
  }
}
