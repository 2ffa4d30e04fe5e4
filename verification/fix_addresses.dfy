/** The first address cleaner: `normalize_address` and `fix_city_name` of
    the original hospital list. */
module FixAddresses {
  import opened Text
  import opened Patterns
  import opened Sheet
  import NormalizeOfficial

  /** The direct fixes, in insertion order; each is applied only when its
      key occurs. */
  const Fixes: seq<(string, string)> := [
    ("Боо Божилов", "Божко Божилов"),
    ("Пков", "Петков"),
    ("к.к. Албена МЦ Медика-Албена", "Албена"),
    ("парк Кайлъка местност Стражата", "парк Кайлъка"),
    ("кв. Запад", "ул. Христо Ботев 1"),
    ("ж.к. Лазур бл. 158", "жк Лазур 158"),
    (BoulevardKey, BoulevardFix),
    ("ул. Доц.д-р Константин Кънчев", "ул. Константин Кънчев")]

  const BoulevardKey := "25-ти Септември"
  const BoulevardFix := "бул. " + BoulevardKey

  /** The fixed text holds its own key. */
  lemma BoulevardFixHoldsKey()
    ensures Contains(BoulevardFix, BoulevardKey) && 'Д' !in BoulevardFix
  {
    assert BoulevardFix[5..5 + |BoulevardKey|] == BoulevardKey;
    ContainsAt(BoulevardFix, BoulevardKey, 5);
  }

  /** `\s+ет\.\s*\d+` and `\s+вх\.\s*[А-Яа-я\d]+`, case-sensitive here. */
  const FloorAbbrev := Pattern(false, [Spaces(1), Lit("ет.", false), Spaces(0), Run(Digits, 1)])
  const EntranceAbbrev := Pattern(false, [Spaces(1), Lit("вх.", false), Spaces(0), Run(CyrOrDigits, 1)])

  lemma FixesWellFormed()
    ensures forall j :: 0 <= j < |Fixes| ==>
      |Fixes[j].0| > 0 && '№' !in Fixes[j].1 && '\n' !in Fixes[j].1
  {}

  function ApplyFixes(s: string): string {
    FixesWellFormed();
    ReplacePresent(s, Fixes)
  }

  /** The markers, `ж.к.`, and the floor, entrance and ground-floor
      details, as in the official-register cleaner but with fewer
      patterns and only the ground floor matched case-insensitively. */
  function DropDetails(s: string): (r: string)
    ensures '№' !in r
  {
    var m := NormalizeOfficial.DropMarkers(s);
    SubChars(m, 0, NormalizeOfficial.QuarterDots, "жк ", '№');
    var a := Sub(m, NormalizeOfficial.QuarterDots, "жк ");
    NormalizeOfficial.DeleteKeepsOut(a, FloorAbbrev, '№');
    var b := Sub(a, FloorAbbrev, "");
    NormalizeOfficial.DeleteKeepsOut(b, EntranceAbbrev, '№');
    var c := Sub(b, EntranceAbbrev, "");
    NormalizeOfficial.CutTailKeepsOut(c, NormalizeOfficial.GroundFloor, '№');
    CutTail(c, NormalizeOfficial.GroundFloor)
  }

  /** One pass of the floor deletion can leave a floor detail behind:
      deleting ` ет. 5` from ` ет. ет. 5 5` joins the first ` ет.` to the
      last ` 5`. */
  lemma FloorDeletionRejoins()
    ensures Sub(FloorExample, FloorAbbrev, "") == " ет. 5"
    ensures MatchAt(" ет. 5", 0, FloorAbbrev).Some?
  {
    var s := FloorExample;
    FloorExampleHead();
    SubCopies(s, 0, 4, FloorAbbrev, "");
    FloorExampleMatch();
    SubFromMatch(s, 4, FloorAbbrev, "");
    FloorExampleTail();
    assert s[0..4] == " ет.";
    FloorExampleLeft();
  }

  const FloorExample := " ет. ет. 5 5"

  lemma FloorExampleLeft()
    ensures MatchAt(" ет. 5", 0, FloorAbbrev).Some?
  {
    var t := " ет. 5";
    assert SpaceRun(t, 1) == 0 && SpaceRun(t, 5) == 0;
    assert LitAt(t, 1, "ет.", false);
    assert ClassRun(t, 5, Digits) == 1;
  }

  lemma FloorExampleHead()
    ensures forall i :: 0 <= i < 4 ==> MatchAt(FloorExample, i, FloorAbbrev).None?
  {
    var s := FloorExample;
    FloorExampleFirst();
    FloorExampleWord();
    forall i | 0 <= i < 4 ensures MatchAt(s, i, FloorAbbrev).None? {
      assert i == 0 || i == 1 || i == 2 || i == 3;
    }
  }

  /** From 1 to 3 no whitespace starts the match. */
  lemma FloorExampleWord()
    ensures MatchAt(FloorExample, 1, FloorAbbrev).None?
    ensures MatchAt(FloorExample, 2, FloorAbbrev).None?
    ensures MatchAt(FloorExample, 3, FloorAbbrev).None?
  {
    var s := FloorExample;
    assert SpaceRun(s, 1) == 0 && SpaceRun(s, 2) == 0 && SpaceRun(s, 3) == 0;
  }

  /** At 0 the digits are missing: `ет.` is followed by another `ет.`. */
  lemma FloorExampleFirst()
    ensures MatchAt(FloorExample, 0, FloorAbbrev).None?
  {
    var s := FloorExample;
    assert SpaceRun(s, 1) == 0 && LitAt(s, 1, "ет.", false);
    assert SpaceRun(s, 5) == 0 && ClassRun(s, 5, Digits) == 0;
  }

  lemma FloorExampleMatch()
    ensures MatchAt(FloorExample, 4, FloorAbbrev) == Some(10)
  {
    var s := FloorExample;
    assert LitAt(s, 5, "ет.", false);
    assert SpaceRun(s, 5) == 0 && SpaceRun(s, 8) == 1;
    assert ClassRun(s, 10, Digits) == 0 && ClassRun(s, 9, Digits) == 1;
  }

  lemma FloorExampleTail()
    ensures SubFrom(FloorExample, 10, FloorAbbrev, "") == " 5"
  {
    var s := FloorExample;
    assert SpaceRun(s, 11) == 0 && SpaceRun(s, 10) == 1 && !LitAt(s, 11, "ет.", false);
    assert MatchAt(s, 11, FloorAbbrev).None? && MatchAt(s, 10, FloorAbbrev).None?;
  }

  /** `normalize_address(addr, city)`; `city` is not used by the source.
      A NaN or blank address comes back unchanged; any other comes back
      trimmed, with single spaces and without a number sign or line
      break. */
  function NormalizeAddress(addr: Cell): (r: Cell)
    ensures addr.NaN? || Blank(addr.s) ==> r == addr
    ensures addr.Str? && !Blank(addr.s) ==>
      r.Str? && Trimmed(r.s) && NoDoubleWs(r.s) && '№' !in r.s && '\n' !in r.s
  {
    if addr.NaN? || Blank(addr.s) then addr
    else
      var d := DropDetails(ApplyFixes(Strip(addr.s)));
      var c := CollapseWs(d);
      CollapseKeepsOut(d, '№');
      CollapseHasNoLineBreak(d);
      StripKeepsNoDoubleWs(c);
      StripKeepsOut(c, '№');
      StripKeepsOut(c, '\n');
      Str(Strip(c))
  }

  /** A one-line address comes back with no whitespace directly before
      `партер`, in any case: everything from the first such place on was
      cut. */
  lemma GroundFloorCut(addr: string)
    requires !Blank(addr) && '\n' !in addr
    ensures NoSpacedWord(NormalizeAddress(Str(addr)).s, GroundFloorWord)
  {
    var d := DropDetails(ApplyFixes(Strip(addr)));
    StripKeepsOut(addr, '\n');
    DropDetailsGroundFloor(Strip(addr));
    GroundFloorWordShape();
    CollapseNoSpacedWord(d, GroundFloorWord);
    StripNoSpacedWord(CollapseWs(d), GroundFloorWord);
  }

  /** `партер`, the word whose first occurrence after whitespace ends the
      address. */
  const GroundFloorWord := "партер"

  lemma GroundFloorWordShape()
    ensures NormalizeOfficial.GroundFloor == SpacedWord(GroundFloorWord)
    ensures forall j :: 0 <= j < |GroundFloorWord| ==> !IsSpace(LowerChar(GroundFloorWord[j]))
  {}

  /** On one line (and the fixes write no line break), the detail removal
      ends with the ground-floor cut, so no whitespace before `партер` is
      left. */
  lemma DropDetailsGroundFloor(s: string)
    requires '\n' !in s
    ensures NoSpacedWord(DropDetails(ApplyFixes(s)), GroundFloorWord)
  {
    FixesWellFormed();
    ReplacePresentKeepsOut(s, Fixes, '\n');
    var f := ApplyFixes(s);
    var a0 := Replace(f, "№", "");
    ReplaceChars(f, "№", "", '\n');
    ReplaceChars(a0, "No.", "", '\n');
    ReplaceChars(Replace(a0, "No.", ""), "N.", "", '\n');
    var m := NormalizeOfficial.DropMarkers(f);
    assert m[0..] == m;
    SubChars(m, 0, NormalizeOfficial.QuarterDots, "жк ", '\n');
    var a := Sub(m, NormalizeOfficial.QuarterDots, "жк ");
    NormalizeOfficial.DeleteKeepsOut(a, FloorAbbrev, '\n');
    var b := Sub(a, FloorAbbrev, "");
    NormalizeOfficial.DeleteKeepsOut(b, EntranceAbbrev, '\n');
    var c := Sub(b, EntranceAbbrev, "");
    GroundFloorWordShape();
    CutTailNoSpacedWord(c, GroundFloorWord);
  }

  /** With the first six keys absent, the table starts at its seventh
      entry. */
  lemma FirstSixAbsent(s: string)
    requires forall j :: 0 <= j < 6 ==> !Contains(s, Fixes[j].0)
    ensures ApplyFixes(s) == ReplacePresent(s, Fixes[6..])
  {
    FixesWellFormed();
    var t := Fixes;
    assert ReplacePresent(s, t) == ReplacePresent(s, t[1..]);
    assert ReplacePresent(s, t[1..]) == ReplacePresent(s, t[2..]);
    assert ReplacePresent(s, t[2..]) == ReplacePresent(s, t[3..]);
    assert ReplacePresent(s, t[3..]) == ReplacePresent(s, t[4..]);
    assert ReplacePresent(s, t[4..]) == ReplacePresent(s, t[5..]);
    assert ReplacePresent(s, t[5..]) == ReplacePresent(s, t[6..]);
  }

  /** The fix for `25-ти Септември` puts the key back in with `бул. ` in
      front, so the table is not idempotent: whenever the other keys are
      absent, the text grows and still holds the key, and a second pass
      prefixes it again. */
  lemma BoulevardFixRepeats(s: string)
    requires forall j :: 0 <= j < 6 ==> !Contains(s, Fixes[j].0)
    requires Contains(s, BoulevardKey) && 'Д' !in s
    ensures ApplyFixes(s) == Replace(s, BoulevardKey, BoulevardFix)
    ensures |ApplyFixes(s)| > |s| && Contains(ApplyFixes(s), BoulevardKey)
  {
    FirstSixAbsent(s);
    BoulevardFixHoldsKey();
    var r := Replace(s, BoulevardKey, BoulevardFix);
    ReplaceChars(s, BoulevardKey, BoulevardFix, 'Д');
    LastKeyAbsent(r);
    assert Fixes[6] == (BoulevardKey, BoulevardFix);
    assert ReplacePresent(s, Fixes[6..]) == ReplacePresent(r, Fixes[7..]);
    ReplaceLength(s, BoulevardKey, BoulevardFix);
    ReplaceIntroduces(s, BoulevardKey, BoulevardFix);
    ContainsTrans(r, BoulevardFix, BoulevardKey);
  }

  lemma LastKeyAbsent(r: string)
    requires 'Д' !in r
    ensures ReplacePresent(r, Fixes[7..]) == r
  {
    FixesWellFormed();
    MissingCharNotContained(r, Fixes[7].0, 4);
    ReplacePresentNone(r, Fixes[7..]);
  }

  /** The prefixes, deleted anywhere in this order, then a trim. */
  function CityWithoutPrefixes(city: string): (c: string)
    ensures Trimmed(c)
  {
    Strip(Replace(Replace(Replace(Strip(city), "ГР.", ""), "С.", ""), "К.К.", ""))
  }

  /** The three deletions as a table, in the order they are chained. */
  const CityPrefixes: seq<(string, string)> := [("ГР.", ""), ("С.", ""), ("К.К.", "")]

  /** A name that is one of the prefixes followed by text without dots
      loses exactly that prefix: `С. Батак` becomes `Батак`. */
  lemma LeadingPrefixRemoved(city: string, j: nat, n: string)
    requires j < |CityPrefixes| && Strip(city) == CityPrefixes[j].0 + n && '.' !in n
    ensures CityWithoutPrefixes(city) == Strip(n)
  {
    var p := CityPrefixes[j].0;
    var x := Strip(city);
    forall k | 0 <= k < j ensures !Contains(p, CityPrefixes[k].0) {
      MissingCharNotContained(p, CityPrefixes[k].0, 0);
    }
    ReplaceEachLeading(p, n, CityPrefixes, j);
    assert ReplaceEach(x, CityPrefixes) == Replace(Replace(Replace(x, "ГР.", ""), "С.", ""), "К.К.", "");
  }

  /** The deletions are single passes, so a prefix can survive them:
      `КК.К..К.` comes out as `К.К.`. */
  lemma PrefixSurvives()
    ensures CityWithoutPrefixes(RejoinExample) == "К.К."
  {
    var s := RejoinExample;
    RejoinExampleTrimmed();
    MissingCharNotContained(s, "ГР.", 0);
    ReplaceAbsent(s, "ГР.", "");
    MissingCharNotContained(s, "С.", 0);
    ReplaceAbsent(s, "С.", "");
    DeletionRejoins();
  }

  /** `fix_city_name` of the first cleaner. */
  function FixCityName(city: Cell): (r: Cell)
    ensures city.NaN? ==> r.NaN?
    ensures city.Str? ==> r.Str? && Trimmed(r.s)
  {
    if city.NaN? then city
    else
      var c := CityWithoutPrefixes(city.s);
      if Contains(c, "ОБРОЧИЩЕ") || Contains(c, "АЛБЕНА") then Str("Албена")
      else if Contains(c, "ДОБРИЧ-ГРАД") then Str("Добрич")
      else Str(c)
  }

  /** Albena is tested first: a name mentioning the resort is Albena even
      when it also names the Dobrich city region, and a cleaned name with
      none of the three markers is kept as it is. */
  lemma CityNameCases(city: string)
    ensures var c := CityWithoutPrefixes(city);
      (Contains(c, "ОБРОЧИЩЕ") || Contains(c, "АЛБЕНА") ==> FixCityName(Str(city)) == Str("Албена"))
      && (!Contains(c, "ОБРОЧИЩЕ") && !Contains(c, "АЛБЕНА") && Contains(c, "ДОБРИЧ-ГРАД")
          ==> FixCityName(Str(city)) == Str("Добрич"))
      && (!Contains(c, "ОБРОЧИЩЕ") && !Contains(c, "АЛБЕНА") && !Contains(c, "ДОБРИЧ-ГРАД")
          ==> FixCityName(Str(city)) == Str(c))
  {}
}
