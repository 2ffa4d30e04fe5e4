/** The cleaners of the official hospital register: the nine-step address
    rewrite `normalize_address_advanced` and the settlement cleaner
    `fix_city_name`. */
module NormalizeOfficial {
  import opened Text
  import opened Patterns
  import opened Sheet

  /** What `normalize_address_advanced` gives for one row: a cell, or the
      `TypeError` that `city + ' център'` raises when the city is NaN. */
  datatype Outcome = Done(cell: Cell) | TypeError

  // =====================================================================
  // Step 1: markers and floor, entrance, room and apartment details

  /** `\s+ет\.\s*\d+`, `\s+етаж\s+\d+`, `\s+вх\.\s*[А-Яа-я\d]+`,
      `\s+партер` (followed by `.*$`), `\s+каб\.\s*\d+`,
      `\s+апартамент\s+\d+` and `\s+ап\.\s*\d+`, all case-insensitive. */
  const FloorAbbrev := Pattern(false, [Spaces(1), Lit("ет.", true), Spaces(0), Run(Digits, 1)])
  const FloorWord := Pattern(false, [Spaces(1), Lit("етаж", true), Spaces(1), Run(Digits, 1)])
  const EntranceAbbrev := Pattern(false, [Spaces(1), Lit("вх.", true), Spaces(0), Run(CyrOrDigits, 1)])
  const GroundFloor := Pattern(false, [Spaces(1), Lit("партер", true)])
  const RoomAbbrev := Pattern(false, [Spaces(1), Lit("каб.", true), Spaces(0), Run(Digits, 1)])
  const ApartmentWord := Pattern(false, [Spaces(1), Lit("апартамент", true), Spaces(1), Run(Digits, 1)])
  const ApartmentAbbrev := Pattern(false, [Spaces(1), Lit("ап.", true), Spaces(0), Run(Digits, 1)])

  /** The three number markers, deleted in this order. */
  function DropMarkers(s: string): (r: string)
    ensures '№' !in r
  {
    var a := Replace(s, "№", "");
    ReplaceCharRemoves(s, '№');
    ReplaceChars(a, "No.", "", '№');
    ReplaceChars(Replace(a, "No.", ""), "N.", "", '№');
    Replace(Replace(a, "No.", ""), "N.", "")
  }

  /** A cut at the end keeps only characters of its input. */
  lemma CutTailKeepsOut(s: string, p: Pattern, c: char)
    requires MinLen(p.atoms) > 0 && c !in s
    ensures c !in CutTail(s, p)
  {
    match FirstTail(s, 0, p)
    case None =>
    case Some(i) =>
      var e := TailMatchAt(s, i, p).value;
      assert forall x :: x in s[..i] + s[e..] ==> x in s;
  }

  lemma DeleteKeepsOut(s: string, p: Pattern, c: char)
    requires MinLen(p.atoms) > 0 && c !in s
    ensures c !in Sub(s, p, "")
  {
    assert s[0..] == s;
    SubChars(s, 0, p, "", c);
  }

  /** Step 1: the markers, then the detail segments; no `№` is left. */
  function DropDetails(s: string): (r: string)
    ensures '№' !in r
  {
    var m := DropMarkers(s);
    DeleteKeepsOut(m, FloorAbbrev, '№');
    var a := Sub(m, FloorAbbrev, "");
    DeleteKeepsOut(a, FloorWord, '№');
    var b := Sub(a, FloorWord, "");
    DeleteKeepsOut(b, EntranceAbbrev, '№');
    var c := Sub(b, EntranceAbbrev, "");
    CutTailKeepsOut(c, GroundFloor, '№');
    var d := CutTail(c, GroundFloor);
    DeleteKeepsOut(d, RoomAbbrev, '№');
    var e := Sub(d, RoomAbbrev, "");
    DeleteKeepsOut(e, ApartmentWord, '№');
    var f := Sub(e, ApartmentWord, "");
    DeleteKeepsOut(f, ApartmentAbbrev, '№');
    Sub(f, ApartmentAbbrev, "")
  }

  // =====================================================================
  // Steps 2 to 5: typo table, abbreviations, specific fixes

  /** Step 2, in insertion order. */
  const Typos: seq<(string, string)> := [
    ("Боо Божилов", "Божко Божилов"),
    ("Пков", "Петков"),
    ("Доц.д-р", "Доц. д-р"),
    ("Д-р", "д-р")]

  /** Step 3: `ж\.к\.\s*` and `жк\s+`, case-sensitive and without `\b`.
      Step 4: `\bбул\.\s*`, `\bул\.\s*` and `\bбл\.\s*`. */
  const QuarterDots := Pattern(false, [Lit("ж.к.", false), Spaces(0)])
  const QuarterSpaced := Pattern(false, [Lit("жк", false), Spaces(1)])
  const BoulevardAbbrev := Pattern(true, [Lit("бул.", false), Spaces(0)])
  const StreetAbbrev := Pattern(true, [Lit("ул.", false), Spaces(0)])
  const BlockAbbrev := Pattern(true, [Lit("бл.", false), Spaces(0)])

  /** Step 3 can bring back what step 1 cut: `ж.к.партер` has no
      whitespace before `партер`, so the ground-floor cut keeps it, and the
      `ж.к.` rewrite then puts a space there. */
  lemma GroundFloorRestored()
    ensures CutTail(GroundFloorExample, GroundFloor) == GroundFloorExample
    ensures Sub(GroundFloorExample, QuarterDots, "жк ") == "жк партер"
    ensures MatchAt("жк партер", 2, GroundFloor).Some?
  {
    GroundFloorExampleKept();
    GroundFloorExampleRewritten();
    GroundFloorExampleLeft();
  }

  lemma GroundFloorExampleLeft()
    ensures MatchAt("жк партер", 2, GroundFloor).Some?
  {
    var t := "жк партер";
    var w := "партер";
    assert t[3..] == w && !IsSpace(t[3]) && IsSpace(t[2]);
    assert SpaceRun(t, 2) == 1;
    assert LitAt(t, 3, w, true) by {
      forall j | 0 <= j < |w| ensures SameIgnoringCase(t[3 + j], w[j]) {
        assert t[3 + j] == w[j];
      }
    }
  }

  lemma GroundFloorExampleKept()
    ensures FirstTail(GroundFloorExample, 0, GroundFloor).None?
  {
    var s := GroundFloorExample;
    forall j | 0 <= j < |s| ensures !IsSpace(s[j]) {
      assert s[j] == '.' || IsCyrRange(s[j]);
    }
    NoSpaceNoTail(s, GroundFloor);
  }

  lemma GroundFloorExampleRewritten()
    ensures Sub(GroundFloorExample, QuarterDots, "жк ") == "жк партер"
  {
    var s := GroundFloorExample;
    GroundFloorExampleDots();
    SubFromMatch(s, 0, QuarterDots, "жк ");
    GroundFloorExampleRest();
  }

  lemma GroundFloorExampleDots()
    ensures MatchAt(GroundFloorExample, 0, QuarterDots) == Some(4)
  {
    var s := GroundFloorExample;
    assert SpaceRun(s, 4) == 0 && LitAt(s, 0, "ж.к.", false);
  }

  lemma GroundFloorExampleRest()
    ensures SubFrom(GroundFloorExample, 4, QuarterDots, "жк ") == "партер"
  {
    var s := GroundFloorExample;
    forall j | 4 <= j < |s| ensures MatchAt(s, j, QuarterDots).None? {
      assert s[j] != 'ж' && "ж.к."[0] == 'ж';
      assert !LitAt(s, j, "ж.к.", false);
    }
    SubNoMatch(s, 4, QuarterDots, "жк ");
    assert s[4..] == "партер";
  }

  const GroundFloorExample := "ж.к.партер"

  lemma TyposWellFormed()
    ensures forall j :: 0 <= j < |Typos| ==> |Typos[j].0| > 0
  {}

  /** Steps 2 to 4. */
  function Abbreviations(s: string): string {
    TyposWellFormed();
    var t := ReplaceEach(s, Typos);
    var a := Sub(t, QuarterDots, "жк ");
    var b := Sub(a, QuarterSpaced, "жк ");
    var c := Sub(b, BoulevardAbbrev, "бул. ");
    var d := Sub(c, StreetAbbrev, "ул. ");
    Sub(d, BlockAbbrev, "бл. ")
  }

  /** Step 5: the table of specific fixes; its last entry names the city. */
  function SpecificFixes(city: string): (t: seq<(string, string)>)
    ensures |t| == 4
    ensures forall j :: 0 <= j < |t| ==> |t[j].0| > 0
    ensures t[3] == ("кв. Запад", city + " център")
  {
    [("к.к. Албена МЦ Медика-Албена", "Албена"),
     ("к.к.Албена МЦ Медика-Албена", "Албена"),
     ("парк Кайлъка местност Стражата", "парк Кайлъка"),
     ("кв. Запад", city + " център")]
  }

  /** An address naming the western quarter, and none of the earlier keys,
      ends step 5 naming the city centre instead. */
  lemma WestQuarterToCentre(s: string, city: string)
    requires forall j :: 0 <= j < 3 ==> !Contains(s, SpecificFixes(city)[j].0)
    requires Contains(s, "кв. Запад")
    ensures ReplacePresent(s, SpecificFixes(city)) == Replace(s, "кв. Запад", city + " център")
    ensures Contains(ReplacePresent(s, SpecificFixes(city)), city + " център")
  {
    var t := SpecificFixes(city);
    assert ReplacePresent(s, t) == ReplacePresent(s, t[1..]);
    assert ReplacePresent(s, t[1..]) == ReplacePresent(s, t[2..]);
    assert ReplacePresent(s, t[2..]) == ReplacePresent(s, t[3..]);
    assert Contains(s, t[3..][0].0);
    assert t[3..][1..] == [];
    assert ReplacePresent(s, t[3..]) == ReplacePresent(Replace(s, "кв. Запад", city + " център"), []);
    ReplaceIntroduces(s, "кв. Запад", city + " център");
  }

  /** An address holding none of the keys is not changed by step 5. */
  lemma NoFixKeyUnchanged(s: string, city: string)
    requires forall j :: 0 <= j < 4 ==> !Contains(s, SpecificFixes(city)[j].0)
    ensures ReplacePresent(s, SpecificFixes(city)) == s
  {
    ReplacePresentNone(s, SpecificFixes(city));
  }

  // =====================================================================
  // Step 6: building descriptions after the house number

  /** `(бул\.|ул\.)` with IGNORECASE at `i`: the end of group 1. */
  function StreetWordEnd(s: string, i: nat): (g: Option<nat>)
    requires i <= |s|
    ensures g.Some? ==> i + 3 <= g.value <= |s|
  {
    if LitAt(s, i, "бул.", true) then Some(i + 4)
    else if LitAt(s, i, "ул.", true) then Some(i + 3)
    else None
  }

  /** Start of the whitespace run that ends at `r`. */
  function SpaceStart(s: string, r: nat): (t: nat)
    requires r <= |s|
    ensures t <= r
    ensures forall j :: t <= j < r ==> IsSpace(s[j])
    ensures t > 0 ==> !IsSpace(s[t - 1])
    decreases r
  {
    if r > 0 && IsSpace(s[r - 1]) then SpaceStart(s, r - 1) else r
  }

  /** `корпус|блок|сграда|част`, case-insensitive, at `q`. */
  predicate KeywordAt(s: string, q: nat) {
    LitAt(s, q, "корпус", true) || LitAt(s, q, "блок", true)
    || LitAt(s, q, "сграда", true) || LitAt(s, q, "част", true)
  }

  /** A keyword starts somewhere in `[q, l)`. */
  predicate KeywordFrom(s: string, q: nat, l: nat)
    decreases l - q
  {
    q < l && (KeywordAt(s, q) || KeywordFrom(s, q + 1, l))
  }

  /** The groups of one match of step 6 and where the match ends. */
  datatype DetailMatch = DetailMatch(g1: (nat, nat), g2: (nat, nat), g3: (nat, nat), end: nat)

  /** `(бул\.|ул\.)\s*([А-Яа-я\s\-\.]+?)\s+` with IGNORECASE at `i`,
      followed by a digit. The digit must be the first character after
      group 1 outside `[А-Яа-я\s\-\.]`. Group 2 is the lazy run before the
      whitespace in front of the digit; when greedy `\s*` has eaten
      everything up to the digit, it gives back two characters so that
      group 2 and `\s+` get one each. The result is the end of group 1,
      group 2 and the position of the digit. */
  function StreetHead(s: string, i: nat): (h: Option<(nat, nat, nat, nat)>)
    requires i <= |s|
    ensures h.Some? ==>
      var (g, a, t, r) := h.value;
      i < g <= a < t < r < |s| && IsDigit(s[r])
  {
    match StreetWordEnd(s, i)
    case None => None
    case Some(g) =>
      var a := g + SpaceRun(s, g);
      var r := g + ClassRun(s, g, StreetText);
      if r == |s| || !IsDigit(s[r]) then None
      else if a < r then
        var t := SpaceStart(s, r);
        if t == r then None else Some((g, a, t, r))
      else if r - g < 2 then None
      else Some((g, r - 2, r - 1, r))
  }

  /** `(\d+[А-Яа-я]?)\s+.*?(корпус|блок|сграда|част).*$` with IGNORECASE at
      a digit `r`: the end of group 3 and the end of the match. */
  function NumberTail(s: string, r: nat): (n: Option<(nat, nat)>)
    requires r < |s| && IsDigit(s[r])
    ensures n.Some? ==> r < n.value.0 < n.value.1 <= |s| && DollarAt(s, n.value.1)
  {
    var d := r + ClassRun(s, r, Digits);
    var e := if d < |s| && IsCyrRange(s[d]) then d + 1 else d;
    var w := SpaceRun(s, e);
    if w == 0 then None
    else
      var l := DotEnd(s, e + w);
      if DollarAt(s, l) && KeywordFrom(s, e + w, l) then Some((e, l)) else None
  }

  /** `(бул\.|ул\.)\s*([А-Яа-я\s\-\.]+?)\s+(\d+[А-Яа-я]?)\s+.*?(корпус|блок|
      сграда|част).*$` with IGNORECASE at `i`. */
  function DetailAt(s: string, i: nat): (m: Option<DetailMatch>)
    requires i <= |s|
    ensures m.Some? ==>
      var d := m.value;
      d.g1.0 == i && i < d.g1.1 <= d.g2.0 < d.g2.1 < d.g3.0 < d.g3.1 < d.end <= |s|
      && IsDigit(s[d.g3.0]) && DollarAt(s, d.end)
  {
    match StreetHead(s, i)
    case None => None
    case Some((g, a, t, r)) =>
      match NumberTail(s, r)
      case None => None
      case Some((e, l)) => Some(DetailMatch((i, g), (a, t), (r, e), l))
  }

  /** `\1 \2 \3`. */
  function DetailText(s: string, m: DetailMatch): string
    requires m.g1.0 <= m.g1.1 <= |s| && m.g2.0 <= m.g2.1 <= |s| && m.g3.0 <= m.g3.1 <= |s|
  {
    s[m.g1.0..m.g1.1] + " " + s[m.g2.0..m.g2.1] + " " + s[m.g3.0..m.g3.1]
  }

  /** Step 6 on `s[i..]`. */
  function DetailsFrom(s: string, i: nat): (r: string)
    requires i <= |s|
    decreases |s| - i
  {
    if i == |s| then []
    else match DetailAt(s, i)
      case Some(m) => DetailText(s, m) + DetailsFrom(s, m.end)
      case None => [s[i]] + DetailsFrom(s, i + 1)
  }

  /** A match of step 6 runs to the end of the text (or up to a final line
      break): everything after the house number is dropped. */
  lemma DetailDropsRest(s: string, i: nat)
    requires i <= |s| && DetailAt(s, i).Some?
    ensures var m := DetailAt(s, i).value;
      DetailsFrom(s, i) == DetailText(s, m) + s[m.end..] && |s[m.end..]| <= 1
  {
    var m := DetailAt(s, i).value;
    assert DetailsFrom(s, i) == DetailText(s, m) + DetailsFrom(s, m.end);
    if m.end < |s| {
      assert m.end + 1 == |s| && s[m.end..] == [s[m.end]];
      assert StreetHead(s, m.end).None?;
      assert DetailsFrom(s, m.end) == [s[m.end]] + DetailsFrom(s, m.end + 1);
    } else {
      assert s[m.end..] == [];
    }
  }

  // =====================================================================
  // Step 7: `жк <name> бл. <n>` becomes `жк <name> <n>`

  /** `(жк\s+[А-Яа-я\s]+)\s+бл\.\s*(\d+)` at `i`, case-sensitive. The run
      `[А-Яа-я\s]` after `жк` stops at the first other character, which must
      be the period of `бл.`; group 1 ends at the whitespace before `бл`.
      The result is the end of group 1, the digits and the end of the
      match. */
  function QuarterBlockAt(s: string, i: nat): (m: Option<(nat, nat, nat)>)
    requires i <= |s|
    ensures m.Some? ==> i + 4 <= m.value.0 < m.value.1 < m.value.2 <= |s|
    ensures m.Some? ==> forall j :: m.value.1 <= j < m.value.2 ==> IsDigit(s[j])
  {
    if !LitAt(s, i, "жк", false) || SpaceRun(s, i + 2) == 0 then None
    else
      var e := i + 2 + ClassRun(s, i + 2, CyrOrSpace);
      if e < |s| && s[e] == '.' && e >= i + 7 && s[e - 2] == 'б' && s[e - 1] == 'л' && IsSpace(s[e - 3]) then
        var k := SpaceRun(s, e + 1);
        var n := ClassRun(s, e + 1 + k, Digits);
        if n >= 1 then Some((e - 3, e + 1 + k, e + 1 + k + n)) else None
      else None
  }

  /** Step 7 on `s[i..]`: `\1 \2`. */
  function QuarterBlocksFrom(s: string, i: nat): string
    requires i <= |s|
    decreases |s| - i
  {
    if i == |s| then []
    else match QuarterBlockAt(s, i)
      case Some(m) => s[i..m.0] + " " + s[m.1..m.2] + QuarterBlocksFrom(s, m.2)
      case None => [s[i]] + QuarterBlocksFrom(s, i + 1)
  }

  const QuarterExample := "жк Лазур бл. 158"

  lemma QuarterExampleName()
    ensures ClassRun(QuarterExample, 2, CyrOrSpace) == 9
  {
    var s := QuarterExample;
    assert ClassRun(s, 11, CyrOrSpace) == 0;
    assert ClassRun(s, 8, CyrOrSpace) == 3;
    assert ClassRun(s, 5, CyrOrSpace) == 6;
  }

  lemma QuarterExampleNumber()
    ensures SpaceRun(QuarterExample, 2) == 1
    ensures SpaceRun(QuarterExample, 12) == 1 && ClassRun(QuarterExample, 13, Digits) == 3
  {
    var s := QuarterExample;
    assert s[2] == ' ' && s[3] == 'Л' && s[12] == ' ' && s[13] == '1';
    assert SpaceRun(s, 3) == 0;
    assert ClassRun(s, 16, Digits) == 0;
  }

  lemma QuarterExampleMatch()
    ensures QuarterBlockAt(QuarterExample, 0) == Some((8, 13, 16))
  {
    QuarterExampleName();
    QuarterExampleNumber();
    assert LitAt(QuarterExample, 0, "жк", false);
  }

  /** The example of the source: `жк Лазур бл. 158` becomes
      `жк Лазур 158`. */
  lemma QuarterBlockExample()
    ensures QuarterBlocksFrom(QuarterExample, 0) == "жк Лазур 158"
  {
    QuarterExampleMatch();
    var s := QuarterExample;
    assert QuarterBlocksFrom(s, 0) == s[0..8] + " " + s[13..16] + QuarterBlocksFrom(s, 16);
  }

  // =====================================================================
  // Step 8: commas; step 9: letters before digits

  /** Every comma is followed by exactly one space, and that space by a
      non-whitespace character or the end. */
  predicate CommaSpaced(s: string) {
    forall j :: 0 <= j < |s| && s[j] == ',' ==>
      j + 1 < |s| && s[j + 1] == ' ' && (j + 2 == |s| || !IsSpace(s[j + 2]))
  }

  /** No letter of `[А-Яа-я]` is directly followed by a digit. */
  predicate NoCyrDigit(s: string) {
    forall j :: 0 <= j < |s| - 1 ==> !(IsCyrRange(s[j]) && IsDigit(s[j + 1]))
  }

  lemma CommaSpacedCons(c: char, s: string)
    requires c != ',' && CommaSpaced(s)
    ensures CommaSpaced([c] + s)
  {
    var r := [c] + s;
    forall j | 0 <= j < |r| && r[j] == ','
      ensures j + 1 < |r| && r[j + 1] == ' ' && (j + 2 == |r| || !IsSpace(r[j + 2]))
    {
      assert r[j] == s[j - 1];
    }
  }

  lemma CommaSpacedComma(s: string)
    requires CommaSpaced(s) && (s == [] || !IsSpace(s[0]))
    ensures CommaSpaced(", " + s)
  {
    var r := ", " + s;
    forall j | 0 <= j < |r| && r[j] == ','
      ensures j + 1 < |r| && r[j + 1] == ' ' && (j + 2 == |r| || !IsSpace(r[j + 2]))
    {
      if j >= 2 { assert r[j] == s[j - 2]; }
    }
  }

  /** `re.sub(r'\s*,\s*', ', ', s[i..])`. */
  function CommaFrom(s: string, i: nat): (r: string)
    requires i <= |s|
    ensures CommaSpaced(r)
    ensures NoDoubleWs(s) ==> NoDoubleWs(r)
    ensures i < |s| ==> |r| > 0 && (r[0] == ',' || r[0] == s[i])
    decreases |s| - i
  {
    if i == |s| then []
    else
      var k := SpaceRun(s, i);
      if i + k < |s| && s[i + k] == ',' then
        var m := i + k + 1 + SpaceRun(s, i + k + 1);
        var rest := CommaFrom(s, m);
        CommaSpacedComma(rest);
        NoDoubleWsJoin(", ", rest);
        ", " + rest
      else
        var rest := CommaFrom(s, i + 1);
        CommaSpacedCons(s[i], rest);
        NoDoubleWsJoin([s[i]], rest);
        [s[i]] + rest
  }

  /** `re.sub(r'([А-Яа-я])(\d)', r'\1 \2', s[i..])`. */
  function SepFrom(s: string, i: nat): (r: string)
    requires i <= |s|
    ensures NoCyrDigit(r)
    ensures i < |s| ==> |r| > 0 && r[0] == s[i]
    decreases |s| - i
  {
    if i == |s| then []
    else if i + 1 < |s| && IsCyrRange(s[i]) && IsDigit(s[i + 1]) then
      var rest := SepFrom(s, i + 2);
      var r := [s[i], ' ', s[i + 1]] + rest;
      assert NoCyrDigit(r) by {
        forall j | 0 <= j < |r| - 1 ensures !(IsCyrRange(r[j]) && IsDigit(r[j + 1])) {
          if j >= 3 { assert r[j] == rest[j - 3] && r[j + 1] == rest[j - 2]; }
        }
      }
      r
    else
      var rest := SepFrom(s, i + 1);
      var r := [s[i]] + rest;
      assert NoCyrDigit(r) by {
        forall j | 0 <= j < |r| - 1 ensures !(IsCyrRange(r[j]) && IsDigit(r[j + 1])) {
          if j >= 1 { assert r[j] == rest[j - 1] && r[j + 1] == rest[j]; }
        }
      }
      r
  }

  /** Step 9 keeps the comma spacing of step 8: it only ever writes a space
      between a letter and a digit. */
  lemma {:induction false} SepKeepsCommaSpacing(s: string, i: nat)
    requires i <= |s| && CommaSpaced(s)
    ensures CommaSpaced(SepFrom(s, i))
    decreases |s| - i
  {
    if i < |s| {
      if i + 1 < |s| && IsCyrRange(s[i]) && IsDigit(s[i + 1]) {
        SepKeepsCommaSpacing(s, i + 2);
        var rest := SepFrom(s, i + 2);
        CommaSpacedCons(s[i + 1], rest);
        CommaSpacedCons(' ', [s[i + 1]] + rest);
        CommaSpacedCons(s[i], [' ', s[i + 1]] + rest);
        assert [s[i]] + ([' '] + ([s[i + 1]] + rest)) == [s[i], ' ', s[i + 1]] + rest;
      } else {
        SepKeepsCommaSpacing(s, i + 1);
        var rest := SepFrom(s, i + 1);
        if s[i] == ',' {
          SepAfterComma(s, i);
        } else {
          CommaSpacedCons(s[i], rest);
        }
      }
    }
  }

  /** After a comma, step 9 copies the space and the character after it. */
  lemma SepAfterComma(s: string, i: nat)
    requires i < |s| && CommaSpaced(s) && s[i] == ','
    requires CommaSpaced(SepFrom(s, i + 1))
    ensures CommaSpaced(SepFrom(s, i))
  {
    var rest := SepFrom(s, i + 1);
    assert s[i + 1] == ' ';
    assert SepFrom(s, i) == [','] + rest;
    assert rest == [' '] + SepFrom(s, i + 2);
    var r := [','] + rest;
    forall j | 0 <= j < |r| && r[j] == ','
      ensures j + 1 < |r| && r[j + 1] == ' ' && (j + 2 == |r| || !IsSpace(r[j + 2]))
    {
      if j > 0 { assert r[j] == rest[j - 1]; }
    }
  }

  /** Step 9 writes a space only between a letter and a digit. */
  lemma {:induction false} SepKeepsSingleSpaces(s: string, i: nat)
    requires i <= |s| && NoDoubleWs(s)
    ensures NoDoubleWs(SepFrom(s, i))
    decreases |s| - i
  {
    if i < |s| {
      if i + 1 < |s| && IsCyrRange(s[i]) && IsDigit(s[i + 1]) {
        SepKeepsSingleSpaces(s, i + 2);
        NoDoubleWsConcat([s[i], ' ', s[i + 1]], SepFrom(s, i + 2));
      } else {
        SepKeepsSingleSpaces(s, i + 1);
        NoDoubleWsConcat([s[i]], SepFrom(s, i + 1));
      }
    }
  }

  // =====================================================================
  // The whole rewrite

  /** Steps 1 to 7 on a non-blank address. */
  function RewriteText(addr: string, city: string): string {
    var a := Abbreviations(DropDetails(Strip(addr)));
    var b := ReplacePresent(a, SpecificFixes(city));
    QuarterBlocksFrom(DetailsFrom(b, 0), 0)
  }

  /** Steps 8 and 9. */
  function FinalSpacing(s: string): (r: string)
    ensures CommaSpaced(r) && NoCyrDigit(r) && NoDoubleWs(r)
  {
    var t := Strip(CollapseWs(s));
    StripKeepsNoDoubleWs(CollapseWs(s));
    var c := CommaFrom(t, 0);
    SepKeepsCommaSpacing(c, 0);
    SepKeepsSingleSpaces(c, 0);
    SepFrom(c, 0)
  }

  /** `normalize_address_advanced(addr, city, name)`; `name` is not used by
      the source. A NaN or blank address comes back unchanged; otherwise a
      NaN city raises, because the table of step 5 is built for every
      address. */
  function NormalizeAddressAdvanced(addr: Cell, city: Cell): (r: Outcome)
    ensures addr.NaN? || Blank(addr.s) ==> r == Done(addr)
    ensures addr.Str? && !Blank(addr.s) ==> (r.TypeError? <==> city.NaN?)
    ensures addr.Str? && !Blank(addr.s) && r.Done? ==>
      r.cell.Str? && CommaSpaced(r.cell.s) && NoCyrDigit(r.cell.s) && NoDoubleWs(r.cell.s)
  {
    if addr.NaN? || Blank(addr.s) then Done(addr)
    else if city.NaN? then TypeError
    else Done(Str(FinalSpacing(RewriteText(addr.s, city.s))))
  }

  // =====================================================================
  // fix_city_name

  /** The prefixes deleted anywhere in the name, in this order. */
  const CityPrefixes: seq<(string, string)> := [
    ("ГР.", ""), ("гр.", ""), ("Гр.", ""), ("С.", ""), ("с.", ""), ("К.К.", ""), ("к.к.", "")]

  /** Compound names, in insertion order. */
  const CityMappings: seq<(string, string)> := [
    ("ДОБРИЧ-ГРАД", "Добрич"), ("СОФИЯ-ГРАД", "София"),
    ("ОБРОЧИЩЕ К.К.АЛБЕНА", "Албена"), ("ОБРОЧИЩЕ АЛБЕНА", "Албена")]

  lemma CityPrefixesWellFormed()
    ensures forall j :: 0 <= j < |CityPrefixes| ==> |CityPrefixes[j].0| > 0
  {}

  /** The first entry whose key occurs in `u`. */
  function FirstContained(u: string, table: seq<(string, string)>): (r: Option<nat>)
    ensures r.Some? ==> r.value < |table| && Contains(u, table[r.value].0)
    decreases |table|
  {
    if table == [] then None
    else if Contains(u, table[0].0) then Some(0)
    else match FirstContained(u, table[1..])
      case None => None
      case Some(j) => Some(j + 1)
  }

  lemma {:induction false} FirstContainedMinimal(u: string, table: seq<(string, string)>, j: nat)
    requires j < |table|
    requires FirstContained(u, table).None? || j < FirstContained(u, table).value
    ensures !Contains(u, table[j].0)
    decreases |table|
  {
    if j > 0 { FirstContainedMinimal(u, table[1..], j - 1); }
  }

  /** The name after the prefixes are deleted and the ends trimmed. */
  function CityWithoutPrefixes(city: string): (c: string)
    ensures Trimmed(c)
  {
    CityPrefixesWellFormed();
    Strip(ReplaceEach(Strip(city), CityPrefixes))
  }

  /** A name that is one of the prefixes followed by text without dots
      loses exactly that prefix: `гр. Плевен` becomes `Плевен`. */
  lemma LeadingPrefixRemoved(city: string, j: nat, n: string)
    requires j < |CityPrefixes| && Strip(city) == CityPrefixes[j].0 + n && '.' !in n
    ensures CityWithoutPrefixes(city) == Strip(n)
  {
    var p := CityPrefixes[j].0;
    forall k | 0 <= k < j ensures !Contains(p, CityPrefixes[k].0) {
      MissingCharNotContained(p, CityPrefixes[k].0, if j == 2 && k == 0 then 1 else 0);
    }
    ReplaceEachLeading(p, n, CityPrefixes, j);
  }

  /** The deletions are single passes, so a prefix can survive them:
      `КК.К..К.` comes out as `К.К.`. */
  lemma PrefixSurvives()
    ensures CityWithoutPrefixes(RejoinExample) == "К.К."
  {
    CityPrefixesWellFormed();
    RejoinExampleTrimmed();
    PrefixExampleSkipped();
    DeletionRejoins();
    PrefixExampleLast();
  }

  lemma PrefixExampleSkipped()
    ensures ReplaceEach(RejoinExample, CityPrefixes) == ReplaceEach(RejoinExample, CityPrefixes[5..])
  {
    var s := RejoinExample;
    CityPrefixesWellFormed();
    forall k | 0 <= k < 5 ensures !Contains(s, CityPrefixes[k].0) {
      MissingCharNotContained(s, CityPrefixes[k].0, 0);
    }
    ReplaceEachSkips(s, CityPrefixes, 5);
  }

  lemma PrefixExampleLast()
    ensures ReplaceEach("К.К.", CityPrefixes[6..]) == "К.К."
  {
    MissingCharNotContained("К.К.", "к.к.", 0);
    ReplaceAbsent("К.К.", "к.к.", "");
    assert CityPrefixes[6..][1..] == [];
  }

  /** The mapping loop with its `break`, then `title()` for a name in
      capitals longer than three characters. No final strip. */
  function CityAfterPrefixes(c: string): string {
    var m := match FirstContained(Upper(c), CityMappings)
      case Some(j) => CityMappings[j].1
      case None => c;
    if IsUpperStr(m) && |m| > 3 then Title(m) else m
  }

  /** `fix_city_name` of the official-register script. */
  function FixCityName(city: Cell): (r: Cell)
    ensures city.NaN? ==> r.NaN?
    ensures city.Str? ==> r.Str?
  {
    if city.NaN? then city else Str(CityAfterPrefixes(CityWithoutPrefixes(city.s)))
  }

  /** A name with a mapping key in it becomes that key's value, whatever
      else it holds; the first key in table order wins. */
  lemma CityMappingApplies(c: string, j: nat)
    requires FirstContained(Upper(c), CityMappings) == Some(j)
    ensures CityAfterPrefixes(c) == CityMappings[j].1
    ensures forall k :: 0 <= k < j ==> !Contains(Upper(c), CityMappings[k].0)
  {
    var v := CityMappings[j].1;
    assert !IsUpperStr(v) by { assert IsLowerChar(v[1]); }
    forall k | 0 <= k < j ensures !Contains(Upper(c), CityMappings[k].0) {
      FirstContainedMinimal(Upper(c), CityMappings, k);
    }
  }

  /** A name in capitals (`str.isupper()`), longer than three characters
      and without a mapping key, is title-cased: `ПЛЕВЕН` becomes `Плевен`;
      any other name without a key is kept as it is. */
  lemma ShoutedCityTitled(c: string)
    requires FirstContained(Upper(c), CityMappings).None?
    ensures IsUpperStr(c) && |c| > 3 ==> CityAfterPrefixes(c) == Title(c)
    ensures !(IsUpperStr(c) && |c| > 3) ==> CityAfterPrefixes(c) == c
  {}

  /** For a one-word name in Cyrillic capitals the title case keeps the
      first letter and lowers the others. */
  lemma ShoutedCyrillicCity(c: string)
    requires |c| > 3 && forall i :: 0 <= i < |c| ==> 'А' <= c[i] <= 'Я'
    requires FirstContained(Upper(c), CityMappings).None?
    ensures |CityAfterPrefixes(c)| == |c| && CityAfterPrefixes(c)[0] == c[0]
    ensures forall i :: 1 <= i < |c| ==> CityAfterPrefixes(c)[i] == LowerChar(c[i])
  {
    assert IsUpperChar(c[0]);
    assert IsUpperStr(c);
  }
}
