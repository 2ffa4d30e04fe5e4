/** `fix_all_coords.py`: geocode every table row again and accept a result
    only when it is not suspicious (a city-level provider, or a display
    text that does not mention the row's city). */
module CoordFix {
  import opened Text
  import opened Patterns
  import opened Sheet

  // ---------------------------------------------------------------------
  // The values passed to the geocoder

  /** `row.get('Адрес') or ''`, then stripped; NaN becomes `''`. */
  function AddressIn(row: Row): (a: string)
    ensures row.address.NaN? ==> a == ""
    ensures row.address.Str? ==> a == Strip(row.address.s)
  {
    if row.address.NaN? then "" else Strip(row.address.s)
  }

  /** The stripped settlement; the region, as it is, when the settlement is
      NaN or blank. */
  function CityIn(row: Row): (c: Cell)
    ensures row.settlement.Str? && !Blank(row.settlement.s) ==> c == Str(Strip(row.settlement.s))
    ensures !(row.settlement.Str? && !Blank(row.settlement.s)) ==> c == row.region
  {
    BlankIffStripsToEmpty(if row.settlement.Str? then row.settlement.s else "");
    if row.settlement.Str? && !Blank(row.settlement.s) then Str(Strip(row.settlement.s)) else row.region
  }

  /** `row.get('Област') or ''`, stripped unless it is NaN. */
  function OblastIn(row: Row): (c: Cell)
    ensures row.region.NaN? ==> c.NaN?
    ensures row.region.Str? ==> c == Str(Strip(row.region.s))
  {
    if row.region.NaN? then NaN else Str(Strip(row.region.s))
  }

  // ---------------------------------------------------------------------
  // The suspicion test

  predicate CityLevelProvider(provider: Option<string>) {
    provider == Some("nominatim_city") || provider == Some("city_fallback")
  }

  /** `city.replace('ГР.', '').replace('С.', '').strip()`. */
  function CleanCity(city: string): string {
    Strip(Replace(Replace(city, "ГР.", ""), "С.", ""))
  }

  /** The display test runs only for a city and a cleaned city both longer
      than three characters, and fails when the cleaned city, lowercased,
      is not in the lowercased display. A missing display reads as `''`. */
  predicate DisplayMissesCity(city: string, display: Option<string>) {
    var clean := CleanCity(city);
    var shown := if display.Some? then Lower(display.value) else "";
    |city| > 3 && |clean| > 3 && !Contains(shown, Lower(clean))
  }

  predicate Suspicious(provider: Option<string>, city: string, display: Option<string>) {
    CityLevelProvider(provider) || DisplayMissesCity(city, display)
  }

  /** A city-level provider is always rejected, and a city of at most three
      characters is never held against the display. */
  lemma SuspicionCases(provider: Option<string>, city: string, display: Option<string>)
    ensures CityLevelProvider(provider) ==> Suspicious(provider, city, display)
    ensures |city| <= 3 ==> (Suspicious(provider, city, display) <==> CityLevelProvider(provider))
    ensures |CleanCity(city)| <= 3 ==> (Suspicious(provider, city, display) <==> CityLevelProvider(provider))
  {
  }

  /** A display that literally contains the lowercased cleaned city passes
      the display test. */
  lemma {:induction false} CityInDisplayPasses(city: string, display: string, i: nat)
    requires i + |Lower(CleanCity(city))| <= |Lower(display)|
    requires Lower(display)[i..i + |Lower(CleanCity(city))|] == Lower(CleanCity(city))
    ensures !DisplayMissesCity(city, Some(display))
  {
    ContainsAt(Lower(display), Lower(CleanCity(city)), i);
  }

  // ---------------------------------------------------------------------
  // One row

  /** What happens to one row. `Crash` is `city.lower()` on a NaN city once
      a result is found: the exception is not caught and ends the script. */
  datatype Verdict =
    | NotFound
    | Rejected(cityLevel: bool)
    | Accepted(answer: Answer)
    | Crash

  function Ask(row: Row, locate: Locate): Option<Answer> {
    locate(AddressIn(row), CityIn(row), OblastIn(row), OrEmpty(row.name))
  }

  function Judge(row: Row, res: Option<Answer>): (v: Verdict)
    ensures !Found(res) ==> v == NotFound
    ensures Found(res) && CityIn(row).NaN? ==> v == Crash
    ensures Found(res) && CityIn(row).Str? ==>
      (v.Accepted? <==> !Suspicious(res.value.provider, CityIn(row).s, res.value.display))
    ensures v.Accepted? ==> v.answer == res.value
    ensures v.Rejected? ==> v.cityLevel == CityLevelProvider(res.value.provider)
  {
    if !Found(res) then NotFound
    else
      var city := CityIn(row);
      if city.NaN? then Crash
      else if Suspicious(res.value.provider, city.s, res.value.display) then
        Rejected(CityLevelProvider(res.value.provider))
      else Accepted(res.value)
  }

  // ---------------------------------------------------------------------
  // The row loop

  /** A `failed` entry: `(i, name, addr, city)`. */
  datatype Failure = Failure(index: nat, name: Cell, address: string, city: Cell)

  /** A `city_level` entry: `(i, name, addr, city, provider, display)`. */
  datatype CityLevelHit = CityLevelHit(index: nat, name: Cell, address: string, city: Cell,
                                       provider: Option<string>, display: Option<string>)

  datatype Tally = Tally(table: seq<Row>, updated: nat, failed: seq<Failure>, cityLevel: seq<CityLevelHit>)

  datatype Run = Completed(tally: Tally) | Crashed(at: nat)

  /** The geocoder's answer for a row and the verdict on it. */
  datatype Outcome = Outcome(res: Option<Answer>, verdict: Verdict)

  function OutcomeOf(row: Row, locate: Locate): Outcome {
    Outcome(Ask(row, locate), Judge(row, Ask(row, locate)))
  }

  /** The outcome of every row, in table order. */
  function Outcomes(rows: seq<Row>, locate: Locate): (os: seq<Outcome>)
    ensures |os| == |rows|
    decreases |rows|
  {
    if rows == [] then []
    else Outcomes(rows[..|rows| - 1], locate) + [OutcomeOf(rows[|rows| - 1], locate)]
  }

  lemma {:induction false} OutcomesAt(rows: seq<Row>, locate: Locate, i: nat)
    requires i < |rows|
    ensures Outcomes(rows, locate)[i] == OutcomeOf(rows[i], locate)
    decreases |rows|
  {
    if i < |rows| - 1 {
      OutcomesAt(rows[..|rows| - 1], locate, i);
    }
  }

  function FailureOf(rows: seq<Row>, i: nat): Failure
    requires i < |rows|
  {
    Failure(i, OrEmpty(rows[i].name), AddressIn(rows[i]), CityIn(rows[i]))
  }

  function HitOf(rows: seq<Row>, i: nat, a: Answer): CityLevelHit
    requires i < |rows|
  {
    CityLevelHit(i, OrEmpty(rows[i].name), AddressIn(rows[i]), CityIn(rows[i]), a.provider, a.display)
  }

  /** The bookkeeping of the loop over the first `n` rows, for any
      outcomes `os` of those rows. */
  function Tallied(rows: seq<Row>, os: seq<Outcome>, n: nat): (r: Run)
    requires n <= |rows| == |os|
    ensures r.Completed? ==> |r.tally.table| == |rows|
    ensures r.Crashed? ==> r.at < n
  {
    if n == 0 then Completed(Tally(rows, 0, [], []))
    else match Tallied(rows, os, n - 1)
      case Crashed(k) => Crashed(k)
      case Completed(t) =>
        var i := n - 1;
        var row := rows[i];
        match os[i].verdict
        case Crash => Crashed(i)
        case NotFound => Completed(t.(failed := t.failed + [FailureOf(rows, i)]))
        case Rejected(cityLevel) =>
          var res := os[i].res;
          var hits := if cityLevel && res.Some? then [HitOf(rows, i, res.value)] else [];
          Completed(t.(failed := t.failed + [FailureOf(rows, i)], cityLevel := t.cityLevel + hits))
        case Accepted(a) =>
          Completed(t.(table := t.table[i := WithAnswer(t.table[i], a)], updated := t.updated + 1))
  }

  /** The whole loop on the geocoder's real answers. */
  function Process(rows: seq<Row>, locate: Locate): Run {
    Tallied(rows, Outcomes(rows, locate), |rows|)
  }

  /** Every processed row is counted once: accepted or failed. */
  lemma {:induction false} EveryRowCounted(rows: seq<Row>, os: seq<Outcome>, n: nat)
    requires n <= |rows| == |os| && Tallied(rows, os, n).Completed?
    ensures var t := Tallied(rows, os, n).tally;
      t.updated + |t.failed| == n && |t.cityLevel| <= |t.failed|
    decreases n
  {
    if n > 0 {
      EveryRowCounted(rows, os, n - 1);
    }
  }

  predicate FailedRow(t: Tally, index: nat) {
    exists j :: 0 <= j < |t.failed| && t.failed[j].index == index
  }

  /** A row in `city_level` is also in `failed`. */
  lemma {:induction false} CityLevelAlsoFailed(rows: seq<Row>, os: seq<Outcome>, n: nat, k: nat)
    requires n <= |rows| == |os| && Tallied(rows, os, n).Completed?
    requires k < |Tallied(rows, os, n).tally.cityLevel|
    ensures FailedRow(Tallied(rows, os, n).tally, Tallied(rows, os, n).tally.cityLevel[k].index)
    decreases n
  {
    var t := Tallied(rows, os, n).tally;
    var t0 := Tallied(rows, os, n - 1).tally;
    if k < |t0.cityLevel| {
      CityLevelAlsoFailed(rows, os, n - 1, k);
      var j :| 0 <= j < |t0.failed| && t0.failed[j].index == t0.cityLevel[k].index;
      assert t.failed[j] == t0.failed[j];
    } else {
      assert t.failed[|t0.failed|].index == n - 1;
    }
  }

  /** The verdict on row `i` decides its final state: an accepted answer
      overwrites the four result columns, anything else leaves the row as
      it was. */
  lemma {:induction false} RowFate(rows: seq<Row>, os: seq<Outcome>, n: nat, i: nat)
    requires i < n <= |rows| == |os| && Tallied(rows, os, n).Completed?
    ensures Tallied(rows, os, n).tally.table[i] ==
      (if os[i].verdict.Accepted? then WithAnswer(rows[i], os[i].verdict.answer) else rows[i])
    decreases n
  {
    if i < n - 1 {
      RowFate(rows, os, n - 1, i);
    } else {
      UnvisitedRow(rows, os, n - 1, i);
    }
  }

  lemma {:induction false} UnvisitedRow(rows: seq<Row>, os: seq<Outcome>, n: nat, i: nat)
    requires n <= i < |rows| == |os| && Tallied(rows, os, n).Completed?
    ensures Tallied(rows, os, n).tally.table[i] == rows[i]
    decreases n
  {
    if n > 0 {
      UnvisitedRow(rows, os, n - 1, i);
    }
  }

  /** The loop stops at the first row whose verdict is a crash. */
  lemma {:induction false} CrashesAtFirstCrash(rows: seq<Row>, os: seq<Outcome>, n: nat)
    requires n <= |rows| == |os|
    ensures Tallied(rows, os, n).Crashed? <==> exists i :: 0 <= i < n && os[i].verdict.Crash?
    ensures Tallied(rows, os, n).Crashed? ==>
      var k := Tallied(rows, os, n).at;
      os[k].verdict.Crash? && forall i :: 0 <= i < k ==> !os[i].verdict.Crash?
    decreases n
  {
    if n > 0 {
      CrashesAtFirstCrash(rows, os, n - 1);
    }
  }

  /** Once the loop has crashed, later rows change nothing. */
  lemma {:induction false} CrashPersists(rows: seq<Row>, os: seq<Outcome>, m: nat, n: nat)
    requires m <= n <= |rows| == |os| && Tallied(rows, os, m).Crashed?
    ensures Tallied(rows, os, n) == Tallied(rows, os, m)
    decreases n
  {
    if n > m {
      CrashPersists(rows, os, m, n - 1);
    }
  }

  /** The suspicion test of the loop body: the verdict for one answer. */
  method JudgeRow(city: Cell, res: Option<Answer>, row: Row) returns (v: Verdict)
    requires city == CityIn(row)
    ensures v == Judge(row, res)
  {
    if !(res.Some? && res.value.lat.Some? && res.value.lat.value != 0.0
         && res.value.lng.Some? && res.value.lng.value != 0.0) {
      return NotFound;
    }
    var a := res.value;
    if city.NaN? {
      return Crash;
    }
    var suspicious := false;
    var cityLevel := false;
    if a.provider == Some("nominatim_city") || a.provider == Some("city_fallback") {
      cityLevel := true;
      suspicious := true;
    }
    if |city.s| > 3 {
      var clean := CleanCity(city.s);
      var shown := if a.display.Some? then Lower(a.display.value) else "";
      if |clean| > 3 && !Contains(shown, Lower(clean)) {
        suspicious := true;
      }
    }
    if suspicious {
      v := Rejected(cityLevel);
    } else {
      v := Accepted(a);
    }
  }

  /** The call for one row and the verdict on its answer. */
  method AskAndJudge(row: Row, locate: Locate) returns (res: Option<Answer>, v: Verdict)
    ensures Outcome(res, v) == OutcomeOf(row, locate)
  {
    var city := CityIn(row);
    res := locate(AddressIn(row), city, OblastIn(row), OrEmpty(row.name));
    v := JudgeRow(city, res, row);
  }

  /** The same for row `i` of the table, as the `i`-th of its outcomes. */
  method AskRow(rows: seq<Row>, i: nat, locate: Locate) returns (res: Option<Answer>, v: Verdict)
    requires i < |rows|
    ensures Outcomes(rows, locate)[i] == Outcome(res, v)
  {
    res, v := AskAndJudge(rows[i], locate);
    OutcomesAt(rows, locate, i);
  }

  /** The bookkeeping for one row that did not crash: accept and
      overwrite, or add to `failed` (and to `city_level` for a city-level
      provider). */
  method Record(rows: seq<Row>, ghost os: seq<Outcome>, i: nat, res: Option<Answer>, v: Verdict,
                table: seq<Row>, updated: nat, failed: seq<Failure>, cityLevel: seq<CityLevelHit>)
    returns (table': seq<Row>, updated': nat, failed': seq<Failure>, cityLevel': seq<CityLevelHit>)
    requires i < |rows| == |os| && os[i] == Outcome(res, v) && !v.Crash?
    requires Tallied(rows, os, i) == Completed(Tally(table, updated, failed, cityLevel))
    ensures Tallied(rows, os, i + 1) == Completed(Tally(table', updated', failed', cityLevel'))
  {
    table', updated', failed', cityLevel' := table, updated, failed, cityLevel;
    match v {
      case NotFound =>
        failed' := failed + [FailureOf(rows, i)];
      case Rejected(level) =>
        if level && res.Some? {
          cityLevel' := cityLevel + [HitOf(rows, i, res.value)];
        }
        failed' := failed + [FailureOf(rows, i)];
      case Accepted(a) =>
        table' := table[i := WithAnswer(table[i], a)];
        updated' := updated + 1;
    }
  }

  /** The row loop, as the script runs it. */
  method FixAllCoords(rows: seq<Row>, locate: Locate) returns (run: Run)
    ensures run == Process(rows, locate)
  {
    ghost var os := Outcomes(rows, locate);
    var table := rows;
    var updated: nat := 0;
    var failed: seq<Failure> := [];
    var cityLevel: seq<CityLevelHit> := [];
    var i := 0;
    while i < |rows|
      invariant 0 <= i <= |rows|
      invariant Tallied(rows, os, i) == Completed(Tally(table, updated, failed, cityLevel))
    {
      var res, v := AskRow(rows, i, locate);
      if v.Crash? {
        CrashPersists(rows, os, i + 1, |rows|);
        return Crashed(i);
      }
      table, updated, failed, cityLevel := Record(rows, os, i, res, v, table, updated, failed, cityLevel);
      i := i + 1;
    }
    return Completed(Tally(table, updated, failed, cityLevel));
  }
}
