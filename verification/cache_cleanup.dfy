/** `clean_cache_and_rerun.py`: drop the cache entries that sit in a
    cluster of three or more identical coordinates or carry a generic
    display text, then re-geocode the table rows that used them or lack a
    result. */
module CacheCleanup {
  import opened Text
  import opened Patterns
  import opened Sheet
  import opened GeocodeCache

  /** Cluster size from which every member is removed. */
  const Threshold := 3

  /** The cache the script works on: the file, or the geocoder's in-memory
      cache when the file cannot be read (`None`). */
  function LoadedCache(file: Option<seq<Entry>>, inMemory: seq<Entry>): (c: seq<Entry>)
    ensures file.Some? ==> c == file.value
    ensures file.None? ==> c == inMemory
  {
    if file.Some? then file.value else inMemory
  }

  /** The script calls `.get` on every value; a value that is not an object
      stops it there. */
  predicate AllRecords(cache: seq<Entry>) {
    forall i :: 0 <= i < |cache| ==> cache[i].value.Record?
  }

  // ---------------------------------------------------------------------
  // Grouping

  /** The grouping loop, keeping keys only. */
  method GroupByCoord(cache: seq<Entry>) returns (groups: map<CoordKey, seq<string>>)
    requires AllRecords(cache)
    ensures groups.Keys == Groups(cache).Keys
    ensures forall c :: c in groups ==> groups[c] == KeysOf(Groups(cache)[c])
  {
    groups := map[];
    var i := 0;
    while i < |cache|
      invariant 0 <= i <= |cache|
      invariant groups.Keys == Groups(cache[..i]).Keys
      invariant forall c :: c in groups ==> groups[c] == KeysOf(Groups(cache[..i])[c])
    {
      assert cache[..i + 1][..i] == cache[..i];
      var e := cache[i];
      var v := e.value;
      if v.lat.Some? && v.lng.Some? {
        var c := (v.lat.value, v.lng.value);
        var old_ := if c in groups then groups[c] else [];
        ghost var g := Groups(cache[..i]);
        assert KeysOf((if c in g then g[c] else []) + [ItemOf(e)]) == old_ + [e.key];
        groups := groups[c := old_ + [e.key]];
      }
      i := i + 1;
    }
    assert cache[..|cache|] == cache;
  }

  // ---------------------------------------------------------------------
  // Marking

  /** Entry `i` is in a coordinate group of at least `Threshold` entries. */
  ghost predicate InLargeGroup(cache: seq<Entry>, i: nat)
    requires i < |cache|
  {
    CoordOf(cache[i].value).Some? && |ItemsAt(cache, CoordOf(cache[i].value).value)| >= Threshold
  }

  /** The generic-display test answered true; `None` is an exception,
      which is ignored. */
  predicate IsGenericAt(cache: seq<Entry>, i: nat, isGeneric: Option<string> -> Option<bool>)
    requires i < |cache| && cache[i].value.Record?
  {
    isGeneric(cache[i].value.display) == Some(true)
  }

  /** A key is removed when some entry with that key is in a large cluster
      or has a generic display. */
  ghost predicate Removed(cache: seq<Entry>, isGeneric: Option<string> -> Option<bool>, k: string)
    requires AllRecords(cache)
  {
    exists i :: 0 <= i < |cache| && cache[i].key == k
      && (InLargeGroup(cache, i) || IsGenericAt(cache, i, isGeneric))
  }

  /** The two marking loops: every key of a group of size >= 3, then every
      key whose display the generic test accepts. */
  method MarkForRemoval(cache: seq<Entry>, groups: map<CoordKey, seq<string>>,
                        isGeneric: Option<string> -> Option<bool>)
    returns (marked: set<string>)
    requires AllRecords(cache)
    requires groups.Keys == Groups(cache).Keys
    requires forall c :: c in groups ==> groups[c] == KeysOf(Groups(cache)[c])
    ensures forall k :: k in marked <==> Removed(cache, isGeneric, k)
  {
    marked := {};
    var todo := groups.Keys;
    while todo != {}
      invariant todo <= groups.Keys
      invariant forall k :: k in marked <==>
        exists c :: c in groups && c !in todo && |groups[c]| >= Threshold && k in groups[c]
      decreases todo
    {
      var c :| c in todo;
      if |groups[c]| >= Threshold {
        marked := marked + set k | k in groups[c];
      }
      todo := todo - {c};
    }
    forall k ensures k in marked <==> exists i :: 0 <= i < |cache| && cache[i].key == k && InLargeGroup(cache, i) {
      if k in marked {
        var c :| c in groups && c !in todo && |groups[c]| >= Threshold && k in groups[c];
        LargeGroupToEntry(cache, groups, k, c);
      }
      forall i | 0 <= i < |cache| && cache[i].key == k && InLargeGroup(cache, i) ensures k in marked {
        EntryToLargeGroup(cache, groups, i);
      }
    }
    var i := 0;
    while i < |cache|
      invariant 0 <= i <= |cache|
      invariant forall k :: k in marked <==>
        exists j :: 0 <= j < |cache| && cache[j].key == k
          && (InLargeGroup(cache, j) || (j < i && IsGenericAt(cache, j, isGeneric)))
    {
      if isGeneric(cache[i].value.display) == Some(true) {
        marked := marked + {cache[i].key};
      }
      i := i + 1;
    }
  }

  /** A key of a group of at least `Threshold` keys comes from an entry
      in a large cluster... */
  lemma LargeGroupToEntry(cache: seq<Entry>, groups: map<CoordKey, seq<string>>, k: string, c: CoordKey)
    requires groups.Keys == Groups(cache).Keys
    requires forall c :: c in groups ==> groups[c] == KeysOf(Groups(cache)[c])
    requires c in groups && |groups[c]| >= Threshold && k in groups[c]
    ensures exists i :: 0 <= i < |cache| && cache[i].key == k && InLargeGroup(cache, i)
  {
    GroupsAreItemsAt(cache, c);
    var items := Groups(cache)[c];
    var j := IndexOf(groups[c], k);
    var i := ItemsAtFrom(cache, c, items[j]);
    assert cache[i].key == k && InLargeGroup(cache, i);
  }

  /** ...and the key of an entry in a large cluster is in the group of its
      coordinates, which has at least `Threshold` keys. */
  lemma EntryToLargeGroup(cache: seq<Entry>, groups: map<CoordKey, seq<string>>, i: nat)
    requires groups.Keys == Groups(cache).Keys
    requires forall c :: c in groups ==> groups[c] == KeysOf(Groups(cache)[c])
    requires i < |cache| && InLargeGroup(cache, i)
    ensures var c := CoordOf(cache[i].value).value;
      c in groups && |groups[c]| >= Threshold && cache[i].key in groups[c]
  {
    var c := CoordOf(cache[i].value).value;
    GroupsAreItemsAt(cache, c);
    ItemsAtHas(cache, i);
    var items := Groups(cache)[c];
    var j :| 0 <= j < |items| && items[j] == ItemOf(cache[i]);
    assert KeysOf(items)[j] == cache[i].key;
  }

  /** With distinct keys, an entry is removed exactly when its own cluster
      has at least three members or its display is generic. */
  lemma RemovedIff(cache: seq<Entry>, isGeneric: Option<string> -> Option<bool>, i: nat)
    requires AllRecords(cache) && DistinctKeys(cache) && i < |cache|
    ensures Removed(cache, isGeneric, cache[i].key) <==>
      InLargeGroup(cache, i) || IsGenericAt(cache, i, isGeneric)
  {
    if Removed(cache, isGeneric, cache[i].key) {
      var j :| 0 <= j < |cache| && cache[j].key == cache[i].key
        && (InLargeGroup(cache, j) || IsGenericAt(cache, j, isGeneric));
      assert j == i;
    }
  }

  /** The cluster size is the number of entries with exactly the same
      coordinate text: no tolerance. */
  lemma {:induction false} ClusterSize(cache: seq<Entry>, c: CoordKey)
    ensures |ItemsAt(cache, c)| == |set i | 0 <= i < |cache| && CoordOf(cache[i].value) == Some(c)|
    decreases |cache|
  {
    if cache != [] {
      var n := |cache| - 1;
      ClusterSize(cache[..n], c);
      var before := set i | 0 <= i < n && CoordOf(cache[..n][i].value) == Some(c);
      var now := set i | 0 <= i < |cache| && CoordOf(cache[i].value) == Some(c);
      if CoordOf(cache[n].value) == Some(c) {
        assert now == before + {n};
      } else {
        assert now == before;
      }
    }
  }

  // ---------------------------------------------------------------------
  // Removal

  /** The cache without the entries whose key is in `gone`, order kept. */
  function Without(cache: seq<Entry>, gone: set<string>): (r: seq<Entry>)
    ensures |r| <= |cache|
    decreases |cache|
  {
    if cache == [] then []
    else Without(cache[..|cache| - 1], gone)
         + (if cache[|cache| - 1].key in gone then [] else [cache[|cache| - 1]])
  }

  /** `cache.pop(k, None)` for every marked key. */
  method RemoveKeys(cache: seq<Entry>, marked: set<string>) returns (cleaned: seq<Entry>)
    ensures cleaned == Without(cache, marked)
  {
    cleaned := cache;
    WithoutNothing(cache);
    var done: set<string> := {};
    var todo := marked;
    while todo != {}
      invariant todo + done == marked && todo !! done
      invariant cleaned == Without(cache, done)
      decreases todo
    {
      var k :| k in todo;
      cleaned := Pop(cleaned, k);
      WithoutTwice(cache, done, k);
      done := done + {k};
      todo := todo - {k};
    }
  }

  /** `dict.pop(k, None)`: the entry with key `k`, if any, is dropped. */
  method Pop(cache: seq<Entry>, k: string) returns (r: seq<Entry>)
    ensures r == Without(cache, {k})
  {
    r := [];
    var i := 0;
    while i < |cache|
      invariant 0 <= i <= |cache|
      invariant r == Without(cache[..i], {k})
    {
      assert cache[..i + 1][..i] == cache[..i];
      if cache[i].key != k {
        r := r + [cache[i]];
      }
      i := i + 1;
    }
    assert cache[..|cache|] == cache;
  }

  lemma WithoutSnoc(a: seq<Entry>, x: Entry, gone: set<string>)
    ensures Without(a + [x], gone) == Without(a, gone) + (if x.key in gone then [] else [x])
  {
    assert (a + [x])[..|a|] == a;
  }

  lemma {:induction false} WithoutNothing(cache: seq<Entry>)
    ensures Without(cache, {}) == cache
    decreases |cache|
  {
    if cache != [] {
      WithoutNothing(cache[..|cache| - 1]);
    }
  }

  lemma {:induction false} WithoutTwice(cache: seq<Entry>, gone: set<string>, k: string)
    ensures Without(Without(cache, gone), {k}) == Without(cache, gone + {k})
    decreases |cache|
  {
    if cache != [] {
      var n := |cache| - 1;
      var p := cache[..n];
      var x := cache[n];
      assert cache == p + [x];
      WithoutTwice(p, gone, k);
      WithoutSnoc(p, x, gone);
      WithoutSnoc(p, x, gone + {k});
      if x.key in gone {
        assert Without(cache, gone) == Without(p, gone);
        assert Without(cache, gone + {k}) == Without(p, gone + {k});
      } else {
        assert Without(cache, gone) == Without(p, gone) + [x];
        WithoutSnoc(Without(p, gone), x, {k});
      }
    }
  }

  /** After the removal no marked key is left, every unmarked entry is
      still there unchanged, and nothing else is. */
  lemma {:induction false} WithoutKeeps(cache: seq<Entry>, gone: set<string>)
    ensures forall e :: e in Without(cache, gone) <==> e in cache && e.key !in gone
    decreases |cache|
  {
    if cache != [] {
      var n := |cache| - 1;
      WithoutKeeps(cache[..n], gone);
      assert cache == cache[..n] + [cache[n]];
    }
  }

  // ---------------------------------------------------------------------
  // Rows to re-geocode

  /** A row chosen for re-geocoding, with the values passed to the
      geocoder. */
  datatype Fix = Fix(index: nat, address: string, city: Cell, oblast: Cell, name: Cell)

  /** The address, or "" for NaN. */
  function AddressText(row: Row): string {
    if row.address.NaN? then "" else row.address.s
  }

  /** The settlement, or the region when the settlement is NaN or strips
      to the empty string (`Blank`, see `Text.BlankIffStripsToEmpty`). */
  function CityCell(row: Row): Cell {
    if row.settlement.Str? && !Blank(row.settlement.s) then row.settlement else row.region
  }

  /** The cache key the row was geocoded under; a NaN city or region
      prints as `nan`. */
  function RowKey(row: Row): string {
    AddressText(row) + "||" + Fmt(CityCell(row)) + "||" + Fmt(OrEmpty(row.region))
  }

  /** A result column is missing: NaN coordinates, or a NaN or blank
      provider. */
  predicate MissingResult(row: Row) {
    row.lat.None? || row.lng.None? || row.provider.NaN? || Blank(row.provider.s)
  }

  predicate NeedsFix(row: Row, marked: set<string>) {
    RowKey(row) in marked || MissingResult(row)
  }

  function FixFor(rows: seq<Row>, i: nat): Fix
    requires i < |rows|
  {
    Fix(i, AddressText(rows[i]), CityCell(rows[i]), OrEmpty(rows[i].region), rows[i].name)
  }

  /** The rows among the first `n` that need re-geocoding, in order. */
  function Selected(rows: seq<Row>, marked: set<string>, n: nat): seq<Fix>
    requires n <= |rows|
  {
    if n == 0 then []
    else Selected(rows, marked, n - 1) + (if NeedsFix(rows[n - 1], marked) then [FixFor(rows, n - 1)] else [])
  }

  /** The selection loop over the table. */
  method RowsToFix(rows: seq<Row>, marked: set<string>) returns (fixes: seq<Fix>)
    ensures fixes == Selected(rows, marked, |rows|)
  {
    fixes := [];
    var i := 0;
    while i < |rows|
      invariant 0 <= i <= |rows|
      invariant fixes == Selected(rows, marked, i)
    {
      if NeedsFix(rows[i], marked) {
        fixes := fixes + [FixFor(rows, i)];
      }
      i := i + 1;
    }
  }

  /** Each fix is read from one of the first `n` rows, and that row needs
      re-geocoding. */
  predicate FromNeedyRows(rows: seq<Row>, marked: set<string>, fs: seq<Fix>, n: nat)
    requires n <= |rows|
  {
    forall j :: 0 <= j < |fs| ==>
      fs[j].index < n && fs[j] == FixFor(rows, fs[j].index) && NeedsFix(rows[fs[j].index], marked)
  }

  /** Fix indices strictly increase: table order, no row twice. */
  predicate InTableOrder(fs: seq<Fix>) {
    forall j, m :: 0 <= j < m < |fs| ==> fs[j].index < fs[m].index
  }

  /** Every selected fix is read from a row that needs it... */
  lemma {:induction false} SelectedSound(rows: seq<Row>, marked: set<string>, n: nat)
    requires n <= |rows|
    ensures FromNeedyRows(rows, marked, Selected(rows, marked, n), n)
    decreases n
  {
    if n > 0 {
      SelectedSound(rows, marked, n - 1);
    }
  }

  /** ...the fixes follow table order, so no row is selected twice... */
  lemma {:induction false} SelectedOrdered(rows: seq<Row>, marked: set<string>, n: nat)
    requires n <= |rows|
    ensures InTableOrder(Selected(rows, marked, n))
    decreases n
  {
    if n > 0 {
      SelectedOrdered(rows, marked, n - 1);
      SelectedSound(rows, marked, n - 1);
    }
  }

  /** ...and every row that needs it is selected. */
  lemma {:induction false} SelectedComplete(rows: seq<Row>, marked: set<string>, n: nat, i: nat)
    requires i < n <= |rows| && NeedsFix(rows[i], marked)
    ensures exists j :: 0 <= j < |Selected(rows, marked, n)| && Selected(rows, marked, n)[j].index == i
    decreases n
  {
    var fs := Selected(rows, marked, n);
    var before := Selected(rows, marked, n - 1);
    if i < n - 1 {
      SelectedComplete(rows, marked, n - 1, i);
      var j :| 0 <= j < |before| && before[j].index == i;
      assert fs[j] == before[j];
    } else {
      assert fs[|before|].index == i;
    }
  }

  // ---------------------------------------------------------------------
  // Re-geocoding

  predicate IndicesIn(fixes: seq<Fix>, n: nat) {
    forall j :: 0 <= j < |fixes| ==> fixes[j].index < n
  }

  function Ask(f: Fix, locate: Locate): Option<Answer> {
    locate(f.address, f.city, f.oblast, f.name)
  }

  /** The table after the first `n` fixes: a found answer overwrites the
      four result columns of its row, anything else leaves the row alone. */
  function Applied(rows: seq<Row>, fixes: seq<Fix>, locate: Locate, n: nat): (r: seq<Row>)
    requires n <= |fixes| && IndicesIn(fixes, |rows|)
    ensures |r| == |rows|
  {
    if n == 0 then rows
    else
      var t := Applied(rows, fixes, locate, n - 1);
      var f := fixes[n - 1];
      var res := Ask(f, locate);
      if Found(res) then t[f.index := WithAnswer(t[f.index], res.value)] else t
  }

  function CountFound(fixes: seq<Fix>, locate: Locate, n: nat): (k: nat)
    requires n <= |fixes|
    ensures k <= n
  {
    if n == 0 then 0 else CountFound(fixes, locate, n - 1) + (if Found(Ask(fixes[n - 1], locate)) then 1 else 0)
  }

  function NotFound(fixes: seq<Fix>, locate: Locate, n: nat): seq<Fix>
    requires n <= |fixes|
  {
    if n == 0 then []
    else NotFound(fixes, locate, n - 1) + (if Found(Ask(fixes[n - 1], locate)) then [] else [fixes[n - 1]])
  }

  /** The re-geocoding loop: `updated` counts the overwritten rows and
      `failed` lists the others. */
  method Regeocode(rows: seq<Row>, fixes: seq<Fix>, locate: Locate)
    returns (table: seq<Row>, updated: nat, failed: seq<Fix>)
    requires IndicesIn(fixes, |rows|)
    ensures table == Applied(rows, fixes, locate, |fixes|)
    ensures updated == CountFound(fixes, locate, |fixes|)
    ensures failed == NotFound(fixes, locate, |fixes|)
    ensures updated + |failed| == |fixes|
  {
    table := rows;
    updated := 0;
    failed := [];
    var j := 0;
    while j < |fixes|
      invariant 0 <= j <= |fixes|
      invariant table == Applied(rows, fixes, locate, j)
      invariant updated == CountFound(fixes, locate, j)
      invariant failed == NotFound(fixes, locate, j)
      invariant updated + |failed| == j
    {
      var f := fixes[j];
      var res := locate(f.address, f.city, f.oblast, f.name);
      if res.Some? && res.value.lat.Some? && res.value.lat.value != 0.0
         && res.value.lng.Some? && res.value.lng.value != 0.0 {
        table := table[f.index := WithAnswer(table[f.index], res.value)];
        updated := updated + 1;
      } else {
        failed := failed + [f];
      }
      j := j + 1;
    }
  }

  /** A row that no fix names is left exactly as it was. */
  lemma {:induction false} UntouchedRows(rows: seq<Row>, fixes: seq<Fix>, locate: Locate, n: nat, i: nat)
    requires n <= |fixes| && IndicesIn(fixes, |rows|) && i < |rows|
    requires forall j :: 0 <= j < n ==> fixes[j].index != i
    ensures Applied(rows, fixes, locate, n)[i] == rows[i]
    decreases n
  {
    if n > 0 {
      UntouchedRows(rows, fixes, locate, n - 1, i);
    }
  }

  /** A row named by exactly one of the first `n` fixes takes that fix's
      answer when the answer has a non-zero latitude and longitude, and is
      left as it was otherwise. */
  lemma {:induction false} AppliedFoundRow(rows: seq<Row>, fixes: seq<Fix>, locate: Locate, n: nat, j: nat)
    requires n <= |fixes| && IndicesIn(fixes, |rows|) && j < n
    requires forall m :: 0 <= m < n && m != j ==> fixes[m].index != fixes[j].index
    ensures var i := fixes[j].index;
      var res := Ask(fixes[j], locate);
      Applied(rows, fixes, locate, n)[i] == if Found(res) then WithAnswer(rows[i], res.value) else rows[i]
    decreases n
  {
    if n - 1 == j {
      UntouchedRows(rows, fixes, locate, n - 1, fixes[j].index);
    } else {
      AppliedFoundRow(rows, fixes, locate, n - 1, j);
    }
  }

  /** The fixes the script selects name distinct rows, so each tried row
      ends with its own answer when found and unchanged otherwise, and a
      row that needs no fix is not touched. */
  lemma SelectedRowsAnswered(rows: seq<Row>, marked: set<string>, locate: Locate)
    ensures var fs := Selected(rows, marked, |rows|);
      IndicesIn(fs, |rows|)
      && (forall j :: 0 <= j < |fs| ==>
            Applied(rows, fs, locate, |fs|)[fs[j].index] ==
              if Found(Ask(fs[j], locate)) then WithAnswer(rows[fs[j].index], Ask(fs[j], locate).value)
              else rows[fs[j].index])
      && (forall i :: 0 <= i < |rows| && !NeedsFix(rows[i], marked) ==>
            Applied(rows, fs, locate, |fs|)[i] == rows[i])
  {
    var fs := Selected(rows, marked, |rows|);
    SelectedSound(rows, marked, |rows|);
    SelectedOrdered(rows, marked, |rows|);
    forall j | 0 <= j < |fs|
      ensures Applied(rows, fs, locate, |fs|)[fs[j].index] ==
        if Found(Ask(fs[j], locate)) then WithAnswer(rows[fs[j].index], Ask(fs[j], locate).value)
        else rows[fs[j].index]
    {
      forall m | 0 <= m < |fs| && m != j ensures fs[m].index != fs[j].index {
        if m < j { assert fs[m].index < fs[j].index; } else { assert fs[j].index < fs[m].index; }
      }
      AppliedFoundRow(rows, fs, locate, |fs|, j);
    }
    forall i | 0 <= i < |rows| && !NeedsFix(rows[i], marked)
      ensures Applied(rows, fs, locate, |fs|)[i] == rows[i]
    {
      UntouchedRows(rows, fs, locate, |fs|, i);
    }
  }

  /** The name, address, settlement and region of a row are never
      changed. */
  lemma {:induction false} OnlyResultColumns(rows: seq<Row>, fixes: seq<Fix>, locate: Locate, n: nat, i: nat)
    requires n <= |fixes| && IndicesIn(fixes, |rows|) && i < |rows|
    ensures var r := Applied(rows, fixes, locate, n)[i];
      r.address == rows[i].address && r.settlement == rows[i].settlement
      && r.region == rows[i].region && r.name == rows[i].name
    decreases n
  {
    if n > 0 {
      OnlyResultColumns(rows, fixes, locate, n - 1, i);
    }
  }

  /** With nothing found the table is as it was, so not rewriting the CSV
      loses nothing. */
  lemma {:induction false} NothingFoundNothingChanged(rows: seq<Row>, fixes: seq<Fix>, locate: Locate, n: nat)
    requires n <= |fixes| && IndicesIn(fixes, |rows|)
    requires CountFound(fixes, locate, n) == 0
    ensures Applied(rows, fixes, locate, n) == rows
    decreases n
  {
    if n > 0 {
      NothingFoundNothingChanged(rows, fixes, locate, n - 1);
    }
  }

  // ---------------------------------------------------------------------
  // The whole script

  /** What the script leaves behind: the cleaned cache, the table in
      memory, whether the CSV file is rewritten with it, the removed keys,
      the rows tried and the failures. */
  datatype Outcome = Outcome(
    cache: seq<Entry>, table: seq<Row>, csvWritten: bool, removed: set<string>,
    tried: seq<Fix>, updated: nat, failed: seq<Fix>)

  method CleanAndRerun(file: Option<seq<Entry>>, inMemory: seq<Entry>,
                       isGeneric: Option<string> -> Option<bool>,
                       rows: seq<Row>, locate: Locate)
    returns (out: Outcome)
    requires AllRecords(LoadedCache(file, inMemory))
    ensures var cache := LoadedCache(file, inMemory);
      (forall k :: k in out.removed <==> Removed(cache, isGeneric, k))
      && out.cache == Without(cache, out.removed)
      && out.tried == Selected(rows, out.removed, |rows|)
      && IndicesIn(out.tried, |rows|)
      && out.updated == CountFound(out.tried, locate, |out.tried|)
      && out.failed == NotFound(out.tried, locate, |out.tried|)
      && out.updated + |out.failed| == |out.tried|
      && out.table == Applied(rows, out.tried, locate, |out.tried|)
      && (forall j :: 0 <= j < |out.tried| ==>
            out.table[out.tried[j].index] ==
              if Found(Ask(out.tried[j], locate))
              then WithAnswer(rows[out.tried[j].index], Ask(out.tried[j], locate).value)
              else rows[out.tried[j].index])
      && (forall i :: 0 <= i < |rows| && !NeedsFix(rows[i], out.removed) ==> out.table[i] == rows[i])
      && (out.csvWritten <==> out.updated > 0)
  {
    var cache := LoadedCache(file, inMemory);
    var groups := GroupByCoord(cache);
    var marked := MarkForRemoval(cache, groups, isGeneric);
    var cleaned := RemoveKeys(cache, marked);
    var fixes := RowsToFix(rows, marked);
    SelectedSound(rows, marked, |rows|);
    SelectedRowsAnswered(rows, marked, locate);
    var table, updated, failed := Regeocode(rows, fixes, locate);
    out := Outcome(cleaned, table, updated > 0, marked, fixes, updated, failed);
  }
}
