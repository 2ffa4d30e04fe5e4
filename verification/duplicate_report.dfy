/** `analyze_cache_duplicates.py`: group the cache entries by their exact
    coordinate text, keep the groups with more than one entry, order them
    by size (largest first) and report the first 30 groups with at most 20
    entries each. */
module DuplicateReport {
  import opened Patterns
  import opened GeocodeCache

  /** A coordinate group with its `(key, display_name)` items. */
  datatype Dup = Dup(coord: CoordKey, items: seq<Item>)

  const MaxGroups := 30
  const MaxItems := 20

  // ---------------------------------------------------------------------
  // Grouping

  /** The order in which coordinate pairs first appear: the key order of
      the `defaultdict` the loop fills. */
  function CoordOrder(cache: seq<Entry>): seq<CoordKey>
    decreases |cache|
  {
    if cache == [] then []
    else
      var p := CoordOrder(cache[..|cache| - 1]);
      match CoordOf(cache[|cache| - 1].value)
      case None => p
      case Some(c) => if c in p then p else p + [c]
  }

  predicate NoRepeats<T(==)>(xs: seq<T>) {
    forall i, j :: 0 <= i < j < |xs| ==> xs[i] != xs[j]
  }

  /** The key order lists every group exactly once. */
  lemma {:induction false} CoordOrderIsGroups(cache: seq<Entry>)
    ensures forall c :: c in CoordOrder(cache) <==> c in Groups(cache)
    ensures NoRepeats(CoordOrder(cache))
    decreases |cache|
  {
    if cache != [] {
      CoordOrderIsGroups(cache[..|cache| - 1]);
    }
  }

  /** The grouping loop; a value on which `.get` raises is skipped. */
  method CollectGroups(cache: seq<Entry>) returns (groups: map<CoordKey, seq<Item>>, order: seq<CoordKey>)
    ensures groups == Groups(cache) && order == CoordOrder(cache)
  {
    groups := map[];
    order := [];
    var i := 0;
    while i < |cache|
      invariant 0 <= i <= |cache|
      invariant groups == Groups(cache[..i]) && order == CoordOrder(cache[..i])
    {
      assert cache[..i + 1][..i] == cache[..i];
      var v := cache[i].value;
      if v.Record? && v.lat.Some? && v.lng.Some? {
        var c := (v.lat.value, v.lng.value);
        CoordOrderIsGroups(cache[..i]);
        if c !in groups {
          order := order + [c];
          groups := groups[c := []];
        }
        groups := groups[c := groups[c] + [(cache[i].key, v.display)]];
      }
      i := i + 1;
    }
    assert cache[..|cache|] == cache;
  }

  // ---------------------------------------------------------------------
  // The duplicate filter

  /** `[(coord, items) for coord, items in groups.items() if len(items) > 1]`. */
  function DupsIn(order: seq<CoordKey>, groups: map<CoordKey, seq<Item>>): (ds: seq<Dup>)
    requires forall c :: c in order ==> c in groups
    ensures forall j :: 0 <= j < |ds| ==>
      (ds[j].coord in order && ds[j].items == groups[ds[j].coord] && |ds[j].items| > 1)
    decreases |order|
  {
    if order == [] then []
    else
      var c := order[|order| - 1];
      var p := DupsIn(order[..|order| - 1], groups);
      assert forall c' :: c' in order ==> c' in order[..|order| - 1] || c' == c;
      p + (if |groups[c]| > 1 then [Dup(c, groups[c])] else [])
  }

  /** Every pair in the order whose group has more than one entry is
      listed. */
  lemma {:induction false} DupsInComplete(order: seq<CoordKey>, groups: map<CoordKey, seq<Item>>, c: CoordKey)
    returns (j: nat)
    requires forall c :: c in order ==> c in groups
    requires c in order && |groups[c]| > 1
    ensures j < |DupsIn(order, groups)| && DupsIn(order, groups)[j].coord == c
    decreases |order|
  {
    var n := |order| - 1;
    var p := DupsIn(order[..n], groups);
    if c == order[n] {
      j := |p|;
    } else {
      assert c in order[..n];
      j := DupsInComplete(order[..n], groups, c);
    }
  }

  predicate DistinctCoords(ds: seq<Dup>) {
    forall i, j :: 0 <= i < j < |ds| ==> ds[i].coord != ds[j].coord
  }

  /** Distinct coordinates give distinct duplicate groups. */
  lemma {:induction false} DupsInNoRepeats(order: seq<CoordKey>, groups: map<CoordKey, seq<Item>>)
    requires forall c :: c in order ==> c in groups
    requires NoRepeats(order)
    ensures DistinctCoords(DupsIn(order, groups))
    decreases |order|
  {
    if order != [] {
      var n := |order| - 1;
      DupsInNoRepeats(order[..n], groups);
      var p := DupsIn(order[..n], groups);
      var ds := DupsIn(order, groups);
      assert order[n] !in order[..n];
      forall i, j | 0 <= i < j < |ds|
        ensures ds[i].coord != ds[j].coord
      {
        if j == |p| {
          assert ds == p + [Dup(order[n], groups[order[n]])];
          assert ds[i] == p[i] && ds[i].coord in order[..n];
        } else {
          assert ds[i] == p[i] && ds[j] == p[j];
        }
      }
    }
  }

  /** The groups with more than one entry, in first-appearance order. */
  function Duplicates(cache: seq<Entry>): seq<Dup> {
    CoordOrderIsGroups(cache);
    DupsIn(CoordOrder(cache), Groups(cache))
  }

  /** The duplicate list holds exactly the groups of more than one entry
      (each once, with all its items), and every cache entry with
      coordinates shared by another entry is listed under its own pair. */
  lemma DuplicatesExactly(cache: seq<Entry>, c: CoordKey)
    ensures (exists j :: 0 <= j < |Duplicates(cache)| && Duplicates(cache)[j].coord == c)
      <==> |ItemsAt(cache, c)| > 1
    ensures forall j :: 0 <= j < |Duplicates(cache)| && Duplicates(cache)[j].coord == c ==>
      Duplicates(cache)[j].items == ItemsAt(cache, c)
  {
    var ds := Duplicates(cache);
    var g := Groups(cache);
    CoordOrderIsGroups(cache);
    GroupsAreItemsAt(cache, c);
    assert ds == DupsIn(CoordOrder(cache), g);
    if |ItemsAt(cache, c)| > 1 {
      var j := DupsInComplete(CoordOrder(cache), g, c);
    }
  }

  /** No coordinate pair is listed twice. */
  lemma DuplicatesOnce(cache: seq<Entry>)
    ensures DistinctCoords(Duplicates(cache))
  {
    CoordOrderIsGroups(cache);
    DupsInNoRepeats(CoordOrder(cache), Groups(cache));
  }

  // ---------------------------------------------------------------------
  // Ordering: `dups.sort(key=lambda x: -len(x[1]))`, a stable sort

  function Size(d: Dup): nat { |d.items| }

  predicate NonIncreasing(ds: seq<Dup>) {
    forall i, j :: 0 <= i < j < |ds| ==> Size(ds[i]) >= Size(ds[j])
  }

  /** Insert after every entry at least as large: what a stable sort on
      `-size` does with a later element. */
  function Insert(x: Dup, ds: seq<Dup>): (r: seq<Dup>)
    ensures |r| == |ds| + 1
    ensures multiset(r) == multiset(ds) + multiset{x}
    decreases |ds|
  {
    if ds == [] then [x]
    else if Size(ds[0]) >= Size(x) then
      assert ds == [ds[0]] + ds[1..];
      [ds[0]] + Insert(x, ds[1..])
    else [x] + ds
  }

  function SortBySize(ds: seq<Dup>): (r: seq<Dup>)
    ensures multiset(r) == multiset(ds)
    decreases |ds|
  {
    if ds == [] then []
    else
      assert ds == ds[..|ds| - 1] + [ds[|ds| - 1]];
      Insert(ds[|ds| - 1], SortBySize(ds[..|ds| - 1]))
  }

  /** Inserting keeps every size under a common bound. */
  lemma {:induction false} InsertBounded(x: Dup, ds: seq<Dup>, b: nat)
    requires Size(x) <= b && forall i :: 0 <= i < |ds| ==> Size(ds[i]) <= b
    ensures forall k :: 0 <= k < |Insert(x, ds)| ==> Size(Insert(x, ds)[k]) <= b
    decreases |ds|
  {
    if ds != [] && Size(ds[0]) >= Size(x) {
      InsertBounded(x, ds[1..], b);
      assert Insert(x, ds) == [ds[0]] + Insert(x, ds[1..]);
    }
  }

  lemma {:induction false} InsertKeepsOrder(x: Dup, ds: seq<Dup>)
    requires NonIncreasing(ds)
    ensures NonIncreasing(Insert(x, ds))
    decreases |ds|
  {
    if ds != [] && Size(ds[0]) >= Size(x) {
      InsertKeepsOrder(x, ds[1..]);
      InsertBounded(x, ds[1..], Size(ds[0]));
      assert Insert(x, ds) == [ds[0]] + Insert(x, ds[1..]);
    }
  }

  /** The sorted list is ordered by size, largest first. */
  lemma {:induction false} SortedBySize(ds: seq<Dup>)
    ensures NonIncreasing(SortBySize(ds))
    decreases |ds|
  {
    if ds != [] {
      SortedBySize(ds[..|ds| - 1]);
      InsertKeepsOrder(ds[|ds| - 1], SortBySize(ds[..|ds| - 1]));
    }
  }

  /** The groups of one size, in list order. */
  function OfSize(ds: seq<Dup>, n: nat): seq<Dup>
    decreases |ds|
  {
    if ds == [] then []
    else (if Size(ds[0]) == n then [ds[0]] else []) + OfSize(ds[1..], n)
  }

  lemma {:induction false} OfSizeAppend(ds: seq<Dup>, x: Dup, n: nat)
    ensures OfSize(ds + [x], n) == OfSize(ds, n) + (if Size(x) == n then [x] else [])
    decreases |ds|
  {
    if ds != [] {
      assert (ds + [x])[1..] == ds[1..] + [x];
      OfSizeAppend(ds[1..], x, n);
    }
  }

  lemma {:induction false} OfSizeNone(ds: seq<Dup>, n: nat)
    requires forall i :: 0 <= i < |ds| ==> Size(ds[i]) < n
    ensures OfSize(ds, n) == []
    decreases |ds|
  {
    if ds != [] {
      OfSizeNone(ds[1..], n);
    }
  }

  lemma {:induction false} InsertOfSize(x: Dup, ds: seq<Dup>, n: nat)
    requires NonIncreasing(ds)
    ensures OfSize(Insert(x, ds), n) == OfSize(ds, n) + (if Size(x) == n then [x] else [])
    decreases |ds|
  {
    if ds == [] {
      assert OfSize([x], n) == (if Size(x) == n then [x] else []) + OfSize([], n);
    } else if Size(ds[0]) >= Size(x) {
      assert NonIncreasing(ds[1..]);
      InsertOfSize(x, ds[1..], n);
      InsertAfterOfSize(x, ds, n);
    } else {
      InsertBeforeOfSize(x, ds, n);
    }
  }

  /** The step of `InsertOfSize` where `x` goes after the head. */
  lemma InsertAfterOfSize(x: Dup, ds: seq<Dup>, n: nat)
    requires ds != [] && Size(ds[0]) >= Size(x)
    requires OfSize(Insert(x, ds[1..]), n) == OfSize(ds[1..], n) + (if Size(x) == n then [x] else [])
    ensures OfSize(Insert(x, ds), n) == OfSize(ds, n) + (if Size(x) == n then [x] else [])
  {
    var t := Insert(x, ds[1..]);
    var h := if Size(ds[0]) == n then [ds[0]] else [];
    var e := if Size(x) == n then [x] else [];
    assert Insert(x, ds) == [ds[0]] + t;
    assert ([ds[0]] + t)[1..] == t;
    calc {
      OfSize(Insert(x, ds), n);
      h + OfSize(t, n);
      h + (OfSize(ds[1..], n) + e);
      (h + OfSize(ds[1..], n)) + e;
    }
  }

  /** The step of `InsertOfSize` where `x` goes first: every later entry
      is smaller than `x`, so none has its size. */
  lemma InsertBeforeOfSize(x: Dup, ds: seq<Dup>, n: nat)
    requires NonIncreasing(ds) && ds != [] && Size(ds[0]) < Size(x)
    ensures OfSize(Insert(x, ds), n) == OfSize(ds, n) + (if Size(x) == n then [x] else [])
  {
    assert Insert(x, ds) == [x] + ds;
    assert ([x] + ds)[1..] == ds;
    if Size(x) == n {
      forall i | 0 <= i < |ds| ensures Size(ds[i]) < n {
        if i > 0 { assert Size(ds[0]) >= Size(ds[i]); }
      }
      OfSizeNone(ds, n);
    }
  }

  /** The sort is stable: the groups of any one size keep their order. */
  lemma {:induction false} SortIsStable(ds: seq<Dup>, n: nat)
    ensures OfSize(SortBySize(ds), n) == OfSize(ds, n)
    decreases |ds|
  {
    if ds != [] {
      var p := ds[..|ds| - 1];
      var x := ds[|ds| - 1];
      assert ds == p + [x];
      assert SortBySize(ds) == Insert(x, SortBySize(p));
      SortIsStable(p, n);
      SortedBySize(p);
      InsertOfSize(x, SortBySize(p), n);
      OfSizeAppend(p, x, n);
    }
  }

  // ---------------------------------------------------------------------
  // The report

  function Min(a: nat, b: nat): nat { if a <= b then a else b }

  /** `dups[:30]`, each with `items[:20]`. */
  function Shown(ds: seq<Dup>): (r: seq<Dup>)
    ensures |r| == Min(MaxGroups, |ds|)
    ensures forall i :: 0 <= i < |r| ==>
      (r[i].coord == ds[i].coord && |r[i].items| == Min(MaxItems, |ds[i].items|)
       && r[i].items == ds[i].items[..|r[i].items|])
    ensures NonIncreasing(ds) ==> NonIncreasing(r)
  {
    seq(Min(MaxGroups, |ds|), i requires 0 <= i < Min(MaxGroups, |ds|) =>
      Dup(ds[i].coord, ds[i].items[..Min(MaxItems, |ds[i].items|)]))
  }

  /** The whole script: the entry count, the number of duplicate groups
      and the groups printed. */
  method AnalyzeDuplicates(cache: seq<Entry>) returns (total: nat, dupCount: nat, shown: seq<Dup>)
    ensures total == |cache|
    ensures dupCount == |Duplicates(cache)|
    ensures shown == Shown(SortBySize(Duplicates(cache)))
    ensures |shown| <= MaxGroups && NonIncreasing(shown)
  {
    var groups, order := CollectGroups(cache);
    CoordOrderIsGroups(cache);
    var dups := DupsIn(order, groups);
    SortedBySize(dups);
    var sorted := SortBySize(dups);
    total := |cache|;
    dupCount := |dups|;
    shown := Shown(sorted);
  }
}
