/** The JSON cache file read by the cache-hygiene scripts: an object whose
    members, in file order, map a key `addr||city||oblast` to a record with
    `lat`, `lng` and `display_name`. Coordinates are kept as the text
    `str()` gives for them, which is what the scripts compare. */
module GeocodeCache {
  import opened Patterns

  /** A member's value: an object (a missing member or JSON null reads as
      `None`), or any other JSON value, on which `.get` raises. */
  datatype CacheValue =
    | Record(lat: Option<string>, lng: Option<string>, display: Option<string>)
    | Opaque

  datatype Entry = Entry(key: string, value: CacheValue)

  /** The pair `(str(lat), str(lng))`. */
  type CoordKey = (string, string)

  /** A key and its display text, as the duplicate report lists them. */
  type Item = (string, Option<string>)

  predicate DistinctKeys(cache: seq<Entry>) {
    forall i, j :: 0 <= i < j < |cache| ==> cache[i].key != cache[j].key
  }

  /** The coordinate pair an entry is grouped under; none without both
      coordinates. */
  function CoordOf(v: CacheValue): (c: Option<CoordKey>)
    ensures c.Some? <==> v.Record? && v.lat.Some? && v.lng.Some?
  {
    if v.Record? && v.lat.Some? && v.lng.Some? then Some((v.lat.value, v.lng.value)) else None
  }

  function ItemOf(e: Entry): Item
    requires e.value.Record?
  {
    (e.key, e.value.display)
  }

  /** The grouping loop: each entry with both coordinates is appended to
      the group of its exact coordinate text, in file order. */
  function Groups(cache: seq<Entry>): map<CoordKey, seq<Item>>
    decreases |cache|
  {
    if cache == [] then map[]
    else
      var g := Groups(cache[..|cache| - 1]);
      var e := cache[|cache| - 1];
      match CoordOf(e.value)
      case None => g
      case Some(c) => g[c := (if c in g then g[c] else []) + [ItemOf(e)]]
  }

  /** Reference definition of one group: the items of the entries with
      exactly those coordinates, in file order. */
  function ItemsAt(cache: seq<Entry>, c: CoordKey): seq<Item>
    decreases |cache|
  {
    if cache == [] then []
    else
      var e := cache[|cache| - 1];
      ItemsAt(cache[..|cache| - 1], c) + (if CoordOf(e.value) == Some(c) then [ItemOf(e)] else [])
  }

  function KeysOf(items: seq<Item>): (ks: seq<string>)
    ensures |ks| == |items|
    ensures forall j :: 0 <= j < |items| ==> ks[j] == items[j].0
  {
    seq(|items|, j requires 0 <= j < |items| => items[j].0)
  }

  /** The groups are exactly the non-empty `ItemsAt` sequences: a pair of
      coordinates has a group iff some entry has those coordinates, and the
      group lists those entries in order. */
  lemma {:induction false} GroupsAreItemsAt(cache: seq<Entry>, c: CoordKey)
    ensures c in Groups(cache) <==> |ItemsAt(cache, c)| > 0
    ensures c in Groups(cache) ==> Groups(cache)[c] == ItemsAt(cache, c)
    decreases |cache|
  {
    if cache != [] {
      GroupsAreItemsAt(cache[..|cache| - 1], c);
    }
  }

  /** An entry lands in the group of its coordinates... */
  lemma {:induction false} ItemsAtHas(cache: seq<Entry>, i: nat)
    requires i < |cache| && CoordOf(cache[i].value).Some?
    ensures ItemOf(cache[i]) in ItemsAt(cache, CoordOf(cache[i].value).value)
    decreases |cache|
  {
    if i < |cache| - 1 {
      ItemsAtHas(cache[..|cache| - 1], i);
    }
  }

  /** ...and every item of a group comes from an entry with exactly those
      coordinates. */
  lemma {:induction false} ItemsAtFrom(cache: seq<Entry>, c: CoordKey, x: Item) returns (i: nat)
    requires x in ItemsAt(cache, c)
    ensures i < |cache| && CoordOf(cache[i].value) == Some(c) && ItemOf(cache[i]) == x
    decreases |cache|
  {
    var n := |cache| - 1;
    if x in ItemsAt(cache[..n], c) {
      i := ItemsAtFrom(cache[..n], c, x);
      assert cache[i] == cache[..n][i];
    } else {
      i := n;
    }
  }

  /** The position of a key in a list of keys. */
  lemma IndexOf(ks: seq<string>, k: string) returns (j: nat)
    requires k in ks
    ensures j < |ks| && ks[j] == k
  {
    j :| j < |ks| && ks[j] == k;
  }

  /** With distinct keys, an entry's key is in the group of its own
      coordinates and in no other group. */
  lemma ExactlyOneGroup(cache: seq<Entry>, i: nat, c: CoordKey)
    requires DistinctKeys(cache) && i < |cache| && CoordOf(cache[i].value).Some?
    requires c in Groups(cache)
    ensures cache[i].key in KeysOf(Groups(cache)[c]) <==> CoordOf(cache[i].value) == Some(c)
  {
    var own := CoordOf(cache[i].value).value;
    GroupsAreItemsAt(cache, c);
    if c == own {
      ItemsAtHas(cache, i);
      var items := Groups(cache)[c];
      var j :| 0 <= j < |items| && items[j] == ItemOf(cache[i]);
      assert KeysOf(items)[j] == cache[i].key;
    } else {
      var items := Groups(cache)[c];
      forall j | 0 <= j < |items| ensures items[j].0 != cache[i].key {
        var m := ItemsAtFrom(cache, c, items[j]);
        assert m != i;
      }
    }
  }

  /** Entries without both coordinates are in no group. */
  lemma UngroupedWithoutCoords(cache: seq<Entry>, i: nat, c: CoordKey)
    requires DistinctKeys(cache) && i < |cache| && CoordOf(cache[i].value).None?
    requires c in Groups(cache)
    ensures cache[i].key !in KeysOf(Groups(cache)[c])
  {
    GroupsAreItemsAt(cache, c);
    var items := Groups(cache)[c];
    forall j | 0 <= j < |items| ensures items[j].0 != cache[i].key {
      var m := ItemsAtFrom(cache, c, items[j]);
      assert m != i;
    }
  }
}
