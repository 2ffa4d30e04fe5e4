/** `UltimateGeocoder.geocode` and the element choice of `_overpass_search`:
    the candidate pool built from the provider answers, the choice of the
    best candidate, and the key -> result cache. The providers (Nominatim
    free text, Nominatim structured, Overpass) are oracles: total functions
    from a request to the records the service answers with, where a failed
    or refused request answers with no records. */
module Geocoder {
  import opened Text
  import opened Patterns
  import opened Scoring

  // ---------------------------------------------------------------------
  // Coordinates

  datatype Point = Point(lat: real, lng: real)

  function Abs(x: real): (r: real)
    ensures r >= 0.0 && (r == x || r == -x)
  {
    if x < 0.0 then -x else x
  }

  /** The duplicate test: both coordinates within 0.0001. */
  predicate Near(a: Point, b: Point) {
    Abs(a.lat - b.lat) < 0.0001 && Abs(a.lng - b.lng) < 0.0001
  }

  lemma NearSymmetric(a: Point, b: Point)
    ensures Near(a, b) <==> Near(b, a)
  {
    assert Abs(a.lat - b.lat) == Abs(b.lat - a.lat);
    assert Abs(a.lng - b.lng) == Abs(b.lng - a.lng);
  }

  // ---------------------------------------------------------------------
  // The earliest maximum, shared by the Overpass element choice and by the
  // final selection (a stable sort by descending score whose head is taken).

  /** Index of the first maximum of `xs`, scanning left to right and moving
      only on a strictly greater value. */
  function FirstMax(xs: seq<int>): (k: nat)
    requires |xs| > 0
    ensures k < |xs|
    ensures forall i :: 0 <= i < |xs| ==> xs[i] <= xs[k]
    ensures forall i :: 0 <= i < k ==> xs[i] < xs[k]
    decreases |xs|
  {
    if |xs| == 1 then 0
    else
      var k := FirstMax(xs[..|xs| - 1]);
      if xs[|xs| - 1] > xs[k] then |xs| - 1 else k
  }

  /** The first maximum is the only index that is a maximum with nothing
      as large before it. */
  lemma FirstMaxUnique(xs: seq<int>, k: nat)
    requires k < |xs|
    requires forall i :: 0 <= i < |xs| ==> xs[i] <= xs[k]
    requires forall i :: 0 <= i < k ==> xs[i] < xs[k]
    ensures FirstMax(xs) == k
  {
    var m := FirstMax(xs);
    assert !(m < k) by { assert xs[m] >= xs[k]; }
    assert !(k < m) by { assert xs[k] >= xs[m]; }
  }

  /** Extending the scanned prefix by one value: the index moves to the new
      position exactly when its value is strictly greater. */
  lemma FirstMaxStep(xs: seq<int>, i: nat)
    requires 0 < i < |xs|
    ensures FirstMax(xs[..i + 1]) ==
      (if xs[i] > xs[FirstMax(xs[..i])] then i else FirstMax(xs[..i]))
  {
    assert xs[..i + 1][..i] == xs[..i];
  }

  // ---------------------------------------------------------------------
  // _overpass_search: choosing among the returned elements

  /** An Overpass element: its `name` tag, its `amenity` tag ("" when
      absent), its own `lat`/`lon` and its `center`. */
  datatype Element = Element(
    name: Option<string>, amenity: string,
    position: Option<Point>, center: Option<Point>)

  function ElementName(e: Element): string {
    if e.name.Some? then e.name.value else ""
  }

  /** 50 when the searched name occurs in the element's name (ignoring
      case), plus 30 for a hospital. */
  function ElementScore(e: Element, name: string): (s: int)
    ensures s in {0, 30, 50, 80}
    ensures s >= 50 <==> Contains(Lower(ElementName(e)), Lower(name))
    ensures (s == 30 || s == 80) <==> e.amenity == "hospital"
  {
    (if Contains(Lower(ElementName(e)), Lower(name)) then 50 else 0)
    + (if e.amenity == "hospital" then 30 else 0)
  }

  function ElementScores(els: seq<Element>, name: string): (xs: seq<int>)
    ensures |xs| == |els|
    ensures forall i :: 0 <= i < |els| ==> xs[i] == ElementScore(els[i], name)
  {
    seq(|els|, i requires 0 <= i < |els| => ElementScore(els[i], name))
  }

  datatype OverpassHit = OverpassHit(at: Point, display: string, score: int)

  /** The first element of highest score. */
  function BestElement(els: seq<Element>, name: string): (b: Element)
    requires |els| > 0
    ensures b in els
    ensures forall i :: 0 <= i < |els| ==> ElementScore(els[i], name) <= ElementScore(b, name)
    ensures exists k :: (0 <= k < |els| && els[k] == b
                        && forall j :: 0 <= j < k ==> ElementScore(els[j], name) < ElementScore(b, name))
  {
    els[FirstMax(ElementScores(els, name))]
  }

  /** The element `_overpass_search` returns: the first one with the highest
      score, if that score is at least 30, placed at its own coordinates or
      else at its center, and labelled with its name or "Unknown". */
  function OverpassPick(els: seq<Element>, name: string): (r: Option<OverpassHit>)
    ensures r.Some? ==> r.value.score in {30, 50, 80}
    ensures r.Some? ==> forall i :: 0 <= i < |els| ==> ElementScore(els[i], name) <= r.value.score
    ensures r.Some? <==>
      |els| > 0 && ElementScore(BestElement(els, name), name) >= 30
      && (BestElement(els, name).position.Some? || BestElement(els, name).center.Some?)
    ensures r.Some? ==>
      var b := BestElement(els, name);
      r.value.score == ElementScore(b, name)
      && r.value.at == (if b.position.Some? then b.position.value else b.center.value)
      && r.value.display == (if b.name.Some? then b.name.value else "Unknown")
  {
    if |els| == 0 then None
    else
      var k := FirstMax(ElementScores(els, name));
      var best := els[k];
      var s := ElementScore(best, name);
      // `best` stays unset while every score is 0; otherwise `best_score`
      // is at least 30, so the one test below covers both conditions.
      if s < 30 then None
      else
        var display := if best.name.Some? then best.name.value else "Unknown";
        if best.position.Some? then Some(OverpassHit(best.position.value, display, s))
        else if best.center.Some? then Some(OverpassHit(best.center.value, display, s))
        else None
  }

  /** The selection of `_overpass_search`: the scan, then the coordinate
      and label lookup on the element it settled on. */
  method SelectElement(els: seq<Element>, name: string) returns (hit: Option<OverpassHit>)
    ensures hit == OverpassPick(els, name)
  {
    var best, bestScore := ScanElements(els, name);
    if best.Some? && bestScore >= 30 {
      var e := els[best.value];
      var display := if e.name.Some? then e.name.value else "Unknown";
      if e.position.Some? {
        hit := Some(OverpassHit(e.position.value, display, bestScore));
      } else if e.center.Some? {
        hit := Some(OverpassHit(e.center.value, display, bestScore));
      } else {
        hit := None;
      }
    } else {
      hit := None;
    }
  }

  /** The loop of `_overpass_search`: `best` moves only on a strictly
      higher score, starting from 0, so it ends on the first maximum unless
      every element scores 0. */
  method ScanElements(els: seq<Element>, name: string) returns (best: Option<nat>, bestScore: int)
    ensures best.None? ==> bestScore == 0 && forall j :: 0 <= j < |els| ==> ElementScore(els[j], name) == 0
    ensures best.Some? ==> |els| > 0 && best.value == FirstMax(ElementScores(els, name))
                           && bestScore == ElementScore(els[best.value], name) > 0
  {
    ghost var xs := ElementScores(els, name);
    best := None;
    bestScore := 0;
    var i := 0;
    while i < |els|
      invariant 0 <= i <= |els|
      invariant best.None? ==> bestScore == 0 && forall j :: 0 <= j < i ==> xs[j] == 0
      invariant best.Some? ==> 0 < i && best.value == FirstMax(xs[..i])
                               && bestScore == xs[best.value] > 0
    {
      var score := ElementScore(els[i], name);
      assert score == xs[i];
      if best.Some? { FirstMaxStep(xs, i); }
      else if i > 0 {
        FirstMaxStep(xs, i);
        assert xs[FirstMax(xs[..i])] == 0;
      }
      if score > bestScore {
        bestScore := score;
        best := Some(i);
      }
      i := i + 1;
    }
    assert xs[..|els|] == xs;
  }

  // ---------------------------------------------------------------------
  // The candidate pool

  datatype Candidate = Candidate(at: Point, display: string, provider: string, score: int)

  /** What every result is scored against: the address, the query city and
      the house number ("" when there is none). */
  datatype Target = Target(address: string, city: string, number: string)

  predicate AnyNear(pool: seq<Candidate>, p: Point) {
    exists j :: 0 <= j < |pool| && Near(pool[j].at, p)
  }

  /** One provider record offered to the pool: kept when it scores at least
      30 and lies near no candidate already there. */
  function Offer(pool: seq<Candidate>, r: SearchResult, provider: string, t: Target): seq<Candidate> {
    var s := ScoreResult(r, t.address, t.city, t.number);
    var p := Point(r.lat, r.lon);
    if s >= 30 && !AnyNear(pool, p) then pool + [Candidate(p, r.displayName, provider, s)]
    else pool
  }

  /** Every record of one provider answer offered in order. */
  function OfferAll(pool: seq<Candidate>, rs: seq<SearchResult>, provider: string, t: Target): seq<Candidate>
    decreases |rs|
  {
    if rs == [] then pool
    else Offer(OfferAll(pool, rs[..|rs| - 1], provider, t), rs[|rs| - 1], provider, t)
  }

  /** The five free-text queries, `None` where the source puts `None`. */
  function Queries(address: string, city: string, oblast: string,
                   number: string, streetName: string): (qs: seq<Option<string>>)
    ensures |qs| == 5
    ensures qs[0].Some? && qs[2].Some?
    ensures qs[1].Some? <==> number != "" && streetName != ""
    ensures qs[3].Some? <==> number != "" && streetName != ""
    ensures qs[4].Some? <==> oblast != ""
  {
    var both := number != "" && streetName != "";
    [ Some(address + ", " + city + ", България"),
      if both then Some(streetName + " " + number + ", " + city + ", България") else None,
      Some(address + ", " + city + ", " + oblast + ", България"),
      if both then Some(number + " " + streetName + ", " + city) else None,
      if oblast != "" then Some(address + ", " + city + ", " + oblast) else None ]
  }

  /** Strategy 1: the answers to the queries, in order, skipping `None`. */
  function FreeTextPool(pool: seq<Candidate>, qs: seq<Option<string>>,
                        search: string -> seq<SearchResult>, t: Target): seq<Candidate>
    decreases |qs|
  {
    if qs == [] then pool
    else
      var before := FreeTextPool(pool, qs[..|qs| - 1], search, t);
      match qs[|qs| - 1]
      case None => before
      case Some(q) => OfferAll(before, search(q), "nominatim_free", t)
  }

  /** Strategy 2: the structured search, only with a street name. */
  function StructuredPool(pool: seq<Candidate>, streetName: string, t: Target,
                          structured: (string, string, string) -> seq<SearchResult>): seq<Candidate>
  {
    if streetName != "" then OfferAll(pool, structured(streetName, t.city, t.number), "nominatim_structured", t)
    else pool
  }

  /** Strategy 3: the Overpass pick, with 20 extra points, only for a named
      hospital and a pool of fewer than two candidates. */
  function OverpassPool(pool: seq<Candidate>, name: string, city: string,
                        overpass: (string, string) -> seq<Element>): seq<Candidate>
  {
    if name != "" && |pool| < 2 then
      match OverpassPick(overpass(name, city), name)
      case None => pool
      case Some(h) => pool + [Candidate(h.at, h.display, "overpass", h.score + 20)]
    else pool
  }

  // ---------------------------------------------------------------------
  // Selection

  function Scores(pool: seq<Candidate>): (xs: seq<int>)
    ensures |xs| == |pool|
    ensures forall i :: 0 <= i < |pool| ==> xs[i] == pool[i].score
  {
    seq(|pool|, i requires 0 <= i < |pool| => pool[i].score)
  }

  /** The tuple `geocode` returns. */
  datatype GeoResult = GeoResult(
    lat: Option<real>, lng: Option<real>, provider: Option<string>,
    display: Option<string>, score: int)

  const Failure := GeoResult(None, None, None, None, 0)

  const LowConf := "_lowconf"

  /** The head of the pool sorted by descending score, its provider marked
      `_lowconf` below 50; `Failure` for an empty pool. */
  function Resolve(pool: seq<Candidate>): (r: GeoResult)
    ensures |pool| == 0 <==> r == Failure
    ensures |pool| > 0 ==> r.lat.Some? && r.provider.Some? && r.display.Some?
  {
    if |pool| == 0 then Failure
    else
      var best := pool[FirstMax(Scores(pool))];
      var provider := if best.score < 50 then best.provider + LowConf else best.provider;
      GeoResult(Some(best.at.lat), Some(best.at.lng), Some(provider), Some(best.display), best.score)
  }

  // ---------------------------------------------------------------------
  // The cache

  /** A stored answer; `score` is absent in entries written before scores
      were stored. */
  datatype CacheEntry = CacheEntry(lat: real, lng: real, provider: string, display: string, score: Option<int>)

  function CacheKey(address: string, city: string, oblast: string): string {
    address + "||" + city + "||" + oblast
  }

  /** Reading an entry: a missing score reads as 50. */
  function FromEntry(e: CacheEntry): (r: GeoResult)
    ensures r.lat == Some(e.lat) && r.lng == Some(e.lng)
    ensures r.provider == Some(e.provider) && r.display == Some(e.display)
    ensures e.score.Some? ==> r.score == e.score.value
    ensures e.score.None? ==> r.score == 50
  {
    GeoResult(Some(e.lat), Some(e.lng), Some(e.provider), Some(e.display),
              if e.score.Some? then e.score.value else 50)
  }

  function ToEntry(r: GeoResult): CacheEntry
    requires r.lat.Some? && r.lng.Some? && r.provider.Some? && r.display.Some?
  {
    CacheEntry(r.lat.value, r.lng.value, r.provider.value, r.display.value, Some(r.score))
  }

  /** What is stored is what was returned. */
  lemma EntryRoundTrip(r: GeoResult)
    requires r.lat.Some? && r.lng.Some? && r.provider.Some? && r.display.Some?
    ensures FromEntry(ToEntry(r)) == r
  {}

  // ---------------------------------------------------------------------
  // The requests a call makes

  datatype Request =
    | FreeText(query: string)
    | Structured(street: string, city: string, number: string)
    | OverpassQuery(name: string, city: string)

  function FreeTextRequests(qs: seq<Option<string>>): seq<Request>
    decreases |qs|
  {
    if qs == [] then []
    else FreeTextRequests(qs[..|qs| - 1])
         + (match qs[|qs| - 1] case None => [] case Some(q) => [FreeText(q)])
  }

  /** The number that is searched for: the hint, or the extracted token. */
  function NumberFor(address: string, numberHint: string): string {
    if numberHint != "" then numberHint
    else match ExtractStreetNumber(address)
      case None => ""
      case Some(n) => n
  }

  function StreetFor(address: string, streetHint: string): string {
    if streetHint != "" then streetHint else ExtractStreetName(address)
  }

  /** The pool after the two Nominatim strategies. */
  function NominatimPool(address: string, city: string, oblast: string,
                         number: string, streetName: string,
                         search: string -> seq<SearchResult>,
                         structured: (string, string, string) -> seq<SearchResult>): seq<Candidate>
  {
    var t := Target(address, city, number);
    StructuredPool(FreeTextPool([], Queries(address, city, oblast, number, streetName), search, t),
                   streetName, t, structured)
  }

  /** The whole pool of a call that misses the cache. */
  function FinalPool(address: string, city: string, oblast: string, name: string,
                     number: string, streetName: string,
                     search: string -> seq<SearchResult>,
                     structured: (string, string, string) -> seq<SearchResult>,
                     overpass: (string, string) -> seq<Element>): seq<Candidate>
  {
    OverpassPool(NominatimPool(address, city, oblast, number, streetName, search, structured),
                 name, city, overpass)
  }

  function PlannedRequests(address: string, city: string, oblast: string, name: string,
                           number: string, streetName: string,
                           search: string -> seq<SearchResult>,
                           structured: (string, string, string) -> seq<SearchResult>): seq<Request>
  {
    FreeTextRequests(Queries(address, city, oblast, number, streetName))
    + (if streetName != "" then [Structured(streetName, city, number)] else [])
    + (if name != "" && |NominatimPool(address, city, oblast, number, streetName, search, structured)| < 2
       then [OverpassQuery(name, city)] else [])
  }

  class UltimateGeocoder {
    var cache: map<string, CacheEntry>

    /** `stored` is the content of the cache file, or empty without one. */
    constructor(stored: map<string, CacheEntry>)
      ensures cache == stored
    {
      cache := stored;
    }

    /** `geocode(address, city, oblast, name, street_number_hint,
        street_name_hint)`; "" stands for an absent name or hint. */
    method Geocode(address: string, city: string, oblast: string, name: string,
                   numberHint: string, streetHint: string,
                   search: string -> seq<SearchResult>,
                   structured: (string, string, string) -> seq<SearchResult>,
                   overpass: (string, string) -> seq<Element>)
      returns (res: GeoResult, requests: seq<Request>)
      modifies this
      ensures var key := CacheKey(address, city, oblast);
        key in old(cache) ==> res == FromEntry(old(cache)[key]) && requests == [] && cache == old(cache)
      ensures var key := CacheKey(address, city, oblast);
        var number := NumberFor(address, numberHint);
        var street := StreetFor(address, streetHint);
        key !in old(cache) ==>
          res == Resolve(FinalPool(address, city, oblast, name, number, street, search, structured, overpass))
          && requests == PlannedRequests(address, city, oblast, name, number, street, search, structured)
          && (res == Failure ==> cache == old(cache))
          && (res != Failure ==> cache == old(cache)[key := ToEntry(res)])
    {
      var key := CacheKey(address, city, oblast);
      if key in cache {
        res := FromEntry(cache[key]);
        requests := [];
        return;
      }
      var number := NumberFor(address, numberHint);
      var street := StreetFor(address, streetHint);
      var candidates;
      candidates, requests := CollectCandidates(address, city, oblast, name, number, street,
                                                search, structured, overpass);
      res := Select(candidates);
      if |candidates| > 0 {
        cache := cache[key := ToEntry(res)];
      }
    }
  }

  /** The three strategies of `geocode`, in order. */
  method CollectCandidates(address: string, city: string, oblast: string, name: string,
                           number: string, street: string,
                           search: string -> seq<SearchResult>,
                           structured: (string, string, string) -> seq<SearchResult>,
                           overpass: (string, string) -> seq<Element>)
    returns (candidates: seq<Candidate>, requests: seq<Request>)
    ensures candidates == FinalPool(address, city, oblast, name, number, street, search, structured, overpass)
    ensures requests == PlannedRequests(address, city, oblast, name, number, street, search, structured)
  {
    var t := Target(address, city, number);
    var queries := Queries(address, city, oblast, number, street);
    candidates, requests := SearchFreeText(queries, search, t);

    // Strategy 2
    if street != "" {
      var results := structured(street, city, number);
      requests := requests + [Structured(street, city, number)];
      candidates := AddAll(candidates, results, "nominatim_structured", t);
    }
    assert candidates == NominatimPool(address, city, oblast, number, street, search, structured);

    // Strategy 3
    if name != "" && |candidates| < 2 {
      var elements := overpass(name, city);
      requests := requests + [OverpassQuery(name, city)];
      var hit := SelectElement(elements, name);
      if hit.Some? {
        candidates := candidates + [Candidate(hit.value.at, hit.value.display, "overpass", hit.value.score + 20)];
      }
    }
  }

  /** The selection step: the head of the stably sorted pool, marked
      `_lowconf` below 50. */
  method Select(candidates: seq<Candidate>) returns (res: GeoResult)
    ensures res == Resolve(candidates)
  {
    if |candidates| > 0 {
      var k := PickBest(candidates);
      var best := candidates[k];
      var provider := best.provider;
      if best.score < 50 {
        provider := provider + LowConf;
      }
      res := GeoResult(Some(best.at.lat), Some(best.at.lng), Some(provider), Some(best.display), best.score);
    } else {
      res := Failure;
    }
  }

  /** Strategy 1: each query that is not `None` is sent, and its answer
      offered to the pool. */
  method SearchFreeText(queries: seq<Option<string>>, search: string -> seq<SearchResult>, t: Target)
    returns (candidates: seq<Candidate>, requests: seq<Request>)
    ensures candidates == FreeTextPool([], queries, search, t)
    ensures requests == FreeTextRequests(queries)
  {
    candidates := [];
    requests := [];
    var i := 0;
    while i < |queries|
      invariant 0 <= i <= |queries|
      invariant candidates == FreeTextPool([], queries[..i], search, t)
      invariant requests == FreeTextRequests(queries[..i])
    {
      assert queries[..i + 1][..i] == queries[..i];
      if queries[i].Some? {
        var q := queries[i].value;
        var results := search(q);
        requests := requests + [FreeText(q)];
        candidates := AddAll(candidates, results, "nominatim_free", t);
      }
      i := i + 1;
    }
    assert queries[..|queries|] == queries;
  }

  /** Offers the records of one answer to the pool, one at a time. */
  method AddAll(pool: seq<Candidate>, rs: seq<SearchResult>, provider: string, t: Target)
    returns (out: seq<Candidate>)
    ensures out == OfferAll(pool, rs, provider, t)
  {
    out := pool;
    var j := 0;
    while j < |rs|
      invariant 0 <= j <= |rs|
      invariant out == OfferAll(pool, rs[..j], provider, t)
    {
      assert rs[..j + 1][..j] == rs[..j];
      var r := rs[j];
      var score := ScoreResult(r, t.address, t.city, t.number);
      if score >= 30 {
        var p := Point(r.lat, r.lon);
        var duplicate := IsDuplicate(out, p);
        if !duplicate {
          out := out + [Candidate(p, r.displayName, provider, score)];
        }
      }
      j := j + 1;
    }
    assert rs[..|rs|] == rs;
  }

  /** `any(near(...) for c in candidates)`. */
  method IsDuplicate(pool: seq<Candidate>, p: Point) returns (found: bool)
    ensures found <==> AnyNear(pool, p)
  {
    found := false;
    var j := 0;
    while j < |pool| && !found
      invariant 0 <= j <= |pool|
      invariant found <==> exists m :: 0 <= m < j && Near(pool[m].at, p)
    {
      found := Near(pool[j].at, p);
      j := j + 1;
    }
  }

  /** The head of the stably sorted pool: the first candidate with the
      highest score. */
  method PickBest(pool: seq<Candidate>) returns (k: nat)
    requires |pool| > 0
    ensures k == FirstMax(Scores(pool))
    ensures k < |pool|
  {
    ghost var xs := Scores(pool);
    k := 0;
    var i := 1;
    while i < |pool|
      invariant 1 <= i <= |pool|
      invariant k == FirstMax(xs[..i])
    {
      FirstMaxStep(xs, i);
      if pool[i].score > pool[k].score {
        k := i;
      }
      i := i + 1;
    }
    assert xs[..|pool|] == xs;
  }
}

/** Properties of the candidate pool, the selection and the cache. */
module GeocoderProperties {
  import opened Text
  import opened Patterns
  import opened Scoring
  import opened Geocoder

  /** No two candidates lie within 0.0001 of each other in both coordinates. */
  predicate NearFree(pool: seq<Candidate>) {
    forall i, j :: 0 <= i < j < |pool| ==> !Near(pool[i].at, pool[j].at)
  }

  predicate ScoredFrom(pool: seq<Candidate>, lo: int) {
    forall i :: 0 <= i < |pool| ==> lo <= pool[i].score <= 100
  }

  /** Offering a record keeps the pool free of near duplicates and of
      scores below 30, and only ever appends. */
  lemma OfferKeeps(pool: seq<Candidate>, r: SearchResult, provider: string, t: Target)
    requires NearFree(pool) && ScoredFrom(pool, 30)
    ensures var p := Offer(pool, r, provider, t);
      NearFree(p) && ScoredFrom(p, 30) && |pool| <= |p| <= |pool| + 1 && p[..|pool|] == pool
  {
    var p := Offer(pool, r, provider, t);
    if |p| > |pool| {
      assert !AnyNear(pool, p[|pool|].at);
      forall i, j | 0 <= i < j < |p| ensures !Near(p[i].at, p[j].at) {
        if j == |pool| {
          assert !Near(pool[i].at, p[|pool|].at);
        }
      }
    }
    assert p[..|pool|] == pool;
  }

  lemma {:induction false} OfferAllKeeps(pool: seq<Candidate>, rs: seq<SearchResult>, provider: string, t: Target)
    requires NearFree(pool) && ScoredFrom(pool, 30)
    ensures var p := OfferAll(pool, rs, provider, t);
      NearFree(p) && ScoredFrom(p, 30) && |pool| <= |p| <= |pool| + |rs| && p[..|pool|] == pool
    decreases |rs|
  {
    if rs != [] {
      var before := OfferAll(pool, rs[..|rs| - 1], provider, t);
      OfferAllKeeps(pool, rs[..|rs| - 1], provider, t);
      OfferKeeps(before, rs[|rs| - 1], provider, t);
      var p := OfferAll(pool, rs, provider, t);
      assert p[..|before|] == before;
      assert p[..|pool|] == before[..|pool|];
    }
  }

  lemma {:induction false} FreeTextPoolKeeps(pool: seq<Candidate>, qs: seq<Option<string>>,
                                             search: string -> seq<SearchResult>, t: Target)
    requires NearFree(pool) && ScoredFrom(pool, 30)
    ensures var p := FreeTextPool(pool, qs, search, t);
      NearFree(p) && ScoredFrom(p, 30)
    decreases |qs|
  {
    if qs != [] {
      var before := FreeTextPool(pool, qs[..|qs| - 1], search, t);
      FreeTextPoolKeeps(pool, qs[..|qs| - 1], search, t);
      match qs[|qs| - 1]
      case None =>
      case Some(q) => OfferAllKeeps(before, search(q), "nominatim_free", t);
    }
  }

  /** After the two Nominatim strategies every candidate scores 30 to 100
      and no two are near each other. */
  lemma NominatimPoolSound(address: string, city: string, oblast: string,
                           number: string, streetName: string,
                           search: string -> seq<SearchResult>,
                           structured: (string, string, string) -> seq<SearchResult>)
    ensures var p := NominatimPool(address, city, oblast, number, streetName, search, structured);
      NearFree(p) && ScoredFrom(p, 30)
  {
    var t := Target(address, city, number);
    var free := FreeTextPool([], Queries(address, city, oblast, number, streetName), search, t);
    FreeTextPoolKeeps([], Queries(address, city, oblast, number, streetName), search, t);
    if streetName != "" {
      OfferAllKeeps(free, structured(streetName, t.city, t.number), "nominatim_structured", t);
    }
  }

  /** The Overpass strategy adds at most one candidate, at the end, only
      for a named hospital and a Nominatim pool of fewer than two; its
      score is the element score plus 20. */
  lemma FinalPoolShape(address: string, city: string, oblast: string, name: string,
                       number: string, streetName: string,
                       search: string -> seq<SearchResult>,
                       structured: (string, string, string) -> seq<SearchResult>,
                       overpass: (string, string) -> seq<Element>)
    ensures var nom := NominatimPool(address, city, oblast, number, streetName, search, structured);
      var fin := FinalPool(address, city, oblast, name, number, streetName, search, structured, overpass);
      ScoredFrom(fin, 30)
      && (fin == nom
          || (name != "" && |nom| < 2 && |fin| == |nom| + 1 && fin[..|nom|] == nom
              && fin[|nom|].provider == "overpass" && fin[|nom|].score in {50, 70, 100}))
  {
    var nom := NominatimPool(address, city, oblast, number, streetName, search, structured);
    NominatimPoolSound(address, city, oblast, number, streetName, search, structured);
    var fin := FinalPool(address, city, oblast, name, number, streetName, search, structured, overpass);
    if fin != nom {
      assert fin[..|nom|] == nom;
    }
  }

  /** The chosen candidate has the highest score and comes first among the
      candidates with that score; its provider carries `_lowconf` exactly
      when that score is below 50. */
  lemma ResolvePicksBest(pool: seq<Candidate>)
    requires |pool| > 0
    ensures var r := Resolve(pool);
      exists k :: 0 <= k < |pool|
        && r.lat == Some(pool[k].at.lat) && r.lng == Some(pool[k].at.lng)
        && r.display == Some(pool[k].display) && r.score == pool[k].score
        && (forall i :: 0 <= i < |pool| ==> pool[i].score <= r.score)
        && (forall i :: 0 <= i < k ==> pool[i].score < r.score)
        && (r.provider == Some(pool[k].provider + LowConf) <==> r.score < 50)
        && (r.provider == Some(pool[k].provider) <==> r.score >= 50)
  {
    var k := FirstMax(Scores(pool));
    var p := pool[k].provider;
    assert p + LowConf != p by { assert |p + LowConf| > |p|; }
  }

  /** A call that finds anything answers with a score from 30 to 100. */
  lemma SuccessScoreRange(address: string, city: string, oblast: string, name: string,
                          number: string, streetName: string,
                          search: string -> seq<SearchResult>,
                          structured: (string, string, string) -> seq<SearchResult>,
                          overpass: (string, string) -> seq<Element>)
    ensures var r := Resolve(FinalPool(address, city, oblast, name, number, streetName, search, structured, overpass));
      r != Failure ==> 30 <= r.score <= 100
  {
    var fin := FinalPool(address, city, oblast, name, number, streetName, search, structured, overpass);
    FinalPoolShape(address, city, oblast, name, number, streetName, search, structured, overpass);
    if |fin| > 0 {
      var k := FirstMax(Scores(fin));
      assert Resolve(fin).score == fin[k].score;
    }
  }

  /** After a success (or a cache hit) a second call for the same address
      answers the same from the cache and sends no request. After a failure
      nothing was cached, so the second call sends its planned requests
      again; what those answer is up to the providers. */
  method RepeatedCall(g: UltimateGeocoder, address: string, city: string, oblast: string, name: string,
                      numberHint: string, streetHint: string,
                      search: string -> seq<SearchResult>,
                      structured: (string, string, string) -> seq<SearchResult>,
                      overpass: (string, string) -> seq<Element>)
    returns (first: GeoResult, second: GeoResult, secondRequests: seq<Request>, ghost between: map<string, CacheEntry>)
    modifies g
    ensures first != Failure ==> second == first && secondRequests == []
    ensures first == Failure ==>
      between == old(g.cache) && CacheKey(address, city, oblast) !in between
      && secondRequests == PlannedRequests(address, city, oblast, name, NumberFor(address, numberHint),
                                           StreetFor(address, streetHint), search, structured)
  {
    var q1;
    first, q1 := g.Geocode(address, city, oblast, name, numberHint, streetHint, search, structured, overpass);
    var key := CacheKey(address, city, oblast);
    if first != Failure && key in g.cache {
      EntryRoundTrip(first);
    }
    between := g.cache;
    second, secondRequests := g.Geocode(address, city, oblast, name, numberHint, streetHint, search, structured, overpass);
  }
}
