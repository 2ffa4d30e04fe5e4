/** The aggressive second pass over the hospitals still without
    coordinates: each row's address is cleaned, a list of query variants
    is built and deduplicated, and the variants are tried in order against
    free-text search, Overpass and Google until one gives a hit. */
module RefineMissing {
  import opened Text
  import opened Patterns
  import opened Sheet

  // =====================================================================
  // normalize_addr

  /** The markers deleted first, in this order. */
  const Markers: seq<(string, string)> := [
    ("к.к.", ""), ("к.к", ""), ("кв.", ""), ("ж.к.", ""), ("ж.к", "")]

  lemma MarkersWellFormed()
    ensures forall j :: 0 <= j < |Markers| ==> |Markers[j].0| > 0 && '№' !in Markers[j].1
  {}

  /** `normalize_addr`: NaN becomes the empty string; otherwise the markers
      and `№` go, each double space becomes one space in a single pass,
      and the ends are trimmed. */
  function NormalizeAddr(a: Cell): (r: string)
    ensures a.NaN? ==> r == ""
    ensures Trimmed(r) && '№' !in r
  {
    if a.NaN? then ""
    else
      MarkersWellFormed();
      var m := ReplaceEach(a.s, Markers);
      var n := Replace(m, "№", "");
      ReplaceCharRemoves(m, '№');
      ReplaceChars(n, "  ", " ", '№');
      var d := Replace(n, "  ", " ");
      StripKeepsOut(d, '№');
      StripTrimmed(Strip(d));
      StripIdempotent(d);
      Strip(d)
  }

  lemma StripIdempotent(s: string)
    ensures Trimmed(Strip(s))
  {
    StripIsInfix(s);
    var r := Strip(s);
    if |r| > 0 {
      assert LeadingWs(r) == 0 && TrailingWs(r) == 0;
    }
  }

  /** The double-space pass is not a collapse: three spaces become two. */
  lemma DoubleSpaceSurvives()
    ensures NormalizeAddr(Str("а   б")) == "а  б"
  {
    var s := "а   б";
    MarkersWellFormed();
    MarkersAbsent(s);
    MissingCharNotContained(s, "№", 0);
    ReplaceAbsent(s, "№", "");
    ThreeSpacesToTwo();
    TwoSpacesTrimmed();
  }

  lemma TwoSpacesTrimmed()
    ensures Strip("а  б") == "а  б"
  {
    assert Trimmed("а  б");
    StripTrimmed("а  б");
  }

  lemma ThreeSpacesToTwo()
    ensures Replace("а   б", "  ", " ") == "а  б"
  {
    var t := " б";
    assert t[..2] != "  " by { assert t[..2][1] == 'б'; }
    assert Replace(t, "  ", " ") == " " + Replace("б", "  ", " ");
    var u := "   б";
    assert u[..2] == "  ";
    assert u[2..] == t;
    var s := "а   б";
    assert s[..2] != "  " by { assert s[..2][0] == 'а'; }
    assert s[1..] == u;
  }

  /** An address made of one marker followed by text without `к` and `.`
      loses exactly that marker: `ж.к. Люлин 5` becomes `Люлин 5`. */
  lemma LeadingMarkerRemoved(j: nat, n: string)
    requires j < |Markers| && 'к' !in n && '.' !in n
    ensures NormalizeAddr(Str(Markers[j].0 + n)) == Strip(Replace(Replace(n, "№", ""), "  ", " "))
  {
    var p := Markers[j].0;
    MarkersWellFormed();
    forall k | 0 <= k < j ensures !Contains(p, Markers[k].0) {
      if j == 3 && k == 1 {
        var t := Markers[k].0;
        assert p[..3] != t by { assert p[0] == 'ж'; }
        assert p[1..][..3] != t by { assert p[1] == '.'; }
        assert p[1..][1..] == p[2..];
        ShortNotContained(p[2..], t);
      } else if j == 3 && k == 2 {
        MissingCharNotContained(p, Markers[k].0, 1);
      } else {
        ShortNotContained(p, Markers[k].0);
      }
    }
    ReplaceEachLeading(p, n, Markers, j);
  }

  /** A text without `к` and `ж` holds none of the markers. */
  lemma {:induction false} MarkersAbsentFrom(s: string, table: seq<(string, string)>)
    requires forall j :: 0 <= j < |table| ==> |table[j].0| > 0 && table[j].0[0] in {'к', 'ж'}
    requires 'к' !in s && 'ж' !in s
    ensures ReplaceEach(s, table) == s
    decreases |table|
  {
    if table != [] {
      MissingCharNotContained(s, table[0].0, 0);
      ReplaceAbsent(s, table[0].0, table[0].1);
      MarkersAbsentFrom(s, table[1..]);
    }
  }

  lemma MarkersAbsent(s: string)
    requires 'к' !in s && 'ж' !in s
    ensures ReplaceEach(s, Markers) == s
  {
    MarkersAbsentFrom(s, Markers);
  }

  // =====================================================================
  // The query variants

  /** The settlement, or the region when the settlement is NaN or blank. */
  function CityOf(settlement: Cell, region: Cell): (c: Cell)
    ensures settlement.Str? && !Blank(settlement.s) ==> c == settlement
    ensures settlement.NaN? || Blank(settlement.s) ==> c == region
  {
    if settlement.Str? && !Blank(settlement.s) then settlement else region
  }

  /** The Albena test: `албен` in the lowered address or `албена` in the
      lowered city text. */
  predicate MentionsAlbena(addr: string, city: Cell) {
    Contains(Lower(addr), "албен") || Contains(Lower(Fmt(city)), "албена")
  }

  /** The boulevard test, `'бул' in a or 'бул.' in a` on the lowered
      address. */
  predicate MentionsBoulevard(addr: string) {
    Contains(Lower(addr), "бул") || Contains(Lower(addr), "бул.")
  }

  /** The second half of the boulevard test adds nothing: `бул.` holds
      `бул`. */
  lemma BoulevardTestIsPrefix(addr: string)
    ensures MentionsBoulevard(addr) <==> Contains(Lower(addr), "бул")
  {
    if Contains(Lower(addr), "бул.") {
      assert "бул."[0..3] == "бул";
      ContainsAt("бул.", "бул", 0);
      ContainsTrans(Lower(addr), "бул.", "бул");
    }
  }

  function BaseVariants(name: Cell, addr: string, city: Cell): seq<string> {
    [Fmt(name) + ", " + addr + ", " + Fmt(city),
     Fmt(name) + ", " + Fmt(city),
     addr + ", " + Fmt(city),
     addr,
     Fmt(name) + " " + addr + " " + Fmt(city)]
  }

  function AlbenaVariants(name: Cell): seq<string> {
    [Fmt(name) + ", Албена, Балчик", "МЦ Медика Албена, Албена, Балчик", "МЦ Медика, Албена"]
  }

  function BoulevardVariants(addr: string): seq<string> {
    [Replace(Replace(addr, "бул.", "бул"), "бул", "бул."),
     Replace(addr, "бул.", ""),
     Replace(addr, "Бул.", "")]
  }

  /** The variant list before deduplication: the five base variants, then
      the three Albena variants exactly when the Albena test holds, then
      the three boulevard variants exactly when the boulevard test
      holds. */
  function BuildVariants(name: Cell, addr: string, city: Cell): (r: seq<string>)
    ensures |r| == 5 + (if MentionsAlbena(addr, city) then 3 else 0)
                     + (if MentionsBoulevard(addr) then 3 else 0)
    ensures r[..5] == BaseVariants(name, addr, city)
    ensures MentionsAlbena(addr, city) ==> r[5..8] == AlbenaVariants(name)
    ensures MentionsBoulevard(addr) ==> r[|r| - 3..] == BoulevardVariants(addr)
  {
    var a := if MentionsAlbena(addr, city) then AlbenaVariants(name) else [];
    var b := if MentionsBoulevard(addr) then BoulevardVariants(addr) else [];
    BaseVariants(name, addr, city) + a + b
  }

  // =====================================================================
  // Deduplication

  /** `re.sub(r'\s+', ' ', v).strip(', ').strip()`: the whitespace-collapsed
      variant with commas and spaces cut from both ends; the final
      `strip()` finds nothing left to cut. Empty exactly when the collapsed
      variant is made of commas and spaces only. */
  function Clean(v: string): (r: string)
    ensures NoDoubleWs(r)
    ensures forall i :: 0 <= i < |r| && IsSpace(r[i]) ==> r[i] == ' '
    ensures r != [] ==> r[0] != ',' && !IsSpace(r[0]) && r[|r| - 1] != ',' && !IsSpace(r[|r| - 1])
    ensures r == StripChars(CollapseWs(v), {',', ' '})
    ensures r == [] <==> forall i :: 0 <= i < |CollapseWs(v)| ==> CollapseWs(v)[i] in {',', ' '}
    ensures exists a :: CutFrom(CollapseWs(v), r, {',', ' '}, a)
  {
    var c := CollapseWs(v);
    var t := StripChars(c, {',', ' '});
    CollapsedPiece(c);
    StripCharsPiece(c, {',', ' '});
    StripTrimmed(t);
    t
  }

  /** Stripping commas and spaces from collapsed text leaves trimmed text
      with single spaces whose ends are neither commas nor whitespace, and
      only spaces for whitespace; it leaves nothing exactly when the text is
      all commas and spaces. */
  lemma CollapsedPiece(c: string)
    requires NoDoubleWs(c) && forall i :: 0 <= i < |c| && IsSpace(c[i]) ==> c[i] == ' '
    ensures var t := StripChars(c, {',', ' '});
      NoDoubleWs(t) && Trimmed(t)
      && (forall i :: 0 <= i < |t| && IsSpace(t[i]) ==> t[i] == ' ')
      && (t != [] ==> t[0] != ',' && !IsSpace(t[0]) && t[|t| - 1] != ',' && !IsSpace(t[|t| - 1]))
      && (t == [] <==> forall i :: 0 <= i < |c| ==> c[i] in {',', ' '})
  {
    var t := StripChars(c, {',', ' '});
    var a := StripCharsInfix(c, {',', ' '});
    NoDoubleWsPrefix(c[a..], |t|);
    assert c[a..][..|t|] == t;
    forall i | 0 <= i < |t| ensures t[i] == c[a + i] {}
    if t != [] {
      assert t[0] == c[a] && t[|t| - 1] == c[a + |t| - 1];
    }
  }

  /** `r` is the piece of `s` starting at `a`, and everything around it is
      in `cs`. */
  predicate CutFrom(s: string, r: string, cs: set<char>, a: nat) {
    a + |r| <= |s| && r == s[a..a + |r|]
    && (forall i :: 0 <= i < a ==> s[i] in cs)
    && (forall i :: a + |r| <= i < |s| ==> s[i] in cs)
  }

  /** Stripping only cuts characters of `cs` from the two ends. */
  lemma StripCharsPiece(s: string, cs: set<char>)
    ensures exists a :: CutFrom(s, StripChars(s, cs), cs, a)
  {
    var a := StripCharsInfix(s, cs);
    assert CutFrom(s, StripChars(s, cs), cs, a);
  }

  /** What `str.strip(chars)` keeps is a piece of its input, and what it
      cuts from either end is made of `chars`. */
  lemma {:induction false} StripCharsInfix(s: string, cs: set<char>) returns (a: nat)
    ensures a + |StripChars(s, cs)| <= |s| && StripChars(s, cs) == s[a..a + |StripChars(s, cs)|]
    ensures forall i :: 0 <= i < a ==> s[i] in cs
    ensures forall i :: a + |StripChars(s, cs)| <= i < |s| ==> s[i] in cs
    ensures StripChars(s, cs) == [] <==> forall i :: 0 <= i < |s| ==> s[i] in cs
    decreases |s|
  {
    if |s| > 0 && s[0] in cs {
      var b := StripCharsInfix(s[1..], cs);
      a := b + 1;
      assert s[1..][b..b + |StripChars(s[1..], cs)|] == s[a..a + |StripChars(s[1..], cs)|];
      forall i | 1 <= i < |s| ensures s[i] == s[1..][i - 1] {}
    } else if |s| > 0 && s[|s| - 1] in cs {
      a := StripCharsInfix(s[..|s| - 1], cs);
      assert s[..|s| - 1][a..a + |StripChars(s[..|s| - 1], cs)|] == s[a..a + |StripChars(s[..|s| - 1], cs)|];
      forall i | 0 <= i < |s| - 1 ensures s[i] == s[..|s| - 1][i] {}
    } else {
      a := 0;
      assert s == [] || s[0] !in cs;
    }
  }

  /** Every variant, cleaned. */
  function CleanAll(vs: seq<string>): (cs: seq<string>)
    ensures |cs| == |vs| && forall j :: 0 <= j < |vs| ==> cs[j] == Clean(vs[j])
  {
    seq(|vs|, j requires 0 <= j < |vs| => Clean(vs[j]))
  }

  /** The deduplicated list of cleaned variants: the non-empty entries,
      each at its first occurrence. Its entries are non-empty, distinct
      and taken from `cs`, and every non-empty entry of `cs` is among
      them. */
  function Unique(cs: seq<string>): (out: seq<string>)
    ensures forall k :: 0 <= k < |out| ==> out[k] != "" && out[k] in cs
    ensures forall a, b :: 0 <= a < b < |out| ==> out[a] != out[b]
    ensures forall j :: 0 <= j < |cs| && cs[j] != "" ==> cs[j] in out
    decreases |cs|
  {
    if cs == [] then []
    else
      var p := cs[..|cs| - 1];
      var d := Unique(p);
      var v := cs[|cs| - 1];
      assert forall j :: 0 <= j < |p| ==> cs[j] == p[j];
      if v != "" && v !in d then d + [v] else d
  }

  /** Position of the first occurrence of `x`. */
  function IndexOf(cs: seq<string>, x: string): (k: nat)
    requires x in cs
    ensures k < |cs| && cs[k] == x && forall j :: 0 <= j < k ==> cs[j] != x
  {
    if cs[0] == x then 0 else 1 + IndexOf(cs[1..], x)
  }

  lemma IndexOfPrefix(cs: seq<string>, c: string, x: string)
    requires x in cs
    ensures x in cs + [c] && IndexOf(cs + [c], x) == IndexOf(cs, x)
  {
    var k := IndexOf(cs, x);
    assert (cs + [c])[k] == x;
    assert forall j :: 0 <= j < k ==> (cs + [c])[j] == cs[j];
  }

  /** First-occurrence order: the entries are listed in the order in
      which `cs` first shows them. */
  lemma {:induction false} UniqueOrder(cs: seq<string>)
    ensures var out := Unique(cs);
      forall a, b :: 0 <= a < b < |out| ==> IndexOf(cs, out[a]) < IndexOf(cs, out[b])
    decreases |cs|
  {
    if cs != [] {
      var p := cs[..|cs| - 1];
      var v := cs[|cs| - 1];
      assert cs == p + [v];
      UniqueOrder(p);
      var d := Unique(p);
      forall x | x in d ensures IndexOf(cs, x) == IndexOf(p, x) {
        IndexOfPrefix(p, v, x);
      }
      if v != "" && v !in d {
        UniqueAppend(p, v);
      }
    }
  }

  /** The step of `UniqueOrder` that appends a new entry: it was not in
      the prefix, so its first occurrence is the last position. */
  lemma UniqueAppend(p: seq<string>, v: string)
    requires v != "" && v !in Unique(p)
    requires var d := Unique(p);
      forall a, b :: 0 <= a < b < |d| ==> IndexOf(p, d[a]) < IndexOf(p, d[b])
    requires forall x | x in Unique(p) :: IndexOf(p + [v], x) == IndexOf(p, x)
    ensures var out := Unique(p) + [v];
      forall a, b :: 0 <= a < b < |out| ==> IndexOf(p + [v], out[a]) < IndexOf(p + [v], out[b])
  {
    var d := Unique(p);
    var cs := p + [v];
    assert v !in p;
    assert IndexOf(cs, v) == |p|;
    var out := d + [v];
    forall a, b | 0 <= a < b < |out|
      ensures IndexOf(cs, out[a]) < IndexOf(cs, out[b])
    {
      assert out[a] == d[a];
      if b < |d| { assert out[b] == d[b]; }
    }
  }

  /** The loop of the source with its `tried` set and `new_vars` list. */
  method Dedup(variants: seq<string>) returns (newVars: seq<string>)
    ensures newVars == Unique(CleanAll(variants))
  {
    var tried: set<string> := {};
    newVars := [];
    var i := 0;
    while i < |variants|
      invariant 0 <= i <= |variants|
      invariant newVars == Unique(CleanAll(variants)[..i])
      invariant forall x :: x in tried <==> x in newVars
    {
      var vv := Clean(variants[i]);
      assert CleanAll(variants)[..i + 1][..i] == CleanAll(variants)[..i];
      if vv != "" && vv !in tried {
        newVars := newVars + [vv];
        tried := tried + {vv};
      }
      i := i + 1;
    }
    assert CleanAll(variants)[..|variants|] == CleanAll(variants);
  }

  // =====================================================================
  // The search

  /** A free-text candidate: latitude and longitude as `float()` parses
      them (`None` where it raises), and the display name. */
  datatype FreeCandidate = FreeCandidate(lat: Option<real>, lon: Option<real>, display: string)

  /** What the Overpass and Google lookups return. */
  datatype Lookup = Lookup(lat: Option<real>, lon: Option<real>, display: Option<string>)

  datatype Provider = FreeText | Overpass | Google

  /** The `found` tuple: provider, coordinates, display name, variant. */
  datatype Hit = Hit(provider: Provider, lat: real, lon: real, display: Option<string>, query: string)

  /** The three providers and the Google key from the environment. */
  datatype Oracles = Oracles(
    freeText: (string, Cell, Cell) -> seq<FreeCandidate>,
    overpass: (Cell, Cell, Cell) -> Lookup,
    google: (Cell, Cell, Cell, Cell, string) -> Lookup,
    googleKey: Option<string>)

  /** The inputs of one row: name, cleaned address, city and region. */
  datatype Query = Query(name: Cell, addr: string, city: Cell, oblast: Cell)

  predicate Parses(c: FreeCandidate) {
    c.lat.Some? && c.lon.Some?
  }

  /** `lat and lon`: both present and non-zero. */
  predicate Located(l: Lookup) {
    l.lat.Some? && l.lat.value != 0.0 && l.lon.Some? && l.lon.value != 0.0
  }

  predicate HasKey(o: Oracles) {
    o.googleKey.Some? && o.googleKey.value != ""
  }

  function ParsedAt(cs: seq<FreeCandidate>): nat -> bool {
    (j: nat) => j < |cs| && Parses(cs[j])
  }

  /** The first candidate whose coordinates parse. */
  function FirstParsed(cs: seq<FreeCandidate>): (k: Option<nat>)
    ensures k.Some? ==> k.value < |cs| && Parses(cs[k.value])
  {
    FirstWhere(ParsedAt(cs), 0, |cs|)
  }

  /** Unparseable candidates are skipped, and no parseable one is skipped. */
  lemma FirstParsedSkips(cs: seq<FreeCandidate>, j: nat)
    requires j < |cs|
    requires FirstParsed(cs).None? || j < FirstParsed(cs).value
    ensures !Parses(cs[j])
  {
    FirstWhereMinimal(ParsedAt(cs), 0, |cs|, j);
  }

  /** `addr or name` for the Google lookup. */
  function GoogleText(q: Query): Cell {
    if q.addr != "" then Str(q.addr) else q.name
  }

  /** One pass of the variant loop: free text first, then Overpass when
      the name is truthy, then Google when the key is set. */
  function TryVariant(v: string, q: Query, o: Oracles): (h: Option<Hit>)
    ensures h.Some? ==> h.value.query == v
    ensures h.Some? && h.value.provider != FreeText ==> FirstParsed(o.freeText(v, q.city, q.oblast)).None?
    ensures h.Some? && h.value.provider == Overpass ==> Truthy(q.name)
    ensures h.Some? && h.value.provider == Google ==>
      HasKey(o) && !(Truthy(q.name) && Located(o.overpass(q.name, q.city, q.oblast)))
    ensures var cs := o.freeText(v, q.city, q.oblast);
      FirstParsed(cs).Some? ==>
        var c := cs[FirstParsed(cs).value];
        h == Some(Hit(FreeText, c.lat.value, c.lon.value, Some(c.display), v))
    ensures var ov := o.overpass(q.name, q.city, q.oblast);
      FirstParsed(o.freeText(v, q.city, q.oblast)).None? && Truthy(q.name) && Located(ov) ==>
        h == Some(Hit(Overpass, ov.lat.value, ov.lon.value, ov.display, v))
    ensures HasKey(o) ==>
      var g := o.google(GoogleText(q), q.city, q.oblast, q.name, o.googleKey.value);
      FirstParsed(o.freeText(v, q.city, q.oblast)).None?
      && !(Truthy(q.name) && Located(o.overpass(q.name, q.city, q.oblast))) && Located(g) ==>
        h == Some(Hit(Google, g.lat.value, g.lon.value, g.display, v))
    ensures h.None? <==>
      FirstParsed(o.freeText(v, q.city, q.oblast)).None?
      && !(Truthy(q.name) && Located(o.overpass(q.name, q.city, q.oblast)))
      && !(HasKey(o) && Located(o.google(GoogleText(q), q.city, q.oblast, q.name, o.googleKey.value)))
  {
    var cs := o.freeText(v, q.city, q.oblast);
    match FirstParsed(cs)
    case Some(k) => Some(Hit(FreeText, cs[k].lat.value, cs[k].lon.value, Some(cs[k].display), v))
    case None =>
      var ov := o.overpass(q.name, q.city, q.oblast);
      if Truthy(q.name) && Located(ov) then Some(Hit(Overpass, ov.lat.value, ov.lon.value, ov.display, v))
      else if HasKey(o) then
        var g := o.google(GoogleText(q), q.city, q.oblast, q.name, o.googleKey.value);
        if Located(g) then Some(Hit(Google, g.lat.value, g.lon.value, g.display, v)) else None
      else None
  }

  /** The variants from `i` on, stopping at the first hit. */
  function FirstHitFrom(vs: seq<string>, i: nat, q: Query, o: Oracles): Option<Hit>
    requires i <= |vs|
    decreases |vs| - i
  {
    if i == |vs| then None
    else match TryVariant(vs[i], q, o)
      case Some(h) => Some(h)
      case None => FirstHitFrom(vs, i + 1, q, o)
  }

  /** The hit recorded is the one of the first variant that gives one. */
  lemma {:induction false} FirstHitIs(vs: seq<string>, i: nat, k: nat, q: Query, o: Oracles)
    requires i <= k < |vs| && TryVariant(vs[k], q, o).Some?
    requires forall j :: i <= j < k ==> TryVariant(vs[j], q, o).None?
    ensures FirstHitFrom(vs, i, q, o) == TryVariant(vs[k], q, o)
    decreases k - i
  {
    if i < k { FirstHitIs(vs, i + 1, k, q, o); }
  }

  /** Nothing is recorded exactly when no variant gives a hit. */
  lemma {:induction false} FirstHitNone(vs: seq<string>, i: nat, q: Query, o: Oracles)
    requires i <= |vs|
    ensures FirstHitFrom(vs, i, q, o).None? <==> forall j :: i <= j < |vs| ==> TryVariant(vs[j], q, o).None?
    decreases |vs| - i
  {
    if i < |vs| { FirstHitNone(vs, i + 1, q, o); }
  }

  /** The inner loop over the free-text candidates. */
  method ScanCandidates(cs: seq<FreeCandidate>) returns (k: Option<nat>)
    ensures k == FirstParsed(cs)
  {
    var i := 0;
    while i < |cs|
      invariant 0 <= i <= |cs|
      invariant FirstParsed(cs) == FirstWhere(ParsedAt(cs), i, |cs|)
    {
      if cs[i].lat.Some? && cs[i].lon.Some? {
        assert ParsedAt(cs)(i);
        return Some(i);
      }
      assert !ParsedAt(cs)(i);
      i := i + 1;
    }
    return None;
  }

  /** The variant loop with its `break`s. */
  method Search(variants: seq<string>, q: Query, o: Oracles) returns (found: Option<Hit>)
    ensures found == FirstHitFrom(variants, 0, q, o)
  {
    found := None;
    var i := 0;
    while i < |variants|
      invariant 0 <= i <= |variants|
      invariant FirstHitFrom(variants, 0, q, o) == FirstHitFrom(variants, i, q, o)
    {
      var v := variants[i];
      var results := o.freeText(v, q.city, q.oblast);
      var k := ScanCandidates(results);
      if k.Some? {
        var c := results[k.value];
        found := Some(Hit(FreeText, c.lat.value, c.lon.value, Some(c.display), v));
        return;
      }
      if Truthy(q.name) {
        var ov := o.overpass(q.name, q.city, q.oblast);
        if Located(ov) {
          found := Some(Hit(Overpass, ov.lat.value, ov.lon.value, ov.display, v));
          return;
        }
      }
      if HasKey(o) {
        var g := o.google(GoogleText(q), q.city, q.oblast, q.name, o.googleKey.value);
        if Located(g) {
          found := Some(Hit(Google, g.lat.value, g.lon.value, g.display, v));
          return;
        }
      }
      i := i + 1;
    }
  }

  // =====================================================================
  // The row loop

  /** One row of the table of hospitals without coordinates. */
  datatype MissingRow = MissingRow(name: Cell, address: Cell, settlement: Cell, region: Cell)

  /** One output record. */
  datatype Attempt = Attempt(index: nat, name: Cell, addr: string, city: Cell, found: bool, result: Option<Hit>)

  function QueryOf(row: MissingRow): Query {
    Query(row.name, NormalizeAddr(row.address), CityOf(row.settlement, row.region), row.region)
  }

  function VariantsOf(q: Query): seq<string> {
    Unique(CleanAll(BuildVariants(q.name, q.addr, q.city)))
  }

  /** The record for the row at index `i`. */
  function AttemptFor(i: nat, row: MissingRow, o: Oracles): (r: Attempt)
    ensures r.index == i && r.name == row.name
    ensures r.found <==> r.result.Some?
  {
    var q := QueryOf(row);
    var found := FirstHitFrom(VariantsOf(q), 0, q, o);
    Attempt(i, row.name, q.addr, q.city, found.Some?, found)
  }

  /** The first `n` records are those of the first `n` rows. */
  predicate RecordsUpTo(outputs: seq<Attempt>, rows: seq<MissingRow>, o: Oracles, n: nat) {
    n <= |rows| && |outputs| == n && forall j :: 0 <= j < n ==> outputs[j] == AttemptFor(j, rows[j], o)
  }

  /** One pass of the row loop: clean the address, build and deduplicate
      the variants, search them, and append the outcome. */
  method RefineRow(i: nat, rows: seq<MissingRow>, o: Oracles, outputs: seq<Attempt>) returns (next: seq<Attempt>)
    requires i < |rows| && RecordsUpTo(outputs, rows, o, i)
    ensures RecordsUpTo(next, rows, o, i + 1)
  {
    var row := rows[i];
    var q := QueryOf(row);
    var variants := Dedup(BuildVariants(q.name, q.addr, q.city));
    assert variants == VariantsOf(q);
    var found := Search(variants, q, o);
    next := outputs + [Attempt(i, row.name, q.addr, q.city, found.Some?, found)];
  }

  /** The whole script: one record per row, in row order. */
  method RefineAll(rows: seq<MissingRow>, o: Oracles) returns (outputs: seq<Attempt>)
    ensures |outputs| == |rows|
    ensures forall i :: 0 <= i < |rows| ==> outputs[i] == AttemptFor(i, rows[i], o)
  {
    outputs := [];
    var i := 0;
    while i < |rows|
      invariant i <= |rows| && RecordsUpTo(outputs, rows, o, i)
    {
      outputs := RefineRow(i, rows, o, outputs);
      i := i + 1;
    }
  }
}
