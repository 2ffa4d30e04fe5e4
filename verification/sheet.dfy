/** The hospital table as the scripts see it through pandas: a cell is a
    string or NaN, and the row-level geocoder the scripts call is an
    oracle. */
module Sheet {
  import opened Text
  import opened Patterns

  /** A table cell: NaN (an empty CSV field) or a string. */
  datatype Cell = NaN | Str(s: string)

  /** `str(cell)`, and a cell inside an f-string: NaN prints as `nan`. */
  function Fmt(c: Cell): (r: string)
    ensures c.Str? ==> r == c.s
    ensures c.NaN? ==> r == "nan"
  {
    match c
    case NaN => "nan"
    case Str(s) => s
  }

  /** Python truthiness of a cell: NaN is a float and is truthy, a string
      is truthy when non-empty. */
  predicate Truthy(c: Cell) {
    c.NaN? || c.s != ""
  }

  /** `x or ''` on a cell: only the empty string is replaced. */
  function OrEmpty(c: Cell): (r: Cell)
    ensures r == c
  {
    if Truthy(c) then c else Str("")
  }

  function CellOf(o: Option<string>): (c: Cell)
    ensures o.None? <==> c.NaN?
    ensures o.Some? ==> c == Str(o.value)
  {
    if o.Some? then Str(o.value) else NaN
  }

  /** One row of the coordinates table: the input columns (address,
      settlement, region, name) and the result columns. */
  datatype Row = Row(
    address: Cell, settlement: Cell, region: Cell, name: Cell,
    lat: Option<real>, lng: Option<real>, provider: Cell, display: Cell)

  /** What `geocode_address(addr, city, oblast, name_hint=name)` returns:
      latitude, longitude (absent or a number), provider and display. */
  datatype Answer = Answer(lat: Option<real>, lng: Option<real>, provider: Option<string>, display: Option<string>)

  /** The row-level geocoder `geocode_address(addr, city, oblast,
      name_hint=name)`; `None` for a `None` answer or an exception. */
  type Locate = (string, Cell, Cell, Cell) -> Option<Answer>

  /** `res and res[0] and res[1]`: an answer with a non-zero latitude and
      longitude. `None` stands for no answer or an exception. */
  predicate Found(res: Option<Answer>) {
    res.Some? && res.value.lat.Some? && res.value.lat.value != 0.0
    && res.value.lng.Some? && res.value.lng.value != 0.0
  }

  /** The four result columns overwritten with an answer. */
  function WithAnswer(row: Row, a: Answer): (r: Row)
    ensures r.address == row.address && r.settlement == row.settlement
    ensures r.region == row.region && r.name == row.name
    ensures r.lat == a.lat && r.lng == a.lng
    ensures r.provider == CellOf(a.provider) && r.display == CellOf(a.display)
  {
    row.(lat := a.lat, lng := a.lng, provider := CellOf(a.provider), display := CellOf(a.display))
  }
}
