/** The records the popup passes around: raw places from the places search,
    the candidates built from them, the entries shown on the wheel, and the
    entries of the persisted selection history. */
module Records {

  datatype Option<+T> = None | Some(value: T)

  /** One result of the nearby search, reduced to the fields the popup reads.
      `priceLevel` is None when the result has no price level at all. */
  datatype Place = Place(
    name: string,
    priceLevel: Option<nat>,
    lat: real,
    lng: real,
    placeId: string)

  /** A restaurant candidate. `distance` is the already formatted search radius
      and `price` the label built from the place's price level. */
  datatype Restaurant = Restaurant(
    name: string,
    distance: string,
    price: string,
    lat: real,
    lng: real,
    placeId: string,
    googleMapsLink: string)

  /** What the wheel shows for one restaurant, and what a selection carries. */
  datatype WheelOption = WheelOption(name: string, googleMapsLink: string)

  /** One persisted past selection. The timestamp is an opaque, locale-formatted string. */
  datatype HistoryEntry = HistoryEntry(name: string, timestamp: string, googleMapsLink: string)

  /** The set of names occurring in a list of candidates. */
  function Names(rs: seq<Restaurant>): set<string>
  {
    set r | r in rs :: r.name
  }

  /** No two candidates of the list share a name. */
  predicate DistinctNames(rs: seq<Restaurant>)
  {
    forall i, j :: 0 <= i < j < |rs| ==> rs[i].name != rs[j].name
  }
}
