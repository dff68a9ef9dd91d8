/** Building restaurant candidates from the places a nearby search returns,
    and removing candidates whose name was already seen (the first one of
    each name is kept). */
module Candidates {
  import opened Records

  /** The maps link of a place is this prefix followed by its place id. */
  const MapsPlacePrefix: string := "https://www.google.com/maps/place/?q=place_id:"

  /** The price label of a place without a (non-zero) price level. */
  const UnknownPrice: string := "Unknown"

  /** `n` dollar signs. */
  function Dollars(n: nat): (s: string)
    ensures |s| == n
    ensures forall i :: 0 <= i < |s| ==> s[i] == '$'
  {
    if n == 0 then "" else Dollars(n - 1) + "$"
  }

  /** The price label of a place: one dollar sign per price level, or
      "Unknown" when the level is absent or zero (both falsy). */
  function PriceLabel(level: Option<nat>): (tag: string)
    ensures tag == UnknownPrice <==> level.None? || level.value == 0
    ensures level.Some? && level.value > 0 ==>
              |tag| == level.value && forall i :: 0 <= i < |tag| ==> tag[i] == '$'
  {
    if level.Some? && level.value > 0 then
      var s := Dollars(level.value);
      assert s[0] != UnknownPrice[0];
      s
    else UnknownPrice
  }

  /** The maps link of a place id. */
  function MapsLink(placeId: string): (link: string)
    ensures |link| == |MapsPlacePrefix| + |placeId|
    ensures MapsPlacePrefix <= link
  {
    MapsPlacePrefix + placeId
  }

  /** The place id a maps link points to, if it has the maps link shape. */
  function PlaceIdOf(link: string): (id: Option<string>)
    ensures id.Some? <==> MapsPlacePrefix <= link
  {
    if MapsPlacePrefix <= link then Some(link[|MapsPlacePrefix|..]) else None
  }

  /** A maps link gives back the place id it was built from ... */
  lemma LinkRoundTrip(placeId: string)
    ensures PlaceIdOf(MapsLink(placeId)) == Some(placeId)
  {
  }

  /** ... and every link of that shape is the maps link of its place id. */
  lemma PlaceIdRoundTrip(link: string)
    requires PlaceIdOf(link).Some?
    ensures MapsLink(PlaceIdOf(link).value) == link
  {
  }

  /** The candidate built from one place. */
  function ToCandidate(place: Place, distance: string): Restaurant
  {
    Restaurant(place.name, distance, PriceLabel(place.priceLevel),
               place.lat, place.lng, place.placeId, MapsLink(place.placeId))
  }

  /** The candidates built from the places, one per place and in the same
      order; `distance` is the formatted search radius every candidate shows. */
  function BuildCandidates(places: seq<Place>, distance: string): (rs: seq<Restaurant>)
    ensures |rs| == |places|
    ensures forall i :: 0 <= i < |rs| ==>
              && rs[i].name == places[i].name
              && rs[i].distance == distance
              && rs[i].price == PriceLabel(places[i].priceLevel)
              && rs[i].lat == places[i].lat && rs[i].lng == places[i].lng
              && rs[i].placeId == places[i].placeId
              && PlaceIdOf(rs[i].googleMapsLink) == Some(places[i].placeId)
  {
    seq(|places|, i requires 0 <= i < |places| =>
      LinkRoundTrip(places[i].placeId);
      ToCandidate(places[i], distance))
  }

  /** The index of the first candidate named `n`, or |rs| when there is none. */
  function FirstIndexOf(rs: seq<Restaurant>, n: string): (i: nat)
    ensures i <= |rs|
    ensures i < |rs| ==> rs[i].name == n
    ensures forall j :: 0 <= j < i ==> rs[j].name != n
    ensures i == |rs| <==> n !in Names(rs)
  {
    if rs == [] then 0
    else if rs[0].name == n then 0
    else
      var i := 1 + FirstIndexOf(rs[1..], n);
      assert forall r :: r in rs[1..] ==> r in rs;
      assert n in Names(rs[1..]) ==> n in Names(rs);
      assert n in Names(rs) ==> n in Names(rs[1..]) by {
        if n in Names(rs) {
          var r :| r in rs && r.name == n;
          var k :| 0 <= k < |rs| && rs[k] == r;
          assert rs[1..][k - 1] == r;
        }
      }
      i
  }

  /** The candidates with every repeated name removed, the first one of each
      name kept. Stated on the prefix that a left-to-right scan has read. */
  function Deduplicated(rs: seq<Restaurant>): seq<Restaurant>
    decreases |rs|
  {
    if rs == [] then []
    else
      var init, last := rs[..|rs| - 1], rs[|rs| - 1];
      if last.name in Names(init) then Deduplicated(init) else Deduplicated(init) + [last]
  }

  /** Removes candidates whose name an earlier candidate had, scanning left to
      right and remembering the names seen so far. */
  method Deduplicate(rs: seq<Restaurant>) returns (unique: seq<Restaurant>)
    ensures unique == Deduplicated(rs)
  {
    var seen: set<string> := {};
    unique := [];
    var i := 0;
    while i < |rs|
      invariant 0 <= i <= |rs|
      invariant seen == Names(rs[..i])
      invariant unique == Deduplicated(rs[..i])
    {
      var r := rs[i];
      assert rs[..i + 1][..i] == rs[..i] && rs[..i + 1] == rs[..i] + [r];
      NamesAppend(rs[..i], r);
      if r.name !in seen {
        seen := seen + {r.name};
        unique := unique + [r];
      }
      i := i + 1;
    }
    assert rs[..|rs|] == rs;
  }

  lemma NamesAppend(s: seq<Restaurant>, r: Restaurant)
    ensures Names(s + [r]) == Names(s) + {r.name}
  {
    assert forall x :: x in s + [r] <==> x in s || x == r;
  }

  lemma InNames(s: seq<Restaurant>, k: nat)
    requires k < |s|
    ensures s[k].name in Names(s)
  {
    assert s[k] in s;
  }

  /** The names that survive are exactly the names of the input. */
  lemma {:induction false} DeduplicatedNames(rs: seq<Restaurant>)
    ensures Names(Deduplicated(rs)) == Names(rs)
    decreases |rs|
  {
    if rs != [] {
      var init, last := rs[..|rs| - 1], rs[|rs| - 1];
      assert rs == init + [last];
      DeduplicatedNames(init);
      NamesAppend(init, last);
      if last.name !in Names(init) {
        NamesAppend(Deduplicated(init), last);
      }
    }
  }

  /** No two surviving candidates share a name. */
  lemma {:induction false} DeduplicatedDistinct(rs: seq<Restaurant>)
    ensures DistinctNames(Deduplicated(rs))
    decreases |rs|
  {
    if rs != [] {
      var init, last := rs[..|rs| - 1], rs[|rs| - 1];
      DeduplicatedDistinct(init);
      if last.name !in Names(init) {
        var d := Deduplicated(init);
        DeduplicatedNames(init);
        forall j | 0 <= j < |d| ensures d[j].name != last.name {
          InNames(d, j);
        }
      }
    }
  }

  /** `a` is `b` with some elements left out and the rest in their order. */
  predicate IsSubsequence<T(==)>(a: seq<T>, b: seq<T>)
    decreases |b|
  {
    if a == [] then true
    else if b == [] then false
    else
      (a[|a| - 1] == b[|b| - 1] && IsSubsequence(a[..|a| - 1], b[..|b| - 1]))
      || IsSubsequence(a, b[..|b| - 1])
  }

  /** The survivors are an order-preserving subsequence of the input. */
  lemma {:induction false} DeduplicatedSubsequence(rs: seq<Restaurant>)
    ensures IsSubsequence(Deduplicated(rs), rs)
    decreases |rs|
  {
    if rs != [] {
      var init, last := rs[..|rs| - 1], rs[|rs| - 1];
      DeduplicatedSubsequence(init);
      if last.name !in Names(init) {
        var d := Deduplicated(init) + [last];
        assert d[..|d| - 1] == Deduplicated(init);
      }
    }
  }

  /** The first index of a name does not move when candidates are appended
      after it. */
  lemma FirstIndexOfAppend(s: seq<Restaurant>, t: seq<Restaurant>, n: string)
    requires FirstIndexOf(s, n) < |s|
    ensures FirstIndexOf(s + t, n) == FirstIndexOf(s, n)
  {
    var i, i' := FirstIndexOf(s, n), FirstIndexOf(s + t, n);
    assert (s + t)[i].name == n;
  }

  /** Every surviving candidate is the first candidate of the input with its name. */
  lemma {:induction false} DeduplicatedKeepsFirst(rs: seq<Restaurant>)
    ensures forall k :: 0 <= k < |Deduplicated(rs)| ==>
              FirstIndexOf(rs, Deduplicated(rs)[k].name) < |rs| &&
              Deduplicated(rs)[k] == rs[FirstIndexOf(rs, Deduplicated(rs)[k].name)]
    decreases |rs|
  {
    if rs != [] {
      var init, last := rs[..|rs| - 1], rs[|rs| - 1];
      assert rs == init + [last];
      var d0 := Deduplicated(init);
      DeduplicatedKeepsFirst(init);
      forall k | 0 <= k < |d0|
        ensures FirstIndexOf(rs, d0[k].name) == FirstIndexOf(init, d0[k].name) < |init|
      {
        FirstIndexOfAppend(init, [last], d0[k].name);
      }
      if last.name !in Names(init) {
        var d := d0 + [last];
        assert FirstIndexOf(rs, last.name) == |init| by {
          var i := FirstIndexOf(rs, last.name);
          if i < |init| {
            InNames(init, i);
          }
        }
        forall k | 0 <= k < |d|
          ensures FirstIndexOf(rs, d[k].name) < |rs| && d[k] == rs[FirstIndexOf(rs, d[k].name)]
        {
          if k < |d0| {
            assert d[k] == d0[k];
          }
        }
      }
    }
  }

  /** A list whose names are already distinct comes back unchanged. */
  lemma {:induction false} DeduplicatedDistinctUnchanged(rs: seq<Restaurant>)
    requires DistinctNames(rs)
    ensures Deduplicated(rs) == rs
    decreases |rs|
  {
    if rs != [] {
      var init, last := rs[..|rs| - 1], rs[|rs| - 1];
      assert DistinctNames(init);
      DeduplicatedDistinctUnchanged(init);
      forall r | r in init ensures r.name != last.name {
        var k :| 0 <= k < |init| && init[k] == r;
        assert r == rs[k];
      }
    }
  }

  /** Candidates keyed by name; a later candidate replaces an earlier one of
      the same name. */
  function IndexByName(rs: seq<Restaurant>): (m: map<string, Restaurant>)
    ensures m.Keys == Names(rs)
    ensures forall n :: n in m ==> m[n] in rs && m[n].name == n
    decreases |rs|
  {
    if rs == [] then map[]
    else
      var init, last := rs[..|rs| - 1], rs[|rs| - 1];
      NamesAppend(init, last);
      assert rs == init + [last];
      IndexByName(init)[last.name := last]
  }

  /** A candidate that no later candidate shares its name with is the value
      of its name: the last candidate of each name wins. */
  lemma {:induction false} IndexLastWins(rs: seq<Restaurant>, k: nat)
    requires k < |rs|
    requires forall j :: k < j < |rs| ==> rs[j].name != rs[k].name
    ensures rs[k].name in IndexByName(rs) && IndexByName(rs)[rs[k].name] == rs[k]
    decreases |rs|
  {
    InNames(rs, k);
    var init := rs[..|rs| - 1];
    if k < |rs| - 1 {
      IndexLastWins(init, k);
    }
  }

  /** Keyed after de-duplication, each name maps to the first candidate of
      the input with that name. */
  lemma {:induction false} IndexAfterDeduplication(rs: seq<Restaurant>, n: string)
    requires n in Names(rs)
    ensures n in IndexByName(Deduplicated(rs))
    ensures IndexByName(Deduplicated(rs))[n] == rs[FirstIndexOf(rs, n)]
  {
    var d := Deduplicated(rs);
    DeduplicatedNames(rs);
    DeduplicatedDistinct(rs);
    DeduplicatedKeepsFirst(rs);
    var k :| 0 <= k < |d| && d[k].name == n;
    IndexOfDistinct(d, k);
  }

  /** In a list of distinct names, each name maps to its own candidate. */
  lemma IndexOfDistinct(rs: seq<Restaurant>, k: nat)
    requires DistinctNames(rs) && k < |rs|
    ensures rs[k].name in IndexByName(rs) && IndexByName(rs)[rs[k].name] == rs[k]
  {
    IndexLastWins(rs, k);
  }
}
