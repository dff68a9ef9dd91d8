/** The wheel: up to eight options sampled from a shuffled copy of the
    candidates, held with the selected details in the popup's state. The
    random shuffle is given as a permutation of the candidate indices. */
module Wheel {
  import opened Records
  import opened Candidates

  /** The most options the wheel shows. */
  const MaxOptions: nat := 8

  function Min(a: nat, b: nat): nat
  {
    if a <= b then a else b
  }

  /** `perm` lists each index below `n` exactly once: a shuffle of `n` items. */
  predicate IsPermutation(perm: seq<nat>, n: nat)
  {
    && |perm| == n
    && (forall k :: 0 <= k < n ==> perm[k] < n)
    && (forall i, j :: 0 <= i < j < n ==> perm[i] != perm[j])
  }

  /** More than `m` values all below `m` cannot all be different. */
  lemma {:induction false} Collision(s: seq<nat>, m: nat)
    requires |s| > m
    requires forall k :: 0 <= k < |s| ==> s[k] < m
    ensures exists i, j :: 0 <= i < j < |s| && s[i] == s[j]
    decreases m
  {
    var last := |s| - 1;
    var x := s[last];
    if x in s[..last] {
      var i :| 0 <= i < last && s[..last][i] == x;
      assert s[i] == s[last];
    } else {
      // squeeze out the value x, keeping distinct values distinct
      var t := seq(last, k requires 0 <= k < last => if s[k] > x then s[k] - 1 else s[k]);
      forall k | 0 <= k < last ensures s[k] != x {
        assert s[..last][k] == s[k];
      }
      Collision(t, m - 1);
      var i, j :| 0 <= i < j < |t| && t[i] == t[j];
      assert s[i] == s[j];
    }
  }

  /** A permutation of `n` indices contains every index below `n`. */
  lemma PermutationCovers(perm: seq<nat>, n: nat, v: nat)
    requires IsPermutation(perm, n) && v < n
    ensures v in perm
  {
    var s := perm + [v];
    Collision(s, n);
    var i, j :| 0 <= i < j < |s| && s[i] == s[j];
    assert j == n;
    assert perm[i] == v;
  }

  /** The candidates in shuffled order. */
  function Shuffle(rs: seq<Restaurant>, perm: seq<nat>): (shuffled: seq<Restaurant>)
    requires IsPermutation(perm, |rs|)
  {
    seq(|rs|, k requires 0 <= k < |rs| => rs[perm[k]])
  }

  /** The option the wheel shows for a candidate. */
  function AsOption(r: Restaurant): WheelOption
  {
    WheelOption(r.name, r.googleMapsLink)
  }

  function OptionsOf(rs: seq<Restaurant>): (opts: seq<WheelOption>)
  {
    seq(|rs|, k requires 0 <= k < |rs| => AsOption(rs[k]))
  }

  /** The wheel's options for the candidates under the shuffle `perm`: the
      first eight shuffled candidates, or all of them when there are fewer. */
  function Sample(rs: seq<Restaurant>, perm: seq<nat>): (opts: seq<WheelOption>)
    requires IsPermutation(perm, |rs|)
    ensures |opts| == Min(MaxOptions, |rs|)
    ensures forall k :: 0 <= k < |opts| ==> opts[k] == AsOption(rs[perm[k]])
    ensures forall o :: o in opts ==> exists r :: r in rs && o == AsOption(r)
    ensures DistinctNames(rs) ==> forall i, j :: 0 <= i < j < |opts| ==> opts[i].name != opts[j].name
  {
    var shuffled := Shuffle(rs, perm);
    var opts := OptionsOf(shuffled[..Min(MaxOptions, |shuffled|)]);
    assert forall k :: 0 <= k < |opts| ==> rs[perm[k]] in rs;
    opts
  }

  /** With at most eight candidates, the wheel shows every one of them. */
  lemma SampleShowsAll(rs: seq<Restaurant>, perm: seq<nat>, r: Restaurant)
    requires IsPermutation(perm, |rs|) && |rs| <= MaxOptions
    requires r in rs
    ensures AsOption(r) in Sample(rs, perm)
  {
    var i :| 0 <= i < |rs| && rs[i] == r;
    PermutationCovers(perm, |rs|, i);
    var k :| 0 <= k < |perm| && perm[k] == i;
    assert Sample(rs, perm)[k] == AsOption(r);
  }

  /** What the popup keeps about the current restaurants: first every
      unique candidate keyed by name, then, once the wheel is drawn, the
      options it shows. */
  datatype Details = ByName(byName: map<string, Restaurant>) | Selected(selected: seq<WheelOption>)

  /** The popup's state for one session. */
  class Popup {
    var options: seq<WheelOption>
    var restaurantDetails: Details

    constructor ()
      ensures options == [] && restaurantDetails == ByName(map[])
    {
      options := [];
      restaurantDetails := ByName(map[]);
    }

    /** Replaces the wheel's options by a sample of the candidates, shuffled
        by `perm`, and records the sample as the selected details. */
    method UpdateWheel(restaurants: seq<Restaurant>, perm: seq<nat>)
      requires IsPermutation(perm, |restaurants|)
      modifies this
      ensures options == Sample(restaurants, perm)
      ensures restaurantDetails == Selected(options)
    {
      options := [];
      var shuffled := Shuffle(restaurants, perm);
      var selected := shuffled[..Min(MaxOptions, |shuffled|)];
      options := options + OptionsOf(selected);
      restaurantDetails := Selected(OptionsOf(selected));
    }

    /** Handles the results of a nearby search. Missing or empty results
        leave the state as it was (the user is alerted); otherwise the
        candidates are built, de-duplicated, keyed by name, and the wheel is
        redrawn from them with the shuffle `perm`. */
    method ShowResults(results: Option<seq<Place>>, distance: string, perm: seq<nat>)
      returns (found: bool)
      requires results.Some? ==>
                 IsPermutation(perm, |Deduplicated(BuildCandidates(results.value, distance))|)
      modifies this
      ensures found <==> results.Some? && |results.value| > 0
      ensures !found ==> options == old(options) && restaurantDetails == old(restaurantDetails)
      ensures found ==> options == Sample(Deduplicated(BuildCandidates(results.value, distance)), perm)
      ensures found ==> 0 < |options| <= MaxOptions && restaurantDetails == Selected(options)
    {
      if results.None? || |results.value| == 0 {
        return false;
      }
      var restaurants := BuildCandidates(results.value, distance);
      restaurants := Deduplicate(restaurants);
      DeduplicatedNames(BuildCandidates(results.value, distance));
      InNames(BuildCandidates(results.value, distance), 0);
      restaurantDetails := ByName(IndexByName(restaurants));
      UpdateWheel(restaurants, perm);
      found := true;
    }
  }
}
