/** The nearby-places suggestion route: among the places a nearby search
    returned, keep those open now, look up the walking time to each, and
    return the ones whose stay plus round trip fits the available time. */
module Nearby {
  import opened Common
  import opened Travel

  /** A Places search result; every field but the id may be missing.
      `openNow` is `regularOpeningHours?.openNow`. */
  datatype Place = Place(id: string, displayName: Option<string>, formattedAddress: Option<string>,
                         location: Option<LatLng>, openNow: Option<bool>, rating: Option<real>)

  /** An entry of the answer. */
  datatype NearbySuggestion = NearbySuggestion(id: string, title: Option<string>, address: Option<string>,
                                               duration: nat, location: Option<LatLng>, travelTime: nat,
                                               totalTime: int, isPossible: bool, rating: Option<real>)

  /** `place.regularOpeningHours?.openNow` is truthy: a place without
      opening-hours data is not open. */
  predicate IsOpen(p: Place)
  {
    p.openNow == Some(true)
  }

  /** `places.filter(place => place.regularOpeningHours?.openNow)`. */
  function OpenPlaces(places: seq<Place>): (open: seq<Place>)
    ensures forall p :: p in open ==> p in places && IsOpen(p)
    ensures forall p :: p in places && IsOpen(p) ==> p in open
    decreases |places|
  {
    if places == [] then []
    else
      var n := |places| - 1;
      OpenPlaces(places[..n]) + (if IsOpen(places[n]) then [places[n]] else [])
  }

  function OpenFlags(places: seq<Place>): seq<bool>
  {
    seq(|places|, i requires 0 <= i < |places| => IsOpen(places[i]))
  }

  /** The open places keep their order (with Positions: ascending, and
      every open place). */
  lemma {:induction false} OpenPlacesInOrder(places: seq<Place>)
    ensures var p := Positions(OpenFlags(places));
            |OpenPlaces(places)| == |p| &&
            forall k :: 0 <= k < |p| ==> OpenPlaces(places)[k] == places[p[k]]
  {
    if places != [] {
      var n := |places| - 1;
      var b := OpenFlags(places);
      OpenPlacesInOrder(places[..n]);
      assert OpenFlags(places[..n]) == b[..n];
      var prev := OpenPlaces(places[..n]);
      var last := if b[n] then [places[n]] else [];
      var open := OpenPlaces(places);
      assert open == prev + last;
      var p, pp := Positions(b), Positions(b[..n]);
      assert p == pp + (if b[n] then [n] else []);
      forall k | 0 <= k < |p| ensures open[k] == places[p[k]] {
        if k < |pp| {
          assert p[k] == pp[k] && open[k] == prev[k];
        } else {
          assert p[k] == n && open[k] == last[0];
        }
      }
    }
  }

  /** Minutes spent at the place: an hour at a cafe, half an hour elsewhere. */
  function StayMinutes(category: string): nat
  {
    if category == "cafe" then 60 else 30
  }

  /** The element gives a travel time and the stay plus the round trip fits. */
  predicate Fits(e: Element, category: string, availableTime: int)
  {
    Usable(e) && StayMinutes(category) + RoundTripMinutes(e.duration.value) <= availableTime
  }

  function Entry(p: Place, e: Element, category: string): NearbySuggestion
    requires Usable(e)
  {
    var travel := RoundTripMinutes(e.duration.value);
    var stay := StayMinutes(category);
    NearbySuggestion(p.id, p.displayName, p.formattedAddress, stay, p.location,
                     travel, stay + travel, true, p.rating)
  }

  /** `openPlaces.map((place, index) => ...).filter(Boolean)`: open place `i`
      is judged by element `i`. */
  function Feasible(open: seq<Place>, elems: seq<Element>, category: string, availableTime: int)
    : (out: seq<NearbySuggestion>)
    requires |open| <= |elems|
    ensures |out| <= |open|
    ensures forall s :: s in out ==>
              && s.isPossible
              && s.duration == StayMinutes(category)
              && s.travelTime <= s.totalTime <= availableTime
              && s.totalTime == s.duration + s.travelTime
              && exists p :: p in open && p.id == s.id
    decreases |open|
  {
    if open == [] then []
    else
      var n := |open| - 1;
      Feasible(open[..n], elems, category, availableTime) +
      (if Fits(elems[n], category, availableTime) then [Entry(open[n], elems[n], category)] else [])
  }

  function FitFlags(open: seq<Place>, elems: seq<Element>, category: string, availableTime: int): seq<bool>
    requires |open| <= |elems|
  {
    seq(|open|, i requires 0 <= i < |open| => Fits(elems[i], category, availableTime))
  }

  /** The answer is, in order, one entry per open place whose element fits
      (with Positions: ascending, and every fitting place), built from that
      place and its own element. */
  lemma {:induction false} FeasibleInOrder(open: seq<Place>, elems: seq<Element>, category: string,
                                           availableTime: int)
    requires |open| <= |elems|
    ensures var p := Positions(FitFlags(open, elems, category, availableTime));
            var out := Feasible(open, elems, category, availableTime);
            |out| == |p| &&
            forall k :: 0 <= k < |p| ==>
              Fits(elems[p[k]], category, availableTime) && out[k] == Entry(open[p[k]], elems[p[k]], category)
  {
    if open != [] {
      var n := |open| - 1;
      var b := FitFlags(open, elems, category, availableTime);
      FeasibleInOrder(open[..n], elems, category, availableTime);
      assert FitFlags(open[..n], elems, category, availableTime) == b[..n];
      var prev := Feasible(open[..n], elems, category, availableTime);
      var last := if b[n] then [Entry(open[n], elems[n], category)] else [];
      var out := Feasible(open, elems, category, availableTime);
      assert out == prev + last;
      var p, pp := Positions(b), Positions(b[..n]);
      assert p == pp + (if b[n] then [n] else []);
      forall k | 0 <= k < |p|
        ensures Fits(elems[p[k]], category, availableTime) && out[k] == Entry(open[p[k]], elems[p[k]], category)
      {
        if k < |pp| {
          assert p[k] == pp[k] && out[k] == prev[k];
        } else {
          assert p[k] == n && out[k] == last[0];
        }
      }
    }
  }

  /** The outcome of POST. `places` is the search reply's `places` (absent
      when the reply has none) and `matrix` the walking Distance Matrix
      reply, whose status this route does not check. Reading element `i` of
      a row shorter than the open-place list throws. */
  function NearbyOutcome(apiKeySet: bool, places: Option<seq<Place>>, matrix: MatrixResponse,
                         category: string, availableTime: int): (r: Response<seq<NearbySuggestion>>)
    ensures !apiKeySet ==> r == ServerError
    ensures apiKeySet && places.None? ==> r == Ok([])
    ensures r != Unauthorized
    ensures r.Ok? ==> forall s :: s in r.body ==>
              && s.isPossible
              && s.totalTime <= availableTime
              && exists p :: places.Some? && p in places.value && IsOpen(p) && p.id == s.id
  {
    if !apiKeySet then ServerError
    else
      var open := OpenPlaces(if places.Some? then places.value else []);
      if open == [] then Ok([])
      else if matrix.rows == [] then ServerError
      else if |matrix.rows[0]| < |open| then ServerError
      else Ok(Feasible(open, matrix.rows[0], category, availableTime))
  }

  /** With no open place the answer is the empty list, whatever the matrix. */
  lemma {:induction false} NoOpenPlaces(places: seq<Place>, matrix: MatrixResponse, category: string,
                                        availableTime: int)
    requires forall i :: 0 <= i < |places| ==> !IsOpen(places[i])
    ensures OpenPlaces(places) == []
    ensures NearbyOutcome(true, Some(places), matrix, category, availableTime) == Ok([])
    decreases |places|
  {
    if places != [] {
      NoOpenPlaces(places[..|places| - 1], matrix, category, availableTime);
    }
  }

  /** With open places, a matrix reply without a row, or whose row is
      shorter than the open-place list, makes the handler fail with 500;
      otherwise the answer is the feasible open places. */
  lemma NearbyAnswer(places: seq<Place>, matrix: MatrixResponse, category: string, availableTime: int)
    requires OpenPlaces(places) != []
    ensures matrix.rows == [] || |matrix.rows[0]| < |OpenPlaces(places)| ==>
              NearbyOutcome(true, Some(places), matrix, category, availableTime) == ServerError
    ensures matrix.rows != [] && |matrix.rows[0]| >= |OpenPlaces(places)| ==>
              NearbyOutcome(true, Some(places), matrix, category, availableTime) ==
              Ok(Feasible(OpenPlaces(places), matrix.rows[0], category, availableTime))
  {
  }
}
