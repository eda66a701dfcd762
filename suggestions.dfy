/** The personal-actions suggestion route: for each of the user's actions
    that has an address, geocode the address, look up the one-way travel
    time (by transit, retrying on foot the addresses transit could not
    serve), and report whether the action plus the round trip fits the
    user's available time. */
module Suggestions {
  import opened Common
  import opened Travel

  /** A stored action. The route only fetches actions whose address is set,
      so the address is always a string here. */
  datatype Action = Action(id: string, userId: string, title: string,
                           description: Option<string>, address: string, duration: int)

  /** A Geocoding reply: a status and the candidate locations. */
  datatype GeocodeResponse = GeocodeResponse(status: string, results: seq<LatLng>)

  /** An action with its fields unchanged, plus the round-trip travel time
      in minutes, the total time, the verdict and the coordinates. */
  datatype Suggestion = Suggestion(action: Action, travelTime: nat, totalTime: int,
                                   isPossible: bool, location: LatLng)

  /** The object key that JavaScript produces from an `undefined` value: an
      array read past its end used as a dictionary key writes this entry. */
  const Undefined: string := "undefined"

  function Addresses(actions: seq<Action>): seq<string>
  {
    seq(|actions|, i requires 0 <= i < |actions| => actions[i].address)
  }

  /* ---------- Geocoding: building `coordinatesMap` ---------- */

  /** The reply gives a coordinate: status OK and at least one result. */
  predicate Geocoded(g: GeocodeResponse)
  {
    g.status == "OK" && |g.results| > 0
  }

  /** The write each geocoding reply makes: its first result, or nothing. */
  function GeocodeWrites(geos: seq<GeocodeResponse>): seq<Option<LatLng>>
  {
    seq(|geos|, i requires 0 <= i < |geos| => if Geocoded(geos[i]) then Some(geos[i].results[0]) else None)
  }

  /** `coordinatesMap` after the geocoding loop; reply `i` belongs to address `i`. */
  function Coordinates(addrs: seq<string>, geos: seq<GeocodeResponse>): map<string, LatLng>
    requires |addrs| == |geos|
  {
    Upserts(map[], addrs, GeocodeWrites(geos))
  }

  /** The `forEach` over the geocoding replies that fills `coordinatesMap`. */
  method BuildCoordinates(addrs: seq<string>, geos: seq<GeocodeResponse>) returns (coords: map<string, LatLng>)
    requires |geos| == |addrs|
    ensures coords == Coordinates(addrs, geos)
  {
    coords := map[];
    var i := 0;
    while i < |geos|
      invariant 0 <= i <= |geos|
      invariant coords == Upserts(map[], addrs[..i], GeocodeWrites(geos[..i]))
    {
      assert addrs[..i + 1][..i] == addrs[..i];
      assert GeocodeWrites(geos[..i + 1])[..i] == GeocodeWrites(geos[..i]);
      if geos[i].status == "OK" && |geos[i].results| > 0 {
        coords := coords[addrs[i] := geos[i].results[0]];
      }
      i := i + 1;
    }
    assert addrs[..i] == addrs && geos[..i] == geos;
  }

  /** An address has a coordinate exactly when one of its geocoding replies
      is OK with a result, and the coordinate is the first result of the
      last such reply. */
  lemma CoordinatesAt(addrs: seq<string>, geos: seq<GeocodeResponse>, a: string)
    requires |addrs| == |geos|
    ensures a in Coordinates(addrs, geos) <==>
              exists i :: 0 <= i < |addrs| && addrs[i] == a && Geocoded(geos[i])
    ensures forall i :: 0 <= i < |addrs| && addrs[i] == a && Geocoded(geos[i]) &&
                        (forall j :: i < j < |addrs| && addrs[j] == a ==> !Geocoded(geos[j])) ==>
              Coordinates(addrs, geos)[a] == geos[i].results[0]
  {
    var w := GeocodeWrites(geos);
    if a in Coordinates(addrs, geos) {
      var i :| 0 <= i < |addrs| && w[i].Some? && addrs[i] == a;
      assert Geocoded(geos[i]);
    }
    forall i | 0 <= i < |addrs| && addrs[i] == a && Geocoded(geos[i]) &&
               (forall j :: i < j < |addrs| && addrs[j] == a ==> !Geocoded(geos[j]))
      ensures Coordinates(addrs, geos)[a] == geos[i].results[0]
    {
      assert w[i].Some?;
      assert NoWriteFrom(addrs, w, a, i + 1) by {
        forall j | i + 1 <= j < |addrs| && addrs[j] == a ensures w[j].None? { assert !Geocoded(geos[j]); }
      }
      UpsertsLast(map[], addrs, w, a, i);
    }
  }

  /* ---------- Distance Matrix passes: `successfulDurations`, `failedActions` ---------- */

  /** The dictionary key for element `i`: the address sent at position `i`,
      or "undefined" for an element past the end of the address list. */
  function AddressAt(addrs: seq<string>, i: nat): string
  {
    if i < |addrs| then addrs[i] else Undefined
  }

  function WriteKeys(addrs: seq<string>, n: nat): seq<string>
  {
    seq(n, i requires 0 <= i < n => AddressAt(addrs, i))
  }

  /** The write each matrix element makes: its one-way seconds, or nothing. */
  function SecondsWrites(elems: seq<Element>): seq<Option<nat>>
  {
    seq(|elems|, i requires 0 <= i < |elems| => if Usable(elems[i]) then Some(elems[i].duration.value) else None)
  }

  /** `successfulDurations` after a pass over `elems`, starting from `m0`:
      element `i` with status OK and a duration records its seconds under
      the address sent at position `i`. */
  function Recorded(m0: map<string, nat>, addrs: seq<string>, elems: seq<Element>): map<string, nat>
  {
    Upserts(m0, WriteKeys(addrs, |elems|), SecondsWrites(elems))
  }

  lemma RecordedStep(m0: map<string, nat>, addrs: seq<string>, elems: seq<Element>, i: nat)
    requires i < |elems|
    ensures Recorded(m0, addrs, elems[..i + 1]) ==
              if Usable(elems[i]) then Recorded(m0, addrs, elems[..i])[AddressAt(addrs, i) := elems[i].duration.value]
              else Recorded(m0, addrs, elems[..i])
  {
    assert WriteKeys(addrs, i + 1)[..i] == WriteKeys(addrs, i);
    assert SecondsWrites(elems[..i + 1])[..i] == SecondsWrites(elems[..i]);
  }

  /** After a pass an address has an entry exactly when it had one before
      or some usable element was sent for it. */
  lemma RecordedKeys(m0: map<string, nat>, addrs: seq<string>, elems: seq<Element>, a: string)
    ensures a in Recorded(m0, addrs, elems) <==>
              a in m0 || exists i :: 0 <= i < |elems| && Usable(elems[i]) && AddressAt(addrs, i) == a
  {
    var keys, w := WriteKeys(addrs, |elems|), SecondsWrites(elems);
    if a in Recorded(m0, addrs, elems) && a !in m0 {
      var i :| 0 <= i < |keys| && w[i].Some? && keys[i] == a;
      assert Usable(elems[i]);
    }
    if exists i :: 0 <= i < |elems| && Usable(elems[i]) && AddressAt(addrs, i) == a {
      var i :| 0 <= i < |elems| && Usable(elems[i]) && AddressAt(addrs, i) == a;
      assert keys[i] == a && w[i].Some?;
    }
  }

  /** An address no usable element was sent for keeps what it had before
      the pass: its entry, or its absence. */
  lemma RecordedUntouched(m0: map<string, nat>, addrs: seq<string>, elems: seq<Element>, a: string)
    requires forall i :: 0 <= i < |elems| && Usable(elems[i]) ==> AddressAt(addrs, i) != a
    ensures a in Recorded(m0, addrs, elems) <==> a in m0
    ensures a in m0 ==> Recorded(m0, addrs, elems)[a] == m0[a]
  {
    var keys, w := WriteKeys(addrs, |elems|), SecondsWrites(elems);
    assert NoWriteFrom(keys, w, a, 0) by {
      forall j | 0 <= j < |keys| && keys[j] == a ensures w[j].None? { assert !Usable(elems[j]); }
    }
    UpsertsUntouched(m0, keys, w, a);
  }

  /** A pass records, for an address, the seconds of the last usable
      element sent for it. */
  lemma RecordedLast(m0: map<string, nat>, addrs: seq<string>, elems: seq<Element>, a: string, i: nat)
    requires i < |elems| && Usable(elems[i]) && AddressAt(addrs, i) == a
    requires forall j :: i < j < |elems| && Usable(elems[j]) ==> AddressAt(addrs, j) != a
    ensures a in Recorded(m0, addrs, elems) && Recorded(m0, addrs, elems)[a] == elems[i].duration.value
  {
    var keys, w := WriteKeys(addrs, |elems|), SecondsWrites(elems);
    assert keys[i] == a && w[i].Some?;
    assert NoWriteFrom(keys, w, a, i + 1) by {
      forall j | i + 1 <= j < |keys| && keys[j] == a ensures w[j].None? { assert !Usable(elems[j]); }
    }
    UpsertsLast(m0, keys, w, a, i);
  }

  /** The action whose address was sent at position `i`, or `undefined` for
      an element past the end of the action list. */
  function ActionAt(actions: seq<Action>, i: nat): Option<Action>
  {
    if i < |actions| then Some(actions[i]) else None
  }

  /** `failedActions` after the transit pass: in element order, the action
      of every element without status OK and a duration. */
  function Failed(actions: seq<Action>, elems: seq<Element>): seq<Option<Action>>
    decreases |elems|
  {
    if elems == [] then []
    else
      var n := |elems| - 1;
      Failed(actions, elems[..n]) + (if Usable(elems[n]) then [] else [ActionAt(actions, n)])
  }

  function FailedFlags(elems: seq<Element>): seq<bool>
  {
    seq(|elems|, i requires 0 <= i < |elems| => !Usable(elems[i]))
  }

  /** `failedActions` lists, in order and once each, exactly the actions
      whose transit element failed (see the contract of Positions). */
  lemma {:induction false} FailedInOrder(actions: seq<Action>, elems: seq<Element>)
    ensures var p := Positions(FailedFlags(elems));
            |Failed(actions, elems)| == |p| &&
            forall k :: 0 <= k < |p| ==> Failed(actions, elems)[k] == ActionAt(actions, p[k])
  {
    if elems != [] {
      var n := |elems| - 1;
      var b := FailedFlags(elems);
      FailedInOrder(actions, elems[..n]);
      assert FailedFlags(elems[..n]) == b[..n];
      var prev := Failed(actions, elems[..n]);
      var last := if b[n] then [ActionAt(actions, n)] else [];
      var failed := Failed(actions, elems);
      assert failed == prev + last;
      var p, pp := Positions(b), Positions(b[..n]);
      assert p == pp + (if b[n] then [n] else []);
      forall k | 0 <= k < |p| ensures failed[k] == ActionAt(actions, p[k]) {
        if k < |pp| {
          assert p[k] == pp[k] && failed[k] == prev[k];
        } else {
          assert p[k] == n && failed[k] == last[0];
        }
      }
    }
  }

  /** The transit `forEach`: successes go to `successfulDurations`, the
      rest to `failedActions`. */
  method TransitPass(actions: seq<Action>, elems: seq<Element>)
    returns (durations: map<string, nat>, failed: seq<Option<Action>>)
    ensures durations == Recorded(map[], Addresses(actions), elems)
    ensures failed == Failed(actions, elems)
  {
    var addrs := Addresses(actions);
    durations, failed := map[], [];
    var i := 0;
    while i < |elems|
      invariant 0 <= i <= |elems|
      invariant durations == Recorded(map[], addrs, elems[..i])
      invariant failed == Failed(actions, elems[..i])
    {
      RecordedStep(map[], addrs, elems, i);
      assert elems[..i + 1][..i] == elems[..i];
      var address := AddressAt(addrs, i);
      if elems[i].status == "OK" && elems[i].duration.Some? {
        durations := durations[address := elems[i].duration.value];
      } else {
        failed := failed + [ActionAt(actions, i)];
      }
      i := i + 1;
    }
    assert elems[..i] == elems;
  }

  /** `failedActions.map(action => action.address)`: reading `.address`
      of an `undefined` entry throws. */
  function FailedAddresses(failed: seq<Option<Action>>): (r: Option<seq<string>>)
    ensures r.None? <==> exists i :: 0 <= i < |failed| && failed[i].None?
    ensures r.Some? ==> |r.value| == |failed|
    ensures r.Some? ==> forall i :: 0 <= i < |failed| ==> failed[i].Some? && r.value[i] == failed[i].value.address
  {
    if forall i :: 0 <= i < |failed| ==> failed[i].Some? then
      Some(seq(|failed|, i requires 0 <= i < |failed| && failed[i].Some? => failed[i].value.address))
    else None
  }

  /** The walking `forEach`: successes overwrite `successfulDurations`. */
  method WalkingPass(durations: map<string, nat>, failedAddrs: seq<string>, elems: seq<Element>)
    returns (updated: map<string, nat>)
    ensures updated == Recorded(durations, failedAddrs, elems)
  {
    updated := durations;
    var i := 0;
    while i < |elems|
      invariant 0 <= i <= |elems|
      invariant updated == Recorded(durations, failedAddrs, elems[..i])
    {
      RecordedStep(durations, failedAddrs, elems, i);
      if elems[i].status == "OK" && elems[i].duration.Some? {
        updated := updated[AddressAt(failedAddrs, i) := elems[i].duration.value];
      }
      i := i + 1;
    }
    assert elems[..i] == elems;
  }

  /** The walking retry writes only the retried addresses (and the key
      "undefined" for surplus elements): every other entry of
      `successfulDurations`, and every other absence, survives. */
  lemma WalkingKeepsOthers(durations: map<string, nat>, failedAddrs: seq<string>, elems: seq<Element>, a: string)
    requires a !in failedAddrs && a != Undefined
    ensures a in Recorded(durations, failedAddrs, elems) <==> a in durations
    ensures a in durations ==> Recorded(durations, failedAddrs, elems)[a] == durations[a]
  {
    RecordedUntouched(durations, failedAddrs, elems, a);
  }

  /* ---------- The final map and filter ---------- */

  /** `successfulDurations[address] || 0`. */
  function SecondsFor(durations: map<string, nat>, address: string): nat
  {
    if address in durations then durations[address] else 0
  }

  function Evaluate(a: Action, seconds: nat, location: LatLng, availableTime: int): Suggestion
  {
    var travel := RoundTripMinutes(seconds);
    var total := a.duration + travel;
    Suggestion(a, travel, total, total <= availableTime, location)
  }

  /** `userActions.map(...).filter(s => s !== null)`: every action whose
      address has a coordinate becomes a suggestion; the others are dropped. */
  function Suggest(actions: seq<Action>, durations: map<string, nat>, coords: map<string, LatLng>,
                   availableTime: int): (out: seq<Suggestion>)
    ensures |out| <= |actions|
    ensures forall s :: s in out ==>
              && s.action in actions
              && s.action.address in coords
              && s.location == coords[s.action.address]
              && s.travelTime == RoundTripMinutes(SecondsFor(durations, s.action.address))
              && s.totalTime == s.action.duration + s.travelTime
              && (s.isPossible <==> s.totalTime <= availableTime)
              && (s.action.address !in durations ==> s.totalTime == s.action.duration)
    decreases |actions|
  {
    if actions == [] then []
    else
      var n := |actions| - 1;
      var a := actions[n];
      Suggest(actions[..n], durations, coords, availableTime) +
      (if a.address in coords
       then [Evaluate(a, SecondsFor(durations, a.address), coords[a.address], availableTime)]
       else [])
  }

  function Located(actions: seq<Action>, coords: map<string, LatLng>): seq<bool>
  {
    seq(|actions|, i requires 0 <= i < |actions| => actions[i].address in coords)
  }

  /** The suggestions are the located actions, each exactly once and in
      input order (with Positions: ascending, and every located action). */
  lemma {:induction false} SuggestInOrder(actions: seq<Action>, durations: map<string, nat>,
                                          coords: map<string, LatLng>, availableTime: int)
    ensures var p := Positions(Located(actions, coords));
            var out := Suggest(actions, durations, coords, availableTime);
            |out| == |p| && forall k :: 0 <= k < |p| ==> out[k].action == actions[p[k]]
  {
    if actions != [] {
      var n := |actions| - 1;
      var b := Located(actions, coords);
      SuggestInOrder(actions[..n], durations, coords, availableTime);
      assert Located(actions[..n], coords) == b[..n];
      var prev := Suggest(actions[..n], durations, coords, availableTime);
      var a := actions[n];
      var last := if b[n]
                  then [Evaluate(a, SecondsFor(durations, a.address), coords[a.address], availableTime)]
                  else [];
      var out := Suggest(actions, durations, coords, availableTime);
      assert out == prev + last;
      var p, pp := Positions(b), Positions(b[..n]);
      assert p == pp + (if b[n] then [n] else []);
      forall k | 0 <= k < |p| ensures out[k].action == actions[p[k]] {
        if k < |pp| {
          assert p[k] == pp[k] && out[k] == prev[k];
        } else {
          assert p[k] == n && out[k] == last[0];
        }
      }
    }
  }

  /* ---------- The whole handler ---------- */

  /** `successfulDurations` when the suggestions are computed, or None when
      the walking retry throws. */
  function FinalDurations(actions: seq<Action>, transitElems: seq<Element>, walking: MatrixResponse)
    : (r: Option<map<string, nat>>)
    ensures Failed(actions, transitElems) == [] ==> r == Some(Recorded(map[], Addresses(actions), transitElems))
    ensures r.None? <==>
              Failed(actions, transitElems) != [] &&
              (FailedAddresses(Failed(actions, transitElems)).None? || GetDurations(walking).None?)
    ensures r.Some? ==> Recorded(map[], Addresses(actions), transitElems).Keys <= r.value.Keys
  {
    var d := Recorded(map[], Addresses(actions), transitElems);
    var failed := Failed(actions, transitElems);
    if failed == [] then Some(d)
    else match FailedAddresses(failed)
      case None => None
      case Some(fa) =>
        match GetDurations(walking)
        case None => None
        case Some(we) => Some(Recorded(d, fa, we))
  }

  /** The outcome of POST: the session check, the key check, the early
      return for no actions, then the passes and the final map and filter.
      `actions` is the user's actions with an address, `geos` the geocoding
      reply for each, `transit` and `walking` the Distance Matrix replies. */
  function PostOutcome(userId: Option<string>, apiKeySet: bool, actions: seq<Action>,
                       geos: seq<GeocodeResponse>, transit: MatrixResponse, walking: MatrixResponse,
                       availableTime: int): (r: Response<seq<Suggestion>>)
    requires |geos| == |actions|
    ensures r == Unauthorized <==> !SignedIn(userId)
    ensures r.Ok? ==> apiKeySet && |r.body| <= |actions|
    ensures r.Ok? ==> forall s :: s in r.body ==>
                && s.action in actions
                && s.action.address in Coordinates(Addresses(actions), geos)
                && (s.isPossible <==> s.totalTime <= availableTime)
  {
    if !SignedIn(userId) then Unauthorized
    else if !apiKeySet then ServerError
    else if actions == [] then Ok([])
    else match GetDurations(transit)
      case None => ServerError
      case Some(te) =>
        match FinalDurations(actions, te, walking)
        case None => ServerError
        case Some(d) => Ok(Suggest(actions, d, Coordinates(Addresses(actions), geos), availableTime))
  }

  /** The handler, step by step as the route runs it. */
  method Post(userId: Option<string>, apiKeySet: bool, actions: seq<Action>,
              geos: seq<GeocodeResponse>, transit: MatrixResponse, walking: MatrixResponse,
              availableTime: int) returns (r: Response<seq<Suggestion>>)
    requires |geos| == |actions|
    ensures r == PostOutcome(userId, apiKeySet, actions, geos, transit, walking, availableTime)
  {
    if !SignedIn(userId) { return Unauthorized; }
    if !apiKeySet { return ServerError; }
    if |actions| == 0 { return Ok([]); }
    var addrs := Addresses(actions);
    var coords := BuildCoordinates(addrs, geos);
    var transitElems := GetDurations(transit);
    if transitElems.None? { return ServerError; }
    var durations, failed := TransitPass(actions, transitElems.value);
    if |failed| > 0 {
      var failedAddrs := FailedAddresses(failed);
      if failedAddrs.None? { return ServerError; }
      var walkingElems := GetDurations(walking);
      if walkingElems.None? { return ServerError; }
      durations := WalkingPass(durations, failedAddrs.value, walkingElems.value);
    }
    r := Ok(Suggest(actions, durations, coords, availableTime));
  }

  /** No actions: the answer is the empty list, whatever the Distance Matrix
      would have replied, because no travel time is looked up. */
  lemma PostNoActions(userId: Option<string>, transit: MatrixResponse, walking: MatrixResponse, availableTime: int)
    requires SignedIn(userId)
    ensures PostOutcome(userId, true, [], [], transit, walking, availableTime) == Ok([])
  {
  }

  /** A transit reply whose top-level status is not OK aborts the request. */
  lemma PostTransitRejected(userId: Option<string>, actions: seq<Action>, geos: seq<GeocodeResponse>,
                            transit: MatrixResponse, walking: MatrixResponse, availableTime: int)
    requires |geos| == |actions| && SignedIn(userId) && actions != [] && transit.status != "OK"
    ensures PostOutcome(userId, true, actions, geos, transit, walking, availableTime) == ServerError
  {
  }

  /** The walking reply matters only when some transit element failed. */
  lemma PostWalkingOnlyOnFailure(userId: Option<string>, actions: seq<Action>, geos: seq<GeocodeResponse>,
                                 transit: MatrixResponse, w1: MatrixResponse, w2: MatrixResponse,
                                 availableTime: int)
    requires |geos| == |actions|
    requires GetDurations(transit).Some? && Failed(actions, GetDurations(transit).value) == []
    ensures PostOutcome(userId, true, actions, geos, transit, w1, availableTime) ==
            PostOutcome(userId, true, actions, geos, transit, w2, availableTime)
  {
  }
}
