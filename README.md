# Sukima Piece: feasibility of suggestions, page guard, duration settings

This project models, in Dafny, the decision logic of the Sukima Piece web
application, which suggests what to do in a stretch of idle time:

- **Personal-action suggestions** (`Suggestions`, `suggestions.dfy`). The
  route takes the user's actions that have an address and geocodes each
  address. It then looks up the one-way travel time by transit and retries
  on foot only the addresses transit could not serve. Each geocoded action
  becomes a suggestion. The round trip is `ceil(2·seconds/60)` minutes, the
  total is the action's duration plus the round trip, and `isPossible` says
  whether the total fits the available time. The loops that fill
  `coordinatesMap`, `successfulDurations` and `failedActions` are methods
  with loop invariants. Each is proved equal to a specification function,
  and lemmas state what those functions mean. The final `map`/`filter` is a
  function.
- **Nearby-place suggestions** (`Nearby`, `nearby.dfy`). This is a pure
  filter and map: keep the open places, pair open place *i* with matrix
  element *i*, stay 60 minutes at a cafe and 30 elsewhere, and keep the
  places whose total fits.
- **Page guard** (`Middleware`, `middleware.dfy`). It decides, from the token
  and the path, whether to pass a request through or redirect it.
- **Category duration settings** (`Durations`, `durations.dfy`). The table is
  a map from (user, category) to minutes, held in a class `Store`. GET folds
  the user's rows into a dictionary. POST upserts every posted entry.
- Shared pieces: `Common` (`common.dfy`) holds the option and response
  types, the signed-in test, a fold of keyed writes with its last-write-wins
  lemmas, and the positions a filter keeps. `Travel` (`travel.dfy`) holds the
  Distance Matrix element, the round-trip conversion and `getDurations`.

Inputs from outside the process are parameters:

- the session user id;
- whether the API key is configured;
- the user's actions and stored setting rows;
- the Geocoding, Places and Distance Matrix replies.

Seconds are `nat`. The available time is `int`.

Points where the code behaves in a way one might not expect, all modelled as written:

- Neither route sorts its results.
- Neither route rejects a non-positive budget.
- The personal-actions route returns infeasible actions with
  `isPossible = false`.
- `Suggestion.travelTime` holds round-trip minutes, although its field
  comment says seconds.

Behaviour on malformed replies follows the code too:

- A Distance Matrix row with more elements than addresses writes the
  duration under the key `"undefined"`, which is what JavaScript does with
  an out-of-range index used as a key.
- A failed element past the end of the action list puts `undefined` into
  `failedActions`. The walking retry then throws, giving a 500 answer.
- In the nearby route, a row shorter than the open-place list makes
  `elements[index].status` throw, giving a 500 answer.

## Model

| member | source | states |
|---|---|---|
| `Travel.GetDurations` | src/app/api/suggestions/route.ts:48-59 | no elements (the request fails) exactly when the top-level status is not OK or the reply has no row; otherwise the elements of the first row |
| `Travel.RoundTripMinutes` | src/app/api/suggestions/route.ts:149 | the result is the least whole number of minutes whose 60-second multiples cover twice the one-way seconds, i.e. `Math.ceil(2s/60)` |
| `Suggestions.BuildCoordinates` | src/app/api/suggestions/route.ts:104-110 | the loop's map equals `Coordinates`: each OK reply with a result writes its first result under its own address, in reply order |
| `Suggestions.CoordinatesAt` | src/app/api/suggestions/route.ts:105-109 | an address has a coordinate exactly when one of its replies is OK with at least one result; the coordinate is the first result of the last such reply |
| `Suggestions.TransitPass` | src/app/api/suggestions/route.ts:117-126 | the loop's `successfulDurations` equals `Recorded({}, addresses, elements)` and its `failedActions` equals `Failed(actions, elements)` |
| `Suggestions.RecordedKeys` | src/app/api/suggestions/route.ts:119-126 | after a pass an address has an entry exactly when it had one before or some element sent for it has status OK and a duration |
| `Suggestions.RecordedLast` | src/app/api/suggestions/route.ts:121-122 | an address holds the one-way seconds of the last element with status OK and a duration that was sent for it |
| `Suggestions.RecordedUntouched` | src/app/api/suggestions/route.ts:133-138 | an address for which no usable element was sent keeps its previous entry, or stays absent |
| `Suggestions.FailedInOrder` | src/app/api/suggestions/route.ts:119-126 | `failedActions` lists, once each and in element order, exactly the actions whose transit element lacks status OK or a duration |
| `Suggestions.WalkingPass` | src/app/api/suggestions/route.ts:133-138 | the walking loop's dictionary equals `Recorded(transit durations, failed addresses, walking elements)` |
| `Suggestions.FailedAddresses` | src/app/api/suggestions/route.ts:130 | the addresses of the failed actions, in order and one per entry; no result (the `.address` read throws) exactly when some entry is `undefined` |
| `Suggestions.WalkingKeepsOthers` | src/app/api/suggestions/route.ts:128-138 | whatever the walking reply's length, every address other than `"undefined"` that was not retried keeps its transit entry or its absence |
| `Suggestions.FinalDurations` | src/app/api/suggestions/route.ts:128-139 | with no failed action the transit dictionary is final; the request fails exactly when some action failed and either a failed entry is `undefined` or the walking reply is rejected; the walking retry never removes a transit entry |
| `Suggestions.Suggest` | src/app/api/suggestions/route.ts:142-161 | every suggestion is a geocoded input action with the coordinate of its address, `travelTime = ceil(2s/60)` for its recorded seconds (0 when none), `totalTime = duration + travelTime`, `isPossible` iff `totalTime <= availableTime`, and `totalTime = duration` when no seconds were recorded |
| `Suggestions.SuggestInOrder` | src/app/api/suggestions/route.ts:145-161 | the suggestions are exactly the actions whose address has a coordinate, each once and in input order; the others are dropped |
| `Suggestions.Post` | src/app/api/suggestions/route.ts:62-171 | the handler, run step by step through the loops, answers `PostOutcome`: 401, 500, `[]` or the suggestions |
| `Suggestions.PostOutcome` | src/app/api/suggestions/route.ts:62-171 | the answer is 401 exactly when there is no session user id; a 200 answer needs the API key and holds at most as many suggestions as actions, each for an input action whose address was geocoded, with `isPossible` iff the total fits |
| `Suggestions.PostNoActions` | src/app/api/suggestions/route.ts:90-92 | with no actions the answer is `[]` whatever the Distance Matrix replies are, so no travel lookup matters |
| `Suggestions.PostTransitRejected` | src/app/api/suggestions/route.ts:54-57 | a transit reply whose top-level status is not OK makes the whole request answer 500 |
| `Suggestions.PostWalkingOnlyOnFailure` | src/app/api/suggestions/route.ts:128-139 | when no transit element failed, the walking reply has no influence on the answer |
| `Nearby.OpenPlaces` | src/app/api/nearby-suggestions/route.ts:80-82 | the open places are exactly the places whose `openNow` is true; a place without opening-hours data is excluded |
| `Nearby.OpenPlacesInOrder` | src/app/api/nearby-suggestions/route.ts:80-82 | the open places keep their search order, each once |
| `Nearby.NoOpenPlaces` | src/app/api/nearby-suggestions/route.ts:84-86 | with no open place the answer is `[]` whatever the matrix reply |
| `Nearby.Feasible` | src/app/api/nearby-suggestions/route.ts:97-122 | every entry has `isPossible = true`, the category's stay as `duration`, `totalTime = duration + travelTime <= availableTime`, and the id of an open place |
| `Nearby.FeasibleInOrder` | src/app/api/nearby-suggestions/route.ts:97-122 | the answer holds, in order, one entry per open place whose own element (same index) has status OK, a duration and a total within the budget, built from that place and element with stay 60 for `"cafe"` and 30 otherwise |
| `Nearby.NearbyOutcome` | src/app/api/nearby-suggestions/route.ts:42-135 | 500 without the API key; `[]` when the search reply has no `places`; never 401; every entry of a 200 answer is possible, fits the available time, and carries the id of an open place of the search reply |
| `Nearby.NearbyAnswer` | src/app/api/nearby-suggestions/route.ts:93-124 | with open places, a reply without a row or with too short a row gives 500; otherwise the answer is the feasible open places |
| `Middleware.PathRules` | src/middleware.ts:5-25 | `/login`, `/actions` and `/settings` paths never start with `/api/auth`; a path is protected exactly when it starts with `/actions` or `/settings` |
| `Middleware.Decide` | src/middleware.ts:7-28 | `/api/auth…` always passes; the answer is a redirect to `/` exactly when a token is present and the path starts with `/login`, a redirect to `/login` exactly when no token is present and the path starts with `/actions` or `/settings`, and a pass-through otherwise |
| `Middleware.NoRedirectLoop` | src/middleware.ts:18-27 | following a redirect with the same token state is let through |
| `Durations.Reduce` | src/app/api/durations/route.ts:19-22 | the `reduce` loop's dictionary equals `DurationMap(rows)`, the row-by-row overwrite |
| `Durations.DurationMapKeys` | src/app/api/durations/route.ts:19-22 | the dictionary's keys are exactly the rows' categories; no rows give `{}` |
| `Durations.DurationMapLast` | src/app/api/durations/route.ts:20 | each category maps to the duration of its last row |
| `Durations.FoldOfUserRows` | src/app/api/durations/route.ts:14-22 | folding the user's rows, each once in any order, gives exactly the user's settings in the table |
| `Durations.Store.FindMany` | src/app/api/durations/route.ts:14-16 | the fetched rows are the user's rows of the table, each category once |
| `Durations.Store.Get` | src/app/api/durations/route.ts:7-27 | 401 without a session user id; otherwise the user's settings, category to duration |
| `Durations.Store.Upsert` | src/app/api/durations/route.ts:44-48 | the (user, category) row is created or overwritten with the duration |
| `Durations.Store.Post` | src/app/api/durations/route.ts:32-58 | 401 and the table untouched without a session user id; otherwise the table becomes `Posted(old table, user, body)` |
| `Durations.PostedRows` | src/app/api/durations/route.ts:43-49 | after POST each posted category of the user holds its posted value; every other row, of other users or other categories, is unchanged |
| `Durations.PostThenGet` | src/app/api/durations/route.ts:43-51 | after POST, GET answers the previous settings overwritten by the body, so each posted category with its posted value |
| `Durations.PostKeepsOtherUsers` | src/app/api/durations/route.ts:45-47 | POST by one user leaves every other user's settings unchanged |

## Left out

- The HTTP calls to Google Places, Geocoding and Distance Matrix, and the
  parallel fan-out of geocoding requests, are outside the model. Their
  replies are inputs. A request that fails at the transport level (an axios
  rejection, which ends in the 500 answer) is not modelled.
- `Suggestions.Post` requires one geocoding reply per address. The route
  builds the replies with `Promise.all` over the address list, so this
  always holds.
- The JSON request bodies are not modelled: a body that fails to parse, a
  non-numeric `availableTime` (`Number(...)` can give `NaN` or a fraction),
  or a string budget compared by JavaScript coercion in the nearby route.
  The budget is an integer.
- The database is not modelled: the Prisma client, query failures, the
  atomicity of `$transaction`, and duration values the database would
  reject. The store is a map that every upsert updates.
- `Suggestions.Suggest`: the dictionaries `coordinatesMap` and
  `successfulDurations` are modelled as maps that start empty. In the route
  they are plain objects, which also answer for the keys they inherit from
  `Object.prototype` (`constructor`, `toString`, `__proto__`, …). An action
  whose address is such a name is kept by the route even without a
  geocoded coordinate, with `NaN` times and no location; the model drops it.
- `Suggestions.SecondsFor`: for an address named like an inherited
  property, `successfulDurations[address] || 0` is the inherited value in
  the route: a function for names such as `constructor` or `toString` when
  no own entry was written, or `Object.prototype` for `__proto__`, whose
  writes are ignored so that even recorded seconds are lost. The route then
  gives `NaN` times; the model gives 0 seconds, or the recorded seconds.
- `Durations.DurationMap`: a category named `__proto__` is lost by the
  `reduce` in the route (a number assigned to `acc["__proto__"]` goes to
  the inherited `__proto__` setter, which ignores it, so no key is added);
  the model keeps it, so
  `Durations.DurationMapKeys` and `Durations.PostThenGet` do not capture
  that loss.
- `Durations.DurationMapKeys`: promises a `__proto__` category among the
  keys, which the route's `reduce` drops.
- `Durations.PostThenGet`: promises a posted `__proto__` category back from
  GET, which the route's `reduce` drops.
- Coordinates and ratings are floating-point values that are only copied.
  They are `real` here and never computed with.
- The actions query filters by user and non-null address. Its result is
  given directly as the list of actions with an address.
- `Suggestions.Action` carries the action's identifying, descriptive,
  address and duration columns. Other database columns are passed through
  by the route and are not represented.
- Logging, the search parameters of the Places request (type, radius,
  result count, language), and the middleware `matcher` configuration are
  not modelled.
- The AI suggestion route, the thin action create and task routes, the
  authentication setup, and all pages and components are not part of this
  model.
