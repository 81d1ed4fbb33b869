# Ride-sharing server core, modelled in Dafny

This project models the server side of a small ride-sharing application (a
"BlaBlaCar clone") built on Express and Mongoose. It covers two parts.

* **The stand-alone validators** of `servidor/utils/validators.js`. They check
  adult age, the CPF number (the Brazilian taxpayer id) with its two mod-11
  check digits, the CNH (driving licence) format, the ride date/time
  scheduling rule and the seat count. Every call to `new Date()` for "now"
  becomes a parameter. Each validator is then a total function of its
  arguments. No route calls these validators, so they are modelled on
  their own.
* **The ride and vehicle routers** (`servidor/routes/rides.js`,
  `servidor/routes/vehicle.js`) and the schemas they save through
  (`servidor/models/Ride.js`, `servidor/models/Vehicle.js`). Each collection
  is a finite map from document id to record. The session is
  `Option<UserId>`. Each handler is one atomic step from
  `(store, session, request)` to `(status code, new store, payload)`.

Modules, one per file:

| file | module | models |
|---|---|---|
| `wrappers.dfy` | `Wrappers` | `Option` |
| `http.dfy` | `Http` | ObjectIds, the session, status codes, the `isAuthenticated` middleware both routers define |
| `validators.dfy` | `Validators` | `validators.js` |
| `ride_model.dfy` | `RideModel` | the `Ride` schema: required paths, `status` enum and default, `passengers`; save validation and the unvalidated update |
| `ride_routes.dfy` | `RideRoutes` | the ride router's six handlers, and the router as one transition function |
| `vehicle_model.dfy` | `VehicleModel` | the `Vehicle` schema; save validation and update validators |
| `vehicle_routes.dfy` | `VehicleRoutes` | the vehicle router's four handlers, the unique-plate invariant, and the router as one transition function |

Modelling choices:

* Instants for the ride date/time rule are milliseconds on the local clock.
  `DayOf(t) = t / 86400000` rounds down, which is what `setHours(0, 0, 0, 0)`
  and `toDateString()` compare. `At(day, minute)` builds an instant from a
  `(day, minute of day)` pair.
* The result of parsing a date is an `Option`: `None` plays the role of an
  invalid `Date` (NaN).
* A request body is a record of optional, already-cast fields. Mongoose's
  `required` check on a String path refuses the empty string as well as a
  missing value. The model does the same.
* The id of a new document is a parameter (`newId`). If that id is already
  in use, the insert fails like any other save error (400).
* A `:id` path parameter is `Id(n)` or `BadId`. `BadId` is a string that
  fails the ObjectId cast, so the handler's `catch` block answers. That
  gives 400 everywhere except ride DELETE, whose `catch` answers 500.
* Ride PUT calls `findByIdAndUpdate` without `runValidators`. So a stored
  ride's `status` is kept as a string: an update can store a name outside
  the enum. Vehicle PUT does run validators. It also runs into the unique
  index on `plate`.
* `GET /search` is declared before `GET /:id`, so `/search` never reaches
  the id handler.

Behaviour a ride-sharing server might be expected to have, which this code
does not:

* The search matches `origin` and `destination` by exact equality and does
  not exclude completed rides (`SearchIgnoresStatus`).
* The search also filters on `date >=` the given date.
* The routers contain no seat reservation, no "ride full" check, no price or
  distance computation and no vehicle-selection rule. The `passengers` list
  has no uniqueness or capacity bound in the schema.
* The scheduling and seat validators exist, but no route calls them. So a
  ride can be saved with zero seats (`SchemaAcceptsAnySeatCount`) or in the
  past.

## Model

| member | source | states |
|---|---|---|
| Http.Gate | servidor/routes/rides.js:7-12 | A request reaches its handler exactly when the session carries a user. Otherwise the answer is 401. |
| Validators.IsAgeValid | servidor/utils/validators.js:2-12 | An unparseable birth date is never valid. Otherwise the result is true iff `today` is on or after the 18th birthday, comparing (year, month, day) lexicographically. |
| Validators.AgeValidFromEighteenthBirthday | servidor/utils/validators.js:8-11 | Valid on the 18th birthday itself; invalid on the day before it in the same month. |
| Validators.AgeValidMonotone | servidor/utils/validators.js:2-12 | If a birth date is old enough, every earlier birth date is old enough too. |
| Validators.StripNonDigits | servidor/utils/validators.js:18 | The result contains only ASCII digits and is no longer than the input. |
| Validators.StripFixedPoints | servidor/utils/validators.js:18 | Stripping leaves a string unchanged iff it is all digits. |
| Validators.StripIdempotent | servidor/utils/validators.js:18 | Stripping twice is the same as stripping once. |
| Validators.WeightedSumsExpanded | servidor/utils/validators.js:25-31 | The two loop sums are the sums of the first nine digits weighted 10..2 and of the first ten digits weighted 11..2. |
| Validators.CheckDigit | servidor/utils/validators.js:26-27 | A check digit is in 0..9. It is ten times the sum mod 11, with 10 read as 0. |
| Validators.CheckCPF | servidor/utils/validators.js:15-37 | Returns true exactly when the argument is a non-empty string whose digits are 11 long and not all equal, the 10th digit is the check digit of the first sum, and the 11th is the check digit of the second sum. |
| Validators.CpfIgnoresPunctuation | servidor/utils/validators.js:18 | The verdict depends only on the digits of the argument. |
| Validators.FormattedCpfStrips | servidor/utils/validators.js:18 | The written form ddd.ddd.ddd-dd of an 11-digit string strips back to that string. |
| Validators.FormattedCpfSameVerdict | servidor/utils/validators.js:18 | The written form ddd.ddd.ddd-dd gets the same verdict as the bare 11 digits. |
| Validators.CpfAcceptedShape | servidor/utils/validators.js:20 | An accepted CPF has exactly 11 digits and is not one digit repeated. |
| Validators.RepeatedDigitPassesCheckDigits | servidor/utils/validators.js:20-36 | Eleven copies of one digit pass both check-digit tests, yet are rejected. The repetition test alone refuses them. |
| Validators.CpfExample | servidor/utils/validators.js:22-36 | 12345678909 is accepted. |
| Validators.CpfWrongCheckDigitExample | servidor/utils/validators.js:31-34 | 12345678900 is rejected: its tenth digit matches the first check digit, and its eleventh digit fails the second. |
| Validators.DigitRunIff | servidor/utils/validators.js:42 | The anchored pattern of n digits matches iff the string is exactly n ASCII digits. |
| Validators.IsCNHValid | servidor/utils/validators.js:40-43 | The anchored pattern accepts a string iff it is exactly 11 ASCII digits. |
| Validators.CnhIff | servidor/utils/validators.js:40-43 | A CNH is valid iff it is exactly 11 ASCII digits. Nothing is stripped first, so a valid CNH is its own stripped form. |
| Validators.CnhPunctuatedRejected | servidor/utils/validators.js:40-43 | Eleven digits with any one separator inserted are refused, although stripping the separator would give a valid CNH. |
| Validators.IsRideDateTimeValid | servidor/utils/validators.js:46-72 | Every refusal carries one of the three fixed messages. |
| Validators.BeforeStartOfDay | servidor/utils/validators.js:56-58 | An instant is before today's midnight iff it falls on an earlier calendar day. |
| Validators.RideDateTimeOutcomes | servidor/utils/validators.js:46-71 | In check order: unparseable gives the invalid-date message. An earlier day is in the past. Today but less than 30 minutes ahead is too soon; this includes times already gone today. Otherwise the result is valid iff the ride is on a later day, or today at least 30 minutes ahead. |
| Validators.RideDateTimeMonotone | servidor/utils/validators.js:62-71 | Moving a valid ride later keeps it valid. |
| Validators.RideDateTimeByMinute | servidor/utils/validators.js:56-71 | In (day, minute) terms: valid iff the ride is on a later day at any time, or the same day at least 30 minutes after now. |
| Validators.RideDateTimeMidnightExample | servidor/utils/validators.js:62-71 | At 23:50, 00:05 tomorrow is valid although it is 15 minutes away, and 00:05 today is too soon. |
| Validators.IsSeatsValid | servidor/utils/validators.js:75-80 | Valid iff seats >= 1. Otherwise the result is the fixed seats error. |
| RideModel.ParseStatus | servidor/models/Ride.js:11-15 | Only the three enum names parse, and each parses back to the name it came from. |
| RideModel.ValidateRide | servidor/models/Ride.js:3-19 | The save succeeds iff all nine required paths are present (strings non-empty) and the status is absent or in the enum. A saved ride conforms to the schema. |
| RideModel.ValidateRoundTrip | servidor/models/Ride.js:4-18 | A conforming ride saves back to itself. A saved ride is the supplied fields plus the `passengers` and `status` defaults. |
| RideModel.ValidateDefaults | servidor/models/Ride.js:10-14 | Without `status` the ride is `not_started`; without `passengers` it has none. |
| RideModel.MissingRequiredFieldRejected | servidor/models/Ride.js:4-18 | Dropping any one of driver, origin, destination, date, time, seats, vehicle, distance or price fails the save. |
| RideModel.SchemaAcceptsAnySeatCount | servidor/models/Ride.js:9 | The schema bounds no seat count; zero seats saves although the seat validator refuses it. |
| RideModel.ApplyPatch | servidor/routes/rides.js:98 | Every field the body supplies ends up in the ride. Every field it leaves out keeps its stored value. An empty body changes nothing. |
| RideModel.ApplyPatchUnchangedIff | servidor/routes/rides.js:98 | The ride is left as it was exactly when every field the body supplies already holds that value. |
| RideModel.ApplyPatchIdempotent | servidor/routes/rides.js:98 | Applying an update twice equals applying it once. An update that supplies every field yields exactly the ride those fields describe. |
| RideModel.ApplyPatchSkipsValidation | servidor/routes/rides.js:98 | Without validators, an update can store a status outside the enum or an empty origin. |
| RideRoutes.DrivenBy | servidor/routes/rides.js:37 | The result is exactly the stored rides whose driver is the given user, with their stored contents. |
| RideRoutes.CreateRide | servidor/routes/rides.js:15-32 | No session gives 401. The result is 201 iff the body, with the session user forced in as driver, saves and the id is free; then exactly one ride is added, and it is the body's fields with the session user as driver and the schema defaults (see `ValidateRoundTrip`). Otherwise 400 with the store unchanged. |
| RideRoutes.CreateIgnoresBodyDriver | servidor/routes/rides.js:22 | A driver named in the body has no effect on the outcome. |
| RideRoutes.ListRides | servidor/routes/rides.js:35-43 | No session gives 401. Otherwise 200 with exactly the session user's rides; the store is unchanged. |
| RideRoutes.CreatedRideIsListed | servidor/routes/rides.js:15-43 | After a successful create, the creator's listing is the old listing plus the new ride. |
| RideRoutes.ListingsDisjoint | servidor/routes/rides.js:37 | Two different drivers' listings share no ride. |
| RideRoutes.SearchRides | servidor/routes/rides.js:46-71 | A non-string origin or destination, or an unparseable date, gives 400. Otherwise 200 with exactly the rides that match every given filter: equal origin, equal destination, date >= the given date. No session is needed and the store is unchanged. |
| RideRoutes.SearchWithoutFiltersReturnsAll | servidor/routes/rides.js:60-66 | Absent or empty filters return the whole collection. |
| RideRoutes.SearchIsIntersection | servidor/routes/rides.js:61-66 | The result is the intersection of the three single-filter searches. |
| RideRoutes.SearchIgnoresStatus | servidor/routes/rides.js:61-66 | Changing any ride's status, to `completed` for instance, never changes the result set. |
| RideRoutes.GetRide | servidor/routes/rides.js:75-85 | A malformed id gives 400, a missing ride 404, an existing ride 200 with that ride. No session is needed. |
| RideRoutes.UpdateRide | servidor/routes/rides.js:88-103 | 401, then 400 for a malformed id, 404 for a missing ride, 403 for a non-driver; each leaves the store unchanged. Only the driver gets 200, and only that ride changes: it gets the body's fields. |
| RideRoutes.DeleteRide | servidor/routes/rides.js:106-121 | 401, then 500 for a malformed id, 404 for a missing ride, 403 for a non-driver; each leaves the store unchanged. Only the driver gets 200, which removes exactly that ride. |
| RideRoutes.DeleteAndUpdateSeenByFetch | servidor/routes/rides.js:75-121 | After the owner deletes a ride, fetching it gives 404 and it leaves the listing. After an update, fetching it returns the updated ride. |
| RideRoutes.CompleteRideByDriver | cliente/src/components/Ride/RideManager/RideManager.js:63-72 | Completing succeeds iff the requester drives the ride. It sets the status to `completed` and changes nothing else. |
| RideRoutes.Handle | servidor/routes/rides.js:15-121 | Dispatches each of the six routes. Every answer is one of the router's status codes. Search, fetch and listing never change the store. Only a create, update or delete with a session can change it. |
| RideRoutes.UnauthenticatedNeverWrites | servidor/routes/rides.js:7-12 | With no session, no request changes the store. POST, GET /, PUT and DELETE answer 401. |
| RideRoutes.ExistingRideChangedOnlyByDriver | servidor/routes/rides.js:94-115 | A stored ride is changed or removed only by a request from its driver. |
| RideRoutes.AtMostOneRideChanges | servidor/routes/rides.js:15-121 | A request changes at most one ride. |
| VehicleModel.ValidateVehicle | servidor/models/Vehicle.js:3-10 | The save succeeds iff all six required paths are present, strings non-empty. A saved vehicle conforms to the schema. |
| VehicleModel.ValidateVehicleRoundTrip | servidor/models/Vehicle.js:4-9 | A vehicle conforms iff it saves back to itself from its own fields. A saved vehicle is exactly the supplied fields. |
| VehicleModel.MissingVehicleFieldRejected | servidor/models/Vehicle.js:4-9 | Dropping any of userId, brand, model, year, color or plate fails the save. |
| VehicleModel.MergeVehicle | servidor/routes/vehicle.js:54-58 | Every field the body supplies ends up in the vehicle. Every field it leaves out keeps its stored value. The vehicle is unchanged iff the body supplies only values it already has; in particular, an empty body changes nothing. |
| VehicleModel.UpdateValidatorsKeepConformance | servidor/routes/vehicle.js:54-58 | For a conforming vehicle, the update validators pass iff the merged vehicle conforms. |
| VehicleRoutes.CreateVehicle | servidor/routes/vehicle.js:14-29 | No session gives 401. The result is 201 iff the body, with the session user forced in as owner, saves, the id is free and no vehicle holds the plate; then the vehicle is added, and it is exactly the body's fields with the session user as owner (see `ValidateVehicleRoundTrip`). Otherwise 400 with the store unchanged. Plate uniqueness is preserved. |
| VehicleRoutes.CreateIgnoresBodyOwner | servidor/routes/vehicle.js:21 | A `userId` named in the body has no effect on the outcome. |
| VehicleRoutes.ListVehicles | servidor/routes/vehicle.js:32-39 | Always 200 with exactly the vehicles owned by the session user; there is no gate. |
| VehicleRoutes.ListWithoutSessionIsEmpty | servidor/routes/vehicle.js:32-35 | Without a session the listing is empty. |
| VehicleRoutes.UpdateVehicle | servidor/routes/vehicle.js:42-64 | 401, then 400 for a malformed id, then 404 when the vehicle is missing or owned by someone else. 200 iff the requester owns it, the update validators pass and the merged plate is free; then only that vehicle changes. Plate uniqueness and schema conformance are preserved. |
| VehicleRoutes.DeleteVehicle | servidor/routes/vehicle.js:67-85 | 401, then 400 for a malformed id, then 404 when the vehicle is missing or owned by someone else. Only the owner gets 200, which removes exactly that vehicle. |
| VehicleRoutes.DeleteAndUpdateSeenByList | servidor/routes/vehicle.js:32-85 | After the owner deletes a vehicle, it leaves the owner's listing. After an update, the listing shows the merged vehicle. |
| VehicleRoutes.ForeignVehicleLooksMissing | servidor/routes/vehicle.js:45-51 | Another user's vehicle gets the same 404 as a missing one, never 403. |
| VehicleRoutes.Handle | servidor/routes/vehicle.js:14-86 | Dispatches each of the four routes. Every answer is one of the router's status codes. Listing never changes the store. Only a create, update or delete with a session can change it. |
| VehicleRoutes.HandlePreservesInvariants | servidor/models/Vehicle.js:9 | Every request keeps plates unique and every stored vehicle conforming. |
| VehicleRoutes.RunPreservesInvariants | servidor/models/Vehicle.js:4-9 | Any sequence of requests keeps both invariants. |
| VehicleRoutes.UnauthenticatedNeverWritesVehicles | servidor/routes/vehicle.js:6-11 | With no session, no request changes the store. POST, PUT and DELETE answer 401. |
| VehicleRoutes.ExistingVehicleChangedOnlyByOwner | servidor/routes/vehicle.js:45-51 | A stored vehicle is changed or removed only by a request from its owner. |

## Left out

- Parsing of date strings (`new Date(...)`, `Date.parse`), time zones and daylight-saving shifts: dates arrive already parsed, as instants on a uniform local clock or as calendar triples.
- Validators.IsAgeValid: does not model the UTC-versus-local shift of a date-only birth string, because that depends on the host time zone.
- Loose JavaScript coercion: `seats == 0` on strings, `regex.test` on a non-string CNH (which converts it to a string first), and casting of body values to schema types. Seat counts are integers, a CNH is a string, and body fields arrive already cast.
- `null` values in a request body, which Mongoose treats differently from absent ones. An update in the model can only set values.
- Database failures, such as a failed `find` answering 500 or 400 from the `catch` blocks, and async interleaving: each handler is one atomic step.
- Non-integer numbers: `seats` and `distance` are JavaScript `Number`s in the schema (servidor/models/Ride.js:9,17). They are modelled as `int`, so a fractional distance such as 12.5 cannot be represented. `date` is a `Date`, modelled as an integer instant in milliseconds.
- Vehicle timestamps (`createdAt`, `updatedAt`) come from the clock and are not modelled.
- Without a session, vehicle `GET /` filters on `userId: undefined`. The model gives that filter no match, because every stored vehicle has an owner. How Mongoose serialises an undefined filter value is not modelled.
- Result order: listings and search results are maps from id to document, so the order in which `find` returns documents is not modelled. No route sorts its results.
- Response bodies beyond the status code and the documents returned, such as error-message objects and success messages.
- Seat reservation, the "ride full" check, passenger uniqueness, price and distance computation, and vehicle selection: the server code contains none of them.
- The user routes and schema (password hashing, session creation), the FIPE proxy, server start-up and the MongoDB connection: these are calls into external libraries or services.
- Application wiring: the shown `servidor/index.js` mounts only the user and ride routers and no session middleware. The model assumes that a session middleware fills `req.session` and that the vehicle router is mounted.
- Everything on the client side except the body that finishing a ride sends.
