/** The ride document of the `Ride` schema: its fields, which of them are
    required, the `status` enumeration with its default, and the two ways a
    request body reaches a document: a validated save on creation and an
    unvalidated field overwrite on update. */
module RideModel {
  import opened Wrappers
  import opened Http
  import Validators

  type RideId = ObjectId
  type VehicleId = ObjectId

  datatype RideStatus = NotStarted | InProgress | Completed

  /** The name a status is stored under. */
  function StatusName(s: RideStatus): string {
    match s
    case NotStarted => "not_started"
    case InProgress => "in_progress"
    case Completed => "completed"
  }

  /** The schema's `enum` check: the status a stored name denotes, if any. */
  function ParseStatus(name: string): (r: Option<RideStatus>)
    ensures r.Some? ==> StatusName(r.value) == name
    ensures r.None? ==> forall s: RideStatus :: StatusName(s) != name
  {
    if name == "not_started" then Some(NotStarted)
    else if name == "in_progress" then Some(InProgress)
    else if name == "completed" then Some(Completed)
    else None
  }

  const DEFAULT_STATUS: RideStatus := NotStarted

  /** A stored ride. `status` is kept as the stored string: an update can
      write a name outside the enumeration, since it runs no validators. */
  datatype Ride = Ride(
    driver: UserId,
    origin: string,
    destination: string,
    date: int,
    time: string,
    seats: int,
    passengers: seq<UserId>,
    status: string,
    vehicle: VehicleId,
    distance: int,
    price: string)

  /** The ride fields of a request body, already cast to their schema types;
      None for a field the body does not supply. Other keys of the body are
      dropped by the schema and do not appear. */
  datatype RideFields = RideFields(
    driver: Option<UserId>,
    origin: Option<string>,
    destination: Option<string>,
    date: Option<int>,
    time: Option<string>,
    seats: Option<int>,
    passengers: Option<seq<UserId>>,
    status: Option<string>,
    vehicle: Option<VehicleId>,
    distance: Option<int>,
    price: Option<string>)

  const NO_FIELDS: RideFields :=
    RideFields(None, None, None, None, None, None, None, None, None, None, None)

  /** All nine required paths are supplied. */
  predicate HasRequiredFields(f: RideFields) {
    && f.driver.Some?
    && PresentText(f.origin)
    && PresentText(f.destination)
    && f.date.Some?
    && PresentText(f.time)
    && f.seats.Some?
    && f.vehicle.Some?
    && f.distance.Some?
    && PresentText(f.price)
  }

  /** A status the save validator accepts: none at all, or an enum name. */
  predicate StatusAccepted(status: Option<string>) {
    status.None? || ParseStatus(status.value).Some?
  }

  /** What a successful save guarantees of the stored document. */
  predicate ConformsToSchema(r: Ride) {
    && r.origin != ""
    && r.destination != ""
    && r.time != ""
    && r.price != ""
    && ParseStatus(r.status).Some?
  }

  /** `new Ride(data)` then `save()`: the defaults are applied (`status`
      becomes "not_started", `passengers` the empty list) and the document is
      stored only when every required path is present and the status is in
      the enumeration. */
  function ValidateRide(f: RideFields): (r: Option<Ride>)
    ensures r.Some? <==> HasRequiredFields(f) && StatusAccepted(f.status)
    ensures r.Some? ==> ConformsToSchema(r.value)
  {
    if HasRequiredFields(f) && StatusAccepted(f.status) then
      Some(Ride(
        f.driver.value, f.origin.value, f.destination.value, f.date.value, f.time.value,
        f.seats.value, f.passengers.GetOr([]), f.status.GetOr(StatusName(DEFAULT_STATUS)),
        f.vehicle.value, f.distance.value, f.price.value))
    else None
  }

  /** Every field of a stored ride, as a body that supplies all of them. */
  function FieldsOf(r: Ride): RideFields {
    RideFields(
      Some(r.driver), Some(r.origin), Some(r.destination), Some(r.date), Some(r.time),
      Some(r.seats), Some(r.passengers), Some(r.status), Some(r.vehicle), Some(r.distance),
      Some(r.price))
  }

  /** Saving a body made from a conforming ride stores that ride unchanged,
      and a saved ride is made of exactly the supplied fields plus defaults. */
  lemma ValidateRoundTrip(r: Ride, f: RideFields)
    ensures ConformsToSchema(r) ==> ValidateRide(FieldsOf(r)) == Some(r)
    ensures ValidateRide(f) == Some(r) ==>
              && f.driver == Some(r.driver) && f.origin == Some(r.origin)
              && f.destination == Some(r.destination) && f.date == Some(r.date)
              && f.time == Some(r.time) && f.seats == Some(r.seats) && f.vehicle == Some(r.vehicle)
              && f.distance == Some(r.distance) && f.price == Some(r.price)
              && r.passengers == f.passengers.GetOr([])
              && r.status == f.status.GetOr("not_started")
  {
  }

  /** A body without `status` yields a ride that has not started, and one
      without `passengers` a ride with nobody aboard. */
  lemma ValidateDefaults(f: RideFields)
    requires HasRequiredFields(f) && f.status.None? && f.passengers.None?
    ensures ValidateRide(f).Some?
    ensures ParseStatus(ValidateRide(f).value.status) == Some(NotStarted)
    ensures ValidateRide(f).value.passengers == []
  {
  }

  /** Dropping any one required field makes the save fail. */
  lemma MissingRequiredFieldRejected(f: RideFields)
    ensures ValidateRide(f.(driver := None)).None?
    ensures ValidateRide(f.(origin := None)).None?
    ensures ValidateRide(f.(destination := None)).None?
    ensures ValidateRide(f.(date := None)).None?
    ensures ValidateRide(f.(time := None)).None?
    ensures ValidateRide(f.(seats := None)).None?
    ensures ValidateRide(f.(vehicle := None)).None?
    ensures ValidateRide(f.(distance := None)).None?
    ensures ValidateRide(f.(price := None)).None?
  {
  }

  /** The schema puts no bound on `seats`: a ride with no seats saves,
      although the seat validator would refuse that count. */
  lemma SchemaAcceptsAnySeatCount(f: RideFields, seats: int)
    requires HasRequiredFields(f) && StatusAccepted(f.status)
    ensures ValidateRide(f.(seats := Some(seats))).Some?
    ensures ValidateRide(f.(seats := Some(0))).Some? && Validators.IsSeatsValid(0).Invalid?
  {
  }

  /** Every field `p` supplies has the same value in `full`. */
  predicate Covers(full: RideFields, p: RideFields) {
    && (p.driver.Some? ==> p.driver == full.driver)
    && (p.origin.Some? ==> p.origin == full.origin)
    && (p.destination.Some? ==> p.destination == full.destination)
    && (p.date.Some? ==> p.date == full.date)
    && (p.time.Some? ==> p.time == full.time)
    && (p.seats.Some? ==> p.seats == full.seats)
    && (p.passengers.Some? ==> p.passengers == full.passengers)
    && (p.status.Some? ==> p.status == full.status)
    && (p.vehicle.Some? ==> p.vehicle == full.vehicle)
    && (p.distance.Some? ==> p.distance == full.distance)
    && (p.price.Some? ==> p.price == full.price)
  }

  /** Every field `p` leaves out has the same value before and after. */
  predicate KeepsUnsupplied(before: RideFields, after: RideFields, p: RideFields) {
    && (p.driver.None? ==> after.driver == before.driver)
    && (p.origin.None? ==> after.origin == before.origin)
    && (p.destination.None? ==> after.destination == before.destination)
    && (p.date.None? ==> after.date == before.date)
    && (p.time.None? ==> after.time == before.time)
    && (p.seats.None? ==> after.seats == before.seats)
    && (p.passengers.None? ==> after.passengers == before.passengers)
    && (p.status.None? ==> after.status == before.status)
    && (p.vehicle.None? ==> after.vehicle == before.vehicle)
    && (p.distance.None? ==> after.distance == before.distance)
    && (p.price.None? ==> after.price == before.price)
  }

  /** `findByIdAndUpdate(id, body)` without validators: every field the body
      supplies overwrites the stored one, every other is kept. */
  function ApplyPatch(r: Ride, p: RideFields): (u: Ride)
    ensures Covers(FieldsOf(u), p)
    ensures KeepsUnsupplied(FieldsOf(r), FieldsOf(u), p)
    ensures p == NO_FIELDS ==> u == r
  {
    Ride(
      p.driver.GetOr(r.driver), p.origin.GetOr(r.origin), p.destination.GetOr(r.destination),
      p.date.GetOr(r.date), p.time.GetOr(r.time), p.seats.GetOr(r.seats),
      p.passengers.GetOr(r.passengers), p.status.GetOr(r.status), p.vehicle.GetOr(r.vehicle),
      p.distance.GetOr(r.distance), p.price.GetOr(r.price))
  }

  /** An update leaves the ride as it was exactly when every field the body
      supplies already holds the supplied value. */
  lemma ApplyPatchUnchangedIff(r: Ride, p: RideFields)
    ensures ApplyPatch(r, p) == r <==> Covers(FieldsOf(r), p)
  {
    if Covers(FieldsOf(r), p) {
      var u := ApplyPatch(r, p);
      assert u.driver == r.driver && u.origin == r.origin && u.destination == r.destination;
      assert u.date == r.date && u.time == r.time && u.seats == r.seats;
      assert u.passengers == r.passengers && u.status == r.status && u.vehicle == r.vehicle;
      assert u.distance == r.distance && u.price == r.price;
    }
  }

  /** Applying the same update twice is applying it once; a body supplying
      every field replaces the ride by the ride that body describes. */
  lemma ApplyPatchIdempotent(r: Ride, p: RideFields, q: Ride)
    ensures ApplyPatch(ApplyPatch(r, p), p) == ApplyPatch(r, p)
    ensures ApplyPatch(r, FieldsOf(q)) == q
  {
  }

  /** The update runs no validators: it can store a status outside the
      enumeration, or blank out a required field, on a conforming ride. */
  lemma ApplyPatchSkipsValidation(r: Ride)
    requires ConformsToSchema(r)
    ensures !ConformsToSchema(ApplyPatch(r, NO_FIELDS.(status := Some("cancelled"))))
    ensures !ConformsToSchema(ApplyPatch(r, NO_FIELDS.(origin := Some(""))))
  {
  }
}
