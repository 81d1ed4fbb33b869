/** The vehicle document of the `Vehicle` schema: six required paths, all
    strings but the owner, and a plate that the collection's unique index
    keeps distinct across documents (see `VehicleRoutes.PlatesUnique`). */
module VehicleModel {
  import opened Wrappers
  import opened Http

  type VehicleId = ObjectId

  /** A stored vehicle. `year` is a string path, not a number. */
  datatype Vehicle = Vehicle(
    userId: UserId,
    brand: string,
    model: string,
    year: string,
    color: string,
    plate: string)

  /** The vehicle fields of a request body, already cast; None for a field
      the body does not supply. */
  datatype VehicleFields = VehicleFields(
    userId: Option<UserId>,
    brand: Option<string>,
    model: Option<string>,
    year: Option<string>,
    color: Option<string>,
    plate: Option<string>)

  const NO_VEHICLE_FIELDS: VehicleFields := VehicleFields(None, None, None, None, None, None)

  predicate HasRequiredFields(f: VehicleFields) {
    && f.userId.Some?
    && PresentText(f.brand)
    && PresentText(f.model)
    && PresentText(f.year)
    && PresentText(f.color)
    && PresentText(f.plate)
  }

  /** What the required validators guarantee of a stored vehicle. */
  predicate ConformsToSchema(v: Vehicle) {
    v.brand != "" && v.model != "" && v.year != "" && v.color != "" && v.plate != ""
  }

  /** `new Vehicle(data)` then the validation part of `save()`. */
  function ValidateVehicle(f: VehicleFields): (r: Option<Vehicle>)
    ensures r.Some? <==> HasRequiredFields(f)
    ensures r.Some? ==> ConformsToSchema(r.value)
  {
    if HasRequiredFields(f) then
      Some(Vehicle(f.userId.value, f.brand.value, f.model.value, f.year.value, f.color.value, f.plate.value))
    else None
  }

  function FieldsOf(v: Vehicle): VehicleFields {
    VehicleFields(Some(v.userId), Some(v.brand), Some(v.model), Some(v.year), Some(v.color), Some(v.plate))
  }

  /** Validation stores exactly the supplied fields, and every conforming
      vehicle is what its own fields validate to. */
  lemma ValidateVehicleRoundTrip(v: Vehicle, f: VehicleFields)
    ensures ConformsToSchema(v) <==> ValidateVehicle(FieldsOf(v)) == Some(v)
    ensures ValidateVehicle(f) == Some(v) ==> FieldsOf(v) == f
  {
  }

  /** Dropping any one required field, the plate included, makes the save
      fail. */
  lemma MissingVehicleFieldRejected(f: VehicleFields)
    ensures ValidateVehicle(f.(userId := None)).None?
    ensures ValidateVehicle(f.(brand := None)).None?
    ensures ValidateVehicle(f.(model := None)).None?
    ensures ValidateVehicle(f.(year := None)).None?
    ensures ValidateVehicle(f.(color := None)).None?
    ensures ValidateVehicle(f.(plate := None)).None?
  {
  }

  /** `runValidators` on an update: the required validators run on the paths
      the update sets, so a supplied string must not be empty. */
  predicate PassesUpdateValidators(p: VehicleFields) {
    && (p.brand.Some? ==> p.brand.value != "")
    && (p.model.Some? ==> p.model.value != "")
    && (p.year.Some? ==> p.year.value != "")
    && (p.color.Some? ==> p.color.value != "")
    && (p.plate.Some? ==> p.plate.value != "")
  }

  /** Every field `p` supplies has the same value in `full`. */
  predicate Covers(full: VehicleFields, p: VehicleFields) {
    && (p.userId.Some? ==> p.userId == full.userId)
    && (p.brand.Some? ==> p.brand == full.brand)
    && (p.model.Some? ==> p.model == full.model)
    && (p.year.Some? ==> p.year == full.year)
    && (p.color.Some? ==> p.color == full.color)
    && (p.plate.Some? ==> p.plate == full.plate)
  }

  /** Every field `p` leaves out has the same value before and after. */
  predicate KeepsUnsupplied(before: VehicleFields, after: VehicleFields, p: VehicleFields) {
    && (p.userId.None? ==> after.userId == before.userId)
    && (p.brand.None? ==> after.brand == before.brand)
    && (p.model.None? ==> after.model == before.model)
    && (p.year.None? ==> after.year == before.year)
    && (p.color.None? ==> after.color == before.color)
    && (p.plate.None? ==> after.plate == before.plate)
  }

  /** The body merged into a stored vehicle: supplied fields overwrite. */
  function MergeVehicle(v: Vehicle, p: VehicleFields): (u: Vehicle)
    ensures Covers(FieldsOf(u), p)
    ensures KeepsUnsupplied(FieldsOf(v), FieldsOf(u), p)
    ensures u == v <==> Covers(FieldsOf(v), p)
    ensures p == NO_VEHICLE_FIELDS ==> u == v
  {
    Vehicle(
      p.userId.GetOr(v.userId), p.brand.GetOr(v.brand), p.model.GetOr(v.model),
      p.year.GetOr(v.year), p.color.GetOr(v.color), p.plate.GetOr(v.plate))
  }

  /** On a conforming vehicle, the update validators pass exactly when the
      merged vehicle conforms: checking only the updated paths loses
      nothing. */
  lemma UpdateValidatorsKeepConformance(v: Vehicle, p: VehicleFields)
    requires ConformsToSchema(v)
    ensures PassesUpdateValidators(p) <==> ConformsToSchema(MergeVehicle(v, p))
  {
  }
}
