/** The vehicle router as a state machine over the vehicle collection.
    Unlike the ride router, listing needs no session, and a vehicle owned by
    someone else is reported exactly like a missing one (404, never 403). */
module VehicleRoutes {
  import opened Wrappers
  import opened Http
  import opened VehicleModel

  type VehicleStore = map<VehicleId, Vehicle>

  datatype VehicleBody = NoBody | OneVehicle(vehicle: Vehicle) | VehicleList(vehicles: VehicleStore)

  datatype VehicleReply = VehicleReply(code: int, store: VehicleStore, body: VehicleBody)

  /** The unique index on `plate`: no two documents share a plate. */
  predicate PlatesUnique(store: VehicleStore) {
    forall j, k :: j in store && k in store && j != k ==> store[j].plate != store[k].plate
  }

  /** Every stored vehicle satisfies the schema's required validators. */
  predicate AllConform(store: VehicleStore) {
    forall k :: k in store ==> ConformsToSchema(store[k])
  }

  /** Some document other than `self` already holds `plate`. */
  predicate PlateTaken(store: VehicleStore, plate: string, self: Option<VehicleId>) {
    exists k :: k in store && Some(k) != self && store[k].plate == plate
  }

  // ---------------------------------------------------------------------
  // POST /
  // ---------------------------------------------------------------------

  /** Creates a vehicle from the body with the session user forced in as its
      owner. The save fails on a missing field, on an id already in use and
      on a plate the unique index already holds. */
  function CreateVehicle(store: VehicleStore, session: Session, body: VehicleFields, newId: VehicleId): (r: VehicleReply)
    ensures session.None? ==> r == VehicleReply(UNAUTHORIZED, store, NoBody)
    ensures r.code in {CREATED, BAD_REQUEST, UNAUTHORIZED}
    ensures r.code != CREATED ==> r.store == store && r.body == NoBody
    ensures r.code == CREATED <==>
              && session.Some?
              && ValidateVehicle(body.(userId := session)).Some?
              && newId !in store
              && !PlateTaken(store, body.plate.value, None)
    ensures r.code == CREATED ==>
              && r.body.OneVehicle?
              && r.store == store[newId := r.body.vehicle]
              && r.body.vehicle.userId == session.value
              && ConformsToSchema(r.body.vehicle)
    ensures r.code == CREATED ==> r.body.vehicle == ValidateVehicle(body.(userId := session)).value
    ensures PlatesUnique(store) ==> PlatesUnique(r.store)
  {
    match Gate(session)
    case Some(code) => VehicleReply(code, store, NoBody)
    case None =>
      match ValidateVehicle(body.(userId := session))
      case None => VehicleReply(BAD_REQUEST, store, NoBody)
      case Some(vehicle) =>
        if newId in store || PlateTaken(store, vehicle.plate, None) then
          VehicleReply(BAD_REQUEST, store, NoBody)
        else
          VehicleReply(CREATED, store[newId := vehicle], OneVehicle(vehicle))
  }

  /** Whatever owner the body names, the outcome is the one for the session
      user. */
  lemma CreateIgnoresBodyOwner(store: VehicleStore, user: UserId, body: VehicleFields, claimed: Option<UserId>, newId: VehicleId)
    ensures CreateVehicle(store, Some(user), body.(userId := claimed), newId) == CreateVehicle(store, Some(user), body, newId)
  {
    assert body.(userId := claimed).(userId := Some(user)) == body.(userId := Some(user));
  }

  // ---------------------------------------------------------------------
  // GET /
  // ---------------------------------------------------------------------

  /** Lists the vehicles whose owner is the session user. There is no gate:
      without a session the filter matches no stored vehicle. */
  function ListVehicles(store: VehicleStore, session: Session): (r: VehicleReply)
    ensures r.code == OK && r.store == store && r.body.VehicleList?
    ensures r.body.vehicles.Keys <= store.Keys
    ensures forall k :: k in r.body.vehicles ==> r.body.vehicles[k] == store[k]
    ensures forall k :: k in store ==> (k in r.body.vehicles <==> Some(store[k].userId) == session)
  {
    VehicleReply(OK, store, VehicleList(map k | k in store && Some(store[k].userId) == session :: store[k]))
  }

  lemma ListWithoutSessionIsEmpty(store: VehicleStore)
    ensures ListVehicles(store, None) == VehicleReply(OK, store, VehicleList(map[]))
  {
  }

  // ---------------------------------------------------------------------
  // PUT /:id and DELETE /:id
  // ---------------------------------------------------------------------

  /** `findOne({ _id: id, userId })`: the vehicle exists and the session user
      owns it. */
  predicate OwnsVehicle(store: VehicleStore, session: Session, id: IdParam) {
    session.Some? && id.Id? && id.id in store && store[id.id].userId == session.value
  }

  /** Updates a vehicle: 401 without a session, 400 for a malformed id, 404
      unless the session user owns an existing vehicle with that id, 400
      when the update validators or the plate index refuse the merge;
      otherwise the body is merged into that vehicle. */
  function UpdateVehicle(store: VehicleStore, session: Session, id: IdParam, patch: VehicleFields): (r: VehicleReply)
    ensures r.code in {OK, BAD_REQUEST, UNAUTHORIZED, NOT_FOUND}
    ensures r.code != OK ==> r.store == store
    ensures r.code == UNAUTHORIZED <==> session.None?
    ensures r.code == NOT_FOUND <==> session.Some? && id.Id? && !OwnsVehicle(store, session, id)
    ensures r.code == OK <==>
              && OwnsVehicle(store, session, id)
              && PassesUpdateValidators(patch)
              && !PlateTaken(store, MergeVehicle(store[id.id], patch).plate, Some(id.id))
    ensures r.code == OK ==>
              && r.store == store[id.id := MergeVehicle(store[id.id], patch)]
              && r.body == OneVehicle(r.store[id.id])
    ensures PlatesUnique(store) ==> PlatesUnique(r.store)
    ensures AllConform(store) ==> AllConform(r.store)
  {
    match Gate(session)
    case Some(code) => VehicleReply(code, store, NoBody)
    case None =>
      match id
      case BadId => VehicleReply(BAD_REQUEST, store, NoBody)
      case Id(k) =>
        if k !in store || store[k].userId != session.value then VehicleReply(NOT_FOUND, store, NoBody)
        else
          var merged := MergeVehicle(store[k], patch);
          if !PassesUpdateValidators(patch) || PlateTaken(store, merged.plate, Some(k)) then
            VehicleReply(BAD_REQUEST, store, NoBody)
          else
            VehicleReply(OK, store[k := merged], OneVehicle(merged))
  }

  /** Deletes a vehicle: 401, 400 and 404 as for an update; otherwise
      exactly that vehicle is removed. */
  function DeleteVehicle(store: VehicleStore, session: Session, id: IdParam): (r: VehicleReply)
    ensures r.code in {OK, BAD_REQUEST, UNAUTHORIZED, NOT_FOUND}
    ensures r.code != OK ==> r.store == store
    ensures r.code == UNAUTHORIZED <==> session.None?
    ensures r.code == BAD_REQUEST <==> session.Some? && id.BadId?
    ensures r.code == NOT_FOUND <==> session.Some? && id.Id? && !OwnsVehicle(store, session, id)
    ensures r.code == OK <==> OwnsVehicle(store, session, id)
    ensures r.code == OK ==> r.store.Keys == store.Keys - {id.id}
    ensures r.code == OK ==> forall k :: k in r.store ==> r.store[k] == store[k]
  {
    match Gate(session)
    case Some(code) => VehicleReply(code, store, NoBody)
    case None =>
      match id
      case BadId => VehicleReply(BAD_REQUEST, store, NoBody)
      case Id(k) =>
        if k !in store || store[k].userId != session.value then VehicleReply(NOT_FOUND, store, NoBody)
        else VehicleReply(OK, store - {k}, NoBody)
  }

  /** After its owner deletes a vehicle, the owner's listing no longer holds
      it; after a successful update, the listing shows the merged vehicle. */
  lemma DeleteAndUpdateSeenByList(store: VehicleStore, user: UserId, k: VehicleId, patch: VehicleFields)
    requires k in store && store[k].userId == user
    ensures k !in ListVehicles(DeleteVehicle(store, Some(user), Id(k)).store, Some(user)).body.vehicles
    ensures var r := UpdateVehicle(store, Some(user), Id(k), patch);
            r.code == OK && patch.userId.None? ==>
              ListVehicles(r.store, Some(user)).body.vehicles[k] == MergeVehicle(store[k], patch)
  {
  }

  /** A vehicle of another user and a missing vehicle get the same answer
      and leave the collection alone. */
  lemma ForeignVehicleLooksMissing(store: VehicleStore, user: UserId, k: VehicleId, missing: VehicleId, patch: VehicleFields)
    requires k in store && store[k].userId != user && missing !in store
    ensures UpdateVehicle(store, Some(user), Id(k), patch) == UpdateVehicle(store, Some(user), Id(missing), patch)
    ensures DeleteVehicle(store, Some(user), Id(k)) == DeleteVehicle(store, Some(user), Id(missing))
    ensures UpdateVehicle(store, Some(user), Id(k), patch) == VehicleReply(NOT_FOUND, store, NoBody)
  {
  }

  // ---------------------------------------------------------------------
  // The router as one transition relation
  // ---------------------------------------------------------------------

  datatype VehicleRequest =
    | Create(body: VehicleFields, newId: VehicleId)
    | List
    | Update(id: IdParam, patch: VehicleFields)
    | Remove(id: IdParam)

  /** Dispatches a request to its route handler. Listing never writes. */
  function Handle(store: VehicleStore, session: Session, req: VehicleRequest): (r: VehicleReply)
    ensures r.code in {OK, CREATED, BAD_REQUEST, UNAUTHORIZED, NOT_FOUND}
    ensures req.List? ==> r.store == store
    ensures r.store != store ==> session.Some? && !req.List?
  {
    match req
    case Create(body, newId) => CreateVehicle(store, session, body, newId)
    case List => ListVehicles(store, session)
    case Update(id, patch) => UpdateVehicle(store, session, id, patch)
    case Remove(id) => DeleteVehicle(store, session, id)
  }

  /** The collection invariants hold after every request: plates stay
      unique and every vehicle keeps its required fields. */
  lemma HandlePreservesInvariants(store: VehicleStore, session: Session, req: VehicleRequest)
    requires PlatesUnique(store) && AllConform(store)
    ensures PlatesUnique(Handle(store, session, req).store)
    ensures AllConform(Handle(store, session, req).store)
  {
    match req
    case Create(body, newId) =>
      var r := CreateVehicle(store, session, body, newId);
      if r.code == CREATED {
        forall k | k in r.store ensures ConformsToSchema(r.store[k]) {
          if k != newId {
            assert r.store[k] == store[k];
          }
        }
      }
    case List =>
    case Update(id, patch) =>
    case Remove(id) =>
  }

  /** Every run of requests from a valid collection keeps the invariants. */
  lemma {:induction false} RunPreservesInvariants(store: VehicleStore, steps: seq<(Session, VehicleRequest)>)
    requires PlatesUnique(store) && AllConform(store)
    ensures PlatesUnique(Run(store, steps)) && AllConform(Run(store, steps))
    decreases |steps|
  {
    if steps != [] {
      HandlePreservesInvariants(store, steps[0].0, steps[0].1);
      RunPreservesInvariants(Handle(store, steps[0].0, steps[0].1).store, steps[1..]);
    }
  }

  /** The collection after a run of requests, each one atomic. */
  function Run(store: VehicleStore, steps: seq<(Session, VehicleRequest)>): VehicleStore
    decreases |steps|
  {
    if steps == [] then store
    else Run(Handle(store, steps[0].0, steps[0].1).store, steps[1..])
  }

  /** Without a session, no request changes the collection. */
  lemma UnauthenticatedNeverWritesVehicles(store: VehicleStore, req: VehicleRequest)
    ensures Handle(store, None, req).store == store
    ensures !req.List? ==> Handle(store, None, req).code == UNAUTHORIZED
  {
  }

  /** A vehicle already stored is changed or removed only by a request from
      its owner. */
  lemma ExistingVehicleChangedOnlyByOwner(store: VehicleStore, session: Session, req: VehicleRequest, k: VehicleId)
    requires k in store
    ensures var after := Handle(store, session, req).store;
            (k !in after || after[k] != store[k]) ==> session == Some(store[k].userId)
  {
  }
}
