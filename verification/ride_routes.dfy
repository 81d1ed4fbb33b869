/** The ride router as a state machine over the ride collection. Each
    handler is one atomic step from a store, the session and the request to
    a status code, the new store and the response payload. */
module RideRoutes {
  import opened Wrappers
  import opened Http
  import opened RideModel

  /** The ride collection: document id to document. */
  type RideStore = map<RideId, Ride>

  datatype RideBody = NoBody | OneRide(ride: Ride) | RideList(rides: RideStore)

  datatype RideReply = RideReply(code: int, store: RideStore, body: RideBody)

  /** The rides `store` holds whose driver is `user`. */
  function DrivenBy(store: RideStore, user: UserId): (found: RideStore)
    ensures found.Keys <= store.Keys
    ensures forall id :: id in found ==> found[id] == store[id] && store[id].driver == user
    ensures forall id :: id in store && store[id].driver == user ==> id in found
  {
    map id | id in store && store[id].driver == user :: store[id]
  }

  // ---------------------------------------------------------------------
  // POST /
  // ---------------------------------------------------------------------

  /** Creates a ride from the body with the session user forced in as its
      driver. `newId` is the ObjectId the driver assigns to the new document;
      an id already in use fails the insert like any other save error. */
  function CreateRide(store: RideStore, session: Session, body: RideFields, newId: RideId): (r: RideReply)
    ensures session.None? ==> r == RideReply(UNAUTHORIZED, store, NoBody)
    ensures r.code in {CREATED, BAD_REQUEST, UNAUTHORIZED}
    ensures r.code != CREATED ==> r.store == store && r.body == NoBody
    ensures r.code == CREATED <==>
              session.Some? && ValidateRide(body.(driver := session)).Some? && newId !in store
    ensures r.code == CREATED ==>
              && r.body.OneRide?
              && r.store == store[newId := r.body.ride]
              && |r.store| == |store| + 1
              && r.body.ride.driver == session.value
              && ConformsToSchema(r.body.ride)
    ensures r.code == CREATED ==> r.body.ride == ValidateRide(body.(driver := session)).value
  {
    match Gate(session)
    case Some(code) => RideReply(code, store, NoBody)
    case None =>
      match ValidateRide(body.(driver := session))
      case None => RideReply(BAD_REQUEST, store, NoBody)
      case Some(ride) =>
        if newId in store then RideReply(BAD_REQUEST, store, NoBody)
        else RideReply(CREATED, store[newId := ride], OneRide(ride))
  }

  /** Whatever driver the body names, the outcome is the one for the
      session user. */
  lemma CreateIgnoresBodyDriver(store: RideStore, user: UserId, body: RideFields, claimed: Option<UserId>, newId: RideId)
    ensures CreateRide(store, Some(user), body.(driver := claimed), newId) == CreateRide(store, Some(user), body, newId)
  {
    assert body.(driver := claimed).(driver := Some(user)) == body.(driver := Some(user));
  }

  // ---------------------------------------------------------------------
  // GET /
  // ---------------------------------------------------------------------

  /** Lists the rides of the logged-in driver. */
  function ListRides(store: RideStore, session: Session): (r: RideReply)
    ensures session.None? ==> r == RideReply(UNAUTHORIZED, store, NoBody)
    ensures session.Some? ==> r == RideReply(OK, store, RideList(DrivenBy(store, session.value)))
  {
    match Gate(session)
    case Some(code) => RideReply(code, store, NoBody)
    case None => RideReply(OK, store, RideList(DrivenBy(store, session.value)))
  }

  /** A ride created by a driver is in that driver's next listing, next to
      exactly the rides listed before. */
  lemma CreatedRideIsListed(store: RideStore, user: UserId, body: RideFields, newId: RideId)
    requires CreateRide(store, Some(user), body, newId).code == CREATED
    ensures var created := CreateRide(store, Some(user), body, newId);
            ListRides(created.store, Some(user)).body.rides
              == ListRides(store, Some(user)).body.rides[newId := created.body.ride]
  {
    var created := CreateRide(store, Some(user), body, newId);
    var after := DrivenBy(created.store, user);
    var expected := DrivenBy(store, user)[newId := created.body.ride];
    assert after.Keys == expected.Keys by {
      forall id | id in after ensures id in expected {
        if id != newId {
          assert created.store[id] == store[id];
        }
      }
      forall id | id in expected ensures id in after {
        if id != newId {
          assert id in store && store[id].driver == user;
        }
      }
    }
    assert forall id :: id in after ==> after[id] == expected[id];
  }

  /** Listings of different drivers never share a ride. */
  lemma ListingsDisjoint(store: RideStore, a: UserId, b: UserId)
    requires a != b
    ensures ListRides(store, Some(a)).body.rides.Keys !! ListRides(store, Some(b)).body.rides.Keys
  {
  }

  // ---------------------------------------------------------------------
  // GET /search
  // ---------------------------------------------------------------------

  /** A query-string parameter: absent, a string, or the array or object
      the query parser builds from repeated or bracketed keys. */
  datatype QueryValue = Absent | Text(text: string) | Structured

  /** The `date` parameter after `Date.parse`: absent or empty, not a date,
      or the instant it denotes. */
  datatype DateQuery = NoDate | Unparseable | OnOrAfter(instant: int)

  /** The equality filter a text parameter contributes: only a non-empty
      string is truthy and filters. */
  function TextFilter(q: QueryValue): Option<string> {
    if q.Text? && q.text != "" then Some(q.text) else None
  }

  /** A ride passes every filter that is in force. Status plays no part. */
  predicate MatchesSearch(ride: Ride, origin: QueryValue, destination: QueryValue, date: DateQuery) {
    && (TextFilter(origin).Some? ==> ride.origin == TextFilter(origin).value)
    && (TextFilter(destination).Some? ==> ride.destination == TextFilter(destination).value)
    && (date.OnOrAfter? ==> ride.date >= date.instant)
  }

  /** Searches rides by exact origin, exact destination and earliest date;
      needs no session. */
  function SearchRides(store: RideStore, origin: QueryValue, destination: QueryValue, date: DateQuery): (r: RideReply)
    ensures r.store == store
    ensures r.code == BAD_REQUEST <==> origin.Structured? || destination.Structured? || date.Unparseable?
    ensures r.code != BAD_REQUEST ==> r.code == OK && r.body.RideList?
    ensures r.code == OK ==>
              && r.body.rides.Keys <= store.Keys
              && (forall id :: id in r.body.rides ==> r.body.rides[id] == store[id])
              && (forall id :: id in store ==> (id in r.body.rides <==> MatchesSearch(store[id], origin, destination, date)))
  {
    if origin.Structured? || destination.Structured? || date.Unparseable? then
      RideReply(BAD_REQUEST, store, NoBody)
    else
      RideReply(OK, store, RideList(map id | id in store && MatchesSearch(store[id], origin, destination, date) :: store[id]))
  }

  /** With no filter in force the search returns the whole collection. */
  lemma SearchWithoutFiltersReturnsAll(store: RideStore)
    ensures SearchRides(store, Absent, Text(""), NoDate) == RideReply(OK, store, RideList(store))
  {
  }

  /** The filters combine by conjunction: the result is the intersection of
      the three single-filter searches. */
  lemma SearchIsIntersection(store: RideStore, origin: QueryValue, destination: QueryValue, date: DateQuery)
    requires !origin.Structured? && !destination.Structured? && !date.Unparseable?
    ensures SearchRides(store, origin, destination, date).body.rides.Keys ==
              SearchRides(store, origin, Absent, NoDate).body.rides.Keys
              * SearchRides(store, Absent, destination, NoDate).body.rides.Keys
              * SearchRides(store, Absent, Absent, date).body.rides.Keys
  {
  }

  /** The search does not look at the status: setting any ride's status to
      "completed" (or anything else) leaves the set of results unchanged. */
  lemma SearchIgnoresStatus(store: RideStore, id: RideId, status: string,
                            origin: QueryValue, destination: QueryValue, date: DateQuery)
    requires id in store
    requires !origin.Structured? && !destination.Structured? && !date.Unparseable?
    ensures SearchRides(store[id := store[id].(status := status)], origin, destination, date).body.rides.Keys
              == SearchRides(store, origin, destination, date).body.rides.Keys
  {
  }

  // ---------------------------------------------------------------------
  // GET /:id
  // ---------------------------------------------------------------------

  /** Fetches one ride; needs no session. A malformed id fails the cast. */
  function GetRide(store: RideStore, id: IdParam): (r: RideReply)
    ensures r.store == store
    ensures id.BadId? ==> r.code == BAD_REQUEST
    ensures id.Id? && id.id !in store ==> r.code == NOT_FOUND
    ensures id.Id? && id.id in store ==> r.code == OK && r.body == OneRide(store[id.id])
  {
    match id
    case BadId => RideReply(BAD_REQUEST, store, NoBody)
    case Id(k) =>
      if k !in store then RideReply(NOT_FOUND, store, NoBody)
      else RideReply(OK, store, OneRide(store[k]))
  }

  // ---------------------------------------------------------------------
  // PUT /:id and DELETE /:id
  // ---------------------------------------------------------------------

  /** The request comes from the driver of an existing ride. */
  predicate IsDriverOf(store: RideStore, session: Session, id: IdParam) {
    session.Some? && id.Id? && id.id in store && store[id.id].driver == session.value
  }

  /** Updates a ride: 401 without a session, 400 for a malformed id, 404 for
      a missing ride, 403 when the session user is not its driver; otherwise
      the body's fields overwrite that ride's, unvalidated. */
  function UpdateRide(store: RideStore, session: Session, id: IdParam, patch: RideFields): (r: RideReply)
    ensures r.code in {OK, BAD_REQUEST, UNAUTHORIZED, NOT_FOUND, FORBIDDEN}
    ensures r.code != OK ==> r.store == store
    ensures r.code == UNAUTHORIZED <==> session.None?
    ensures r.code == BAD_REQUEST <==> session.Some? && id.BadId?
    ensures r.code == NOT_FOUND <==> session.Some? && id.Id? && id.id !in store
    ensures r.code == FORBIDDEN <==>
              session.Some? && id.Id? && id.id in store && store[id.id].driver != session.value
    ensures r.code == OK <==> IsDriverOf(store, session, id)
    ensures r.code == OK ==>
              && r.store == store[id.id := ApplyPatch(store[id.id], patch)]
              && r.body == OneRide(r.store[id.id])
  {
    match Gate(session)
    case Some(code) => RideReply(code, store, NoBody)
    case None =>
      match id
      case BadId => RideReply(BAD_REQUEST, store, NoBody)
      case Id(k) =>
        if k !in store then RideReply(NOT_FOUND, store, NoBody)
        else if store[k].driver != session.value then RideReply(FORBIDDEN, store, NoBody)
        else
          var updated := ApplyPatch(store[k], patch);
          RideReply(OK, store[k := updated], OneRide(updated))
  }

  /** Deletes a ride: 401, 404 and 403 as for an update; a malformed id
      reaches the catch block, which answers 500 here. */
  function DeleteRide(store: RideStore, session: Session, id: IdParam): (r: RideReply)
    ensures r.code in {OK, SERVER_ERROR, UNAUTHORIZED, NOT_FOUND, FORBIDDEN}
    ensures r.code != OK ==> r.store == store
    ensures r.code == UNAUTHORIZED <==> session.None?
    ensures r.code == SERVER_ERROR <==> session.Some? && id.BadId?
    ensures r.code == NOT_FOUND <==> session.Some? && id.Id? && id.id !in store
    ensures r.code == FORBIDDEN <==>
              session.Some? && id.Id? && id.id in store && store[id.id].driver != session.value
    ensures r.code == OK <==> IsDriverOf(store, session, id)
    ensures r.code == OK ==> r.store.Keys == store.Keys - {id.id}
    ensures r.code == OK ==> forall k :: k in r.store ==> r.store[k] == store[k]
  {
    match Gate(session)
    case Some(code) => RideReply(code, store, NoBody)
    case None =>
      match id
      case BadId => RideReply(SERVER_ERROR, store, NoBody)
      case Id(k) =>
        if k !in store then RideReply(NOT_FOUND, store, NoBody)
        else if store[k].driver != session.value then RideReply(FORBIDDEN, store, NoBody)
        else RideReply(OK, store - {k}, NoBody)
  }

  /** After its driver deletes a ride, fetching it answers 404 and the
      driver's listing no longer holds it; after an update, fetching it
      returns the updated ride. */
  lemma DeleteAndUpdateSeenByFetch(store: RideStore, user: UserId, k: RideId, patch: RideFields)
    requires k in store && store[k].driver == user
    ensures GetRide(DeleteRide(store, Some(user), Id(k)).store, Id(k)).code == NOT_FOUND
    ensures k !in ListRides(DeleteRide(store, Some(user), Id(k)).store, Some(user)).body.rides
    ensures GetRide(UpdateRide(store, Some(user), Id(k), patch).store, Id(k)).body
              == OneRide(ApplyPatch(store[k], patch))
  {
  }

  /** The body the ride manager sends to finish a ride. */
  const COMPLETION: RideFields := NO_FIELDS.(status := Some(StatusName(Completed)))

  /** Completing a ride is an update with `{status: 'completed'}`, so only its
      driver may do it; it changes the status and nothing else. */
  lemma CompleteRideByDriver(store: RideStore, session: Session, id: IdParam)
    ensures var r := UpdateRide(store, session, id, COMPLETION);
            r.code == OK ==>
              && ParseStatus(r.store[id.id].status) == Some(Completed)
              && r.store[id.id] == store[id.id].(status := "completed")
    ensures UpdateRide(store, session, id, COMPLETION).code == OK <==> IsDriverOf(store, session, id)
  {
  }

  // ---------------------------------------------------------------------
  // The router as one transition relation
  // ---------------------------------------------------------------------

  datatype RideRequest =
    | Create(body: RideFields, newId: RideId)
    | List
    | Search(origin: QueryValue, destination: QueryValue, date: DateQuery)
    | Fetch(id: IdParam)
    | Update(id: IdParam, patch: RideFields)
    | Remove(id: IdParam)

  /** Dispatches a request to its route handler. Searching and fetching
      read the collection and never write it. */
  function Handle(store: RideStore, session: Session, req: RideRequest): (r: RideReply)
    ensures r.code in {OK, CREATED, BAD_REQUEST, UNAUTHORIZED, FORBIDDEN, NOT_FOUND, SERVER_ERROR}
    ensures req.Search? || req.Fetch? || req.List? ==> r.store == store
    ensures r.store != store ==> session.Some? && (req.Create? || req.Update? || req.Remove?)
  {
    match req
    case Create(body, newId) => CreateRide(store, session, body, newId)
    case List => ListRides(store, session)
    case Search(o, d, t) => SearchRides(store, o, d, t)
    case Fetch(id) => GetRide(store, id)
    case Update(id, patch) => UpdateRide(store, session, id, patch)
    case Remove(id) => DeleteRide(store, session, id)
  }

  /** Without a session, no request changes the collection, and every
      request that needs one is refused with 401. */
  lemma UnauthenticatedNeverWrites(store: RideStore, req: RideRequest)
    ensures Handle(store, None, req).store == store
    ensures req.Create? || req.List? || req.Update? || req.Remove? ==>
              Handle(store, None, req).code == UNAUTHORIZED
  {
  }

  /** A ride already stored is changed or removed only by a request whose
      session user is that ride's driver. */
  lemma ExistingRideChangedOnlyByDriver(store: RideStore, session: Session, req: RideRequest, k: RideId)
    requires k in store
    ensures var after := Handle(store, session, req).store;
            (k !in after || after[k] != store[k]) ==> session == Some(store[k].driver)
  {
    var after := Handle(store, session, req).store;
    if (k !in after || after[k] != store[k]) {
      match req
      case Create(body, newId) =>
        assert false;
      case Update(id, patch) =>
        assert IsDriverOf(store, session, id) && id.id == k;
      case Remove(id) =>
        assert IsDriverOf(store, session, id) && id.id == k;
    }
  }

  /** Id `k` holds the same ride, or none, in both collections. */
  predicate SameAt(before: RideStore, after: RideStore, k: RideId) {
    (k in before <==> k in after) && (k in before ==> after[k] == before[k])
  }

  /** A request changes at most one ride. */
  lemma AtMostOneRideChanges(store: RideStore, session: Session, req: RideRequest, j: RideId, k: RideId)
    requires j != k
    ensures var after := Handle(store, session, req).store;
            SameAt(store, after, j) || SameAt(store, after, k)
  {
  }
}
