/**
 * `POST /api/schedules`: add a visit to one of the caller's plans.
 * Auth guard (401), `location_id` validation (400), then the database handle and one
 * insert whose failure is reported as 500. The `note` is stored as `note || null`.
 */
module SchedulesPost {
  import opened Common
  import opened Tables
  import Db
  import SchedulesGet

  const MissingLocationId: string := "缺少必填欄位: location_id"
  const InsertFailed: string := "新增行程失敗: "

  /** `location_id` was destructured and is truthy. */
  predicate HasLocationId(body: Body)
    // an absent field reads as `undefined`, so only an object carrying the field passes
    ensures HasLocationId(body) ==> body.Object? && "location_id" in body.fields
    ensures HasLocationId(body) ==> body.fields["location_id"] !in {Null, Bool(false), Num(0), Str([])}
  {
    Member(body, "location_id").Some? && Truthy(Member(body, "location_id").value)
  }

  /**
   * The handler's answer. `gen` is what the database assigns to the new row,
   * `completedDefault` the `completed` column's default, and `dbError` the message
   * of the insert's failure, if it fails. The locations table is not an input: the
   * referenced location is not looked up, whoever owns it.
   */
  function CreateSchedule(user: Option<UserId>, body: Body, gen: Generated, completedDefault: bool,
                          dbError: Option<string>)
    : (r: Response<ScheduleRow>)
    ensures user.None? ==> r == Unauthorized()
    ensures r.Uncaught? <==> user.Some? && Member(body, "location_id").None?
    ensures r.HttpError? && r.statusCode == 400 <==>
              user.Some? && Member(body, "location_id").Some? && !HasLocationId(body)
    ensures r.HttpError? && r.statusCode == 400 ==> r.message == MissingLocationId
    ensures r.HttpError? && r.statusCode == 500 <==> user.Some? && HasLocationId(body) && dbError.Some?
    ensures r.HttpError? && r.statusCode == 500 ==> r.message == InsertFailed + dbError.value
    ensures r.HttpError? ==> r.statusCode in {400, 401, 500}
    ensures r.Envelope? <==> user.Some? && HasLocationId(body) && dbError.None?
    ensures r.Envelope? ==>
              && r.success
              && r.data.userId == user.value
              && r.data.locationId == Member(body, "location_id").value
              && (Truthy(Member(body, "note").value) ==> r.data.note == Member(body, "note").value)
              && (!Truthy(Member(body, "note").value) ==> r.data.note == Null)
              && r.data.completed == completedDefault
              && r.data.id == gen.id && r.data.createdAt == gen.createdAt
  {
    if user.None? then Unauthorized()
    else
      match (Member(body, "location_id"), Member(body, "note"))
      case (Some(locationId), Some(note)) =>
        if !Truthy(locationId) then HttpError(400, MissingLocationId)
        else if dbError.Some? then HttpError(500, InsertFailed + dbError.value)
        else Envelope(true, ScheduleRow(gen.id, user.value, locationId, OrNull(note), completedDefault,
                                        gen.createdAt))
      case _ => Uncaught
  }

  /**
   * The handler run against the connection table and the database: the handle is
   * fetched only once the body has passed validation, and the schedules table gains
   * the returned row on success and nothing otherwise.
   */
  method PostSchedule(pool: Db.ConnectionPool, url: string, db: Database,
                      user: Option<UserId>, body: Body, gen: Generated, completedDefault: bool,
                      dbError: Option<string>)
    returns (resp: Response<ScheduleRow>)
    requires pool.Valid()
    modifies pool, db
    ensures pool.Valid()
    ensures resp == CreateSchedule(user, body, gen, completedDefault, dbError)
    ensures db.schedules == old(db.schedules) + Inserted(resp)
    ensures db.locations == old(db.locations)
    ensures pool.requested == old(pool.requested) + (if user.Some? && HasLocationId(body) then {url} else {})
    ensures forall u :: u in old(pool.connections) ==>
              u in pool.connections && pool.connections[u] == old(pool.connections)[u]
  {
    if user.None? {
      return Unauthorized();
    }
    var locationId := Member(body, "location_id");
    var note := Member(body, "note");
    if locationId.None? || note.None? {
      return Uncaught;
    }
    if !Truthy(locationId.value) {
      return HttpError(400, MissingLocationId);
    }
    var sql := pool.UseDb(url);
    if dbError.Some? {
      return HttpError(500, InsertFailed + dbError.value);
    }
    var row := ScheduleRow(gen.id, user.value, locationId.value, OrNull(note.value), completedDefault,
                           gen.createdAt);
    db.schedules := db.schedules + [row];
    resp := Envelope(true, row);
  }

  /**
   * A schedule may reference a location owned by someone else: the insert succeeds,
   * and the caller's schedule listing then shows that location's name and address.
   */
  method OtherOwnersLocationAccepted(pool: Db.ConnectionPool, url: string, db: Database, uid: UserId,
                                     other: Location, gen: Generated, completedDefault: bool)
    returns (resp: Response<ScheduleRow>)
    requires pool.Valid()
    requires other in db.locations && other.userId != uid && other.id != []
    modifies pool, db
    ensures resp.Envelope? && resp.data.userId == uid && resp.data.locationId == Str(other.id)
    ensures db.schedules == old(db.schedules) + [resp.data]
    ensures var listed := SchedulesGet.ListSchedules(Some(uid), db.schedules, db.locations, None);
            exists v :: v in listed.data && v.id == gen.id && v.name == other.name && v.address == other.address
  {
    resp := PostSchedule(pool, url, db, Some(uid), Object(map["location_id" := Str(other.id)]), gen,
                         completedDefault, None);
    SchedulesGet.MatchedScheduleListed(db.schedules, db.locations, uid, resp.data, other);
  }
}
