/**
 * `POST /api/locations`: create a location owned by the caller.
 * Auth guard (401), then the database handle, then `name`/`address` validation (400),
 * then one insert whose failure is reported as 500.
 */
module LocationsPost {
  import opened Common
  import opened Tables
  import Db

  const MissingFields: string := "缺少必填欄位: name, address"
  const InsertFailed: string := "新增失敗: "

  /** Both required fields were destructured and are truthy. */
  predicate HasRequiredFields(body: Body)
    // an absent field reads as `undefined`, so only an object carrying both fields passes
    ensures HasRequiredFields(body) ==> body.Object? && "name" in body.fields && "address" in body.fields
    ensures HasRequiredFields(body) ==> body.fields["name"] != Null && body.fields["address"] != Null
  {
    && Member(body, "name").Some? && Truthy(Member(body, "name").value)
    && Member(body, "address").Some? && Truthy(Member(body, "address").value)
  }

  /**
   * The handler's answer. `gen` is what the database assigns to the new row and
   * `dbError` the message of the insert's failure, if it fails.
   */
  function CreateLocation(user: Option<UserId>, body: Body, gen: Generated, dbError: Option<string>)
    : (r: Response<Location>)
    // no user: 401, whatever the body holds and whatever the database would do
    ensures user.None? ==> r == Unauthorized()
    // a body that cannot be destructured escapes the handler
    ensures r.Uncaught? <==> user.Some? && Member(body, "name").None?
    // 400 exactly when a user is present and a required field is falsy
    ensures r.HttpError? && r.statusCode == 400 <==>
              user.Some? && Member(body, "name").Some? && !HasRequiredFields(body)
    ensures r.HttpError? && r.statusCode == 400 ==> r.message == MissingFields
    // 500 only from the insert, carrying its message
    ensures r.HttpError? && r.statusCode == 500 <==> user.Some? && HasRequiredFields(body) && dbError.Some?
    ensures r.HttpError? && r.statusCode == 500 ==> r.message == InsertFailed + dbError.value
    ensures r.HttpError? ==> r.statusCode in {400, 401, 500}
    // success: the inserted row, owned by the caller, holding the body's values
    ensures r.Envelope? <==> user.Some? && HasRequiredFields(body) && dbError.None?
    ensures r.Envelope? ==>
              && r.success
              && r.data.userId == user.value
              && r.data.name == Member(body, "name").value
              && r.data.address == Member(body, "address").value
              && r.data.id == gen.id && r.data.createdAt == gen.createdAt
  {
    if user.None? then Unauthorized()
    else
      match (Member(body, "name"), Member(body, "address"))
      case (Some(name), Some(address)) =>
        if !Truthy(name) || !Truthy(address) then HttpError(400, MissingFields)
        else if dbError.Some? then HttpError(500, InsertFailed + dbError.value)
        else Envelope(true, Location(gen.id, user.value, name, address, gen.createdAt))
      case _ => Uncaught
  }

  /**
   * The handler run against the connection table and the database: the handle is
   * fetched right after the auth guard, and the locations table gains the returned
   * row on success and nothing otherwise.
   */
  method PostLocation(pool: Db.ConnectionPool, url: string, db: Database,
                      user: Option<UserId>, body: Body, gen: Generated, dbError: Option<string>)
    returns (resp: Response<Location>)
    requires pool.Valid()
    modifies pool, db
    ensures pool.Valid()
    ensures resp == CreateLocation(user, body, gen, dbError)
    ensures db.locations == old(db.locations) + Inserted(resp)
    ensures db.schedules == old(db.schedules)
    ensures pool.requested == old(pool.requested) + (if user.Some? then {url} else {})
    ensures forall u :: u in old(pool.connections) ==>
              u in pool.connections && pool.connections[u] == old(pool.connections)[u]
  {
    if user.None? {
      return Unauthorized();
    }
    var sql := pool.UseDb(url);
    var name := Member(body, "name");
    var address := Member(body, "address");
    if name.None? || address.None? {
      return Uncaught;
    }
    if !Truthy(name.value) || !Truthy(address.value) {
      return HttpError(400, MissingFields);
    }
    if dbError.Some? {
      return HttpError(500, InsertFailed + dbError.value);
    }
    var row := Location(gen.id, user.value, name.value, address.value, gen.createdAt);
    db.locations := db.locations + [row];
    resp := Envelope(true, row);
  }
}
