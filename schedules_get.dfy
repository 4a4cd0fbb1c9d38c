/**
 * `GET /api/schedules`: the caller's schedules with their location's name and address,
 * oldest first. Auth guard (401), then one
 * `SELECT ... FROM schedules JOIN locations ON schedules.location_id = locations.id
 *  WHERE schedules.user_id = caller ORDER BY schedules.created_at ASC`
 * whose failure is reported as 500.
 */
module SchedulesGet {
  import opened Common
  import opened Tables
  import opened Ordering
  import Db

  const ListFailed: string := "取得行程失敗: "

  /** A row of the query's answer: the selected schedule columns and the location's name and address. */
  datatype ScheduleView = ScheduleView(
    id: string, locationId: Json, note: Json, completed: bool, createdAt: nat, name: Json, address: Json)

  /** The answer row for schedule `s` joined with location `l`. */
  function Joined(s: ScheduleRow, l: Location): (v: ScheduleView)
    ensures v.id == s.id && v.locationId == s.locationId && v.note == s.note
    ensures v.completed == s.completed && v.createdAt == s.createdAt
    ensures v.name == l.name && v.address == l.address
  {
    ScheduleView(s.id, s.locationId, s.note, s.completed, s.createdAt, l.name, l.address)
  }

  /** The join condition `schedules.location_id = locations.id`. */
  predicate Matches(s: ScheduleRow, l: Location)
    // only a string `location_id` joins, and only with the location of that id
    ensures !s.locationId.Str? ==> !Matches(s, l)
    ensures Matches(s, l) ==> s.locationId.s == l.id
  {
    s.locationId == Str(l.id)
  }

  /** How many rows of `locations` schedule `s` matches. */
  function CountMatches(s: ScheduleRow, locations: seq<Location>): nat {
    if locations == [] then 0
    else (if Matches(s, locations[0]) then 1 else 0) + CountMatches(s, locations[1..])
  }

  /** How many rows the join yields: the matches of each schedule of `uid`, summed. */
  function JoinSize(schedules: seq<ScheduleRow>, locations: seq<Location>, uid: UserId): nat {
    if schedules == [] then 0
    else (if schedules[0].userId == uid then CountMatches(schedules[0], locations) else 0)
         + JoinSize(schedules[1..], locations, uid)
  }

  /** How many rows of `locations` schedule `s` matches with answer row `v`. */
  function CountJoined(s: ScheduleRow, locations: seq<Location>, v: ScheduleView): nat {
    if locations == [] then 0
    else (if Matches(s, locations[0]) && Joined(s, locations[0]) == v then 1 else 0)
         + CountJoined(s, locations[1..], v)
  }

  /** The answer rows for one schedule: one per location it matches, in table order. */
  function JoinOne(s: ScheduleRow, locations: seq<Location>): (r: seq<ScheduleView>)
    ensures forall v :: v in r <==> exists l :: l in locations && Matches(s, l) && v == Joined(s, l)
    ensures |r| == CountMatches(s, locations)
    ensures forall v :: multiset(r)[v] == CountJoined(s, locations, v)
  {
    if locations == [] then []
    else
      assert locations == [locations[0]] + locations[1..];
      var rest := JoinOne(s, locations[1..]);
      if Matches(s, locations[0]) then [Joined(s, locations[0])] + rest else rest
  }

  /**
   * The inner join of the caller's schedules with all locations, before ordering.
   * The locations are not filtered by owner.
   */
  function JoinOwned(schedules: seq<ScheduleRow>, locations: seq<Location>, uid: UserId)
    : (r: seq<ScheduleView>)
    ensures forall v :: v in r <==>
              exists s, l :: s in schedules && s.userId == uid && l in locations && Matches(s, l) && v == Joined(s, l)
    ensures |r| == JoinSize(schedules, locations, uid)
  {
    if schedules == [] then []
    else
      assert schedules == [schedules[0]] + schedules[1..];
      var rest := JoinOwned(schedules[1..], locations, uid);
      if schedules[0].userId == uid then JoinOne(schedules[0], locations) + rest else rest
  }

  /** The sort key of `ORDER BY schedules.created_at ASC`. */
  function OldestFirst(v: ScheduleView): int {
    v.createdAt
  }

  /** The handler's answer; `dbError` is the message of the query's failure, if it fails. */
  function ListSchedules(user: Option<UserId>, schedules: seq<ScheduleRow>, locations: seq<Location>,
                         dbError: Option<string>)
    : (r: Response<seq<ScheduleView>>)
    // no user: 401 and no query, whatever the database would do
    ensures user.None? ==> r == Unauthorized()
    ensures user.Some? && dbError.Some? ==> r == HttpError(500, ListFailed + dbError.value)
    ensures user.Some? && dbError.None? ==> r.Envelope? && r.success
    // the rows are the join's rows, each as often as the join yields it ...
    ensures r.Envelope? ==> multiset(r.data) == multiset(JoinOwned(schedules, locations, user.value))
    ensures r.Envelope? ==> |r.data| == JoinSize(schedules, locations, user.value)
    // ... that is, exactly the caller's schedules paired with every location they reference ...
    ensures r.Envelope? ==> forall v :: v in r.data <==>
              exists s, l :: s in schedules && s.userId == user.value && l in locations && Matches(s, l)
                             && v == Joined(s, l)
    // ... oldest first
    ensures r.Envelope? ==> forall i, j :: 0 <= i < j < |r.data| ==> r.data[i].createdAt <= r.data[j].createdAt
  {
    if user.None? then Unauthorized()
    else if dbError.Some? then HttpError(500, ListFailed + dbError.value)
    else
      var joined := JoinOwned(schedules, locations, user.value);
      var rows := SortBy(joined, OldestFirst);
      assert forall v :: v in rows <==> v in joined by {
        forall v ensures v in rows <==> v in joined {
          SortByMembers(joined, OldestFirst, v);
        }
      }
      Envelope(true, rows)
  }

  /** No two rows of `schedules` share an id (the table's primary key). */
  ghost predicate UniqueIds(schedules: seq<ScheduleRow>) {
    forall a, b :: a in schedules && b in schedules && a.id == b.id ==> a == b
  }

  /** No two rows of `locations` share an id (the table's primary key). */
  ghost predicate UniqueLocationIds(locations: seq<Location>) {
    forall i, j :: 0 <= i < |locations| && 0 <= j < |locations| && locations[i].id == locations[j].id ==> i == j
  }

  /** With the primary key on `locations.id`, the join yields at most one row per schedule. */
  lemma {:induction false} AtMostOneMatch(s: ScheduleRow, locations: seq<Location>)
    requires UniqueLocationIds(locations)
    ensures CountMatches(s, locations) <= 1
    ensures CountMatches(s, locations) == 1 <==> exists l :: l in locations && Matches(s, l)
  {
    if locations != [] {
      var rest := locations[1..];
      assert UniqueLocationIds(rest) by {
        forall i, j | 0 <= i < |rest| && 0 <= j < |rest| && rest[i].id == rest[j].id ensures i == j {
          assert locations[i + 1] == rest[i] && locations[j + 1] == rest[j];
        }
      }
      AtMostOneMatch(s, rest);
      if Matches(s, locations[0]) {
        forall l | l in rest ensures !Matches(s, l) {
          var k :| 0 <= k < |rest| && rest[k] == l;
          assert locations[k + 1] == l;
        }
      }
      assert locations == [locations[0]] + rest;
    }
  }

  /**
   * Inner join: a schedule whose `location_id` matches no location yields no row at all.
   */
  lemma UnmatchedScheduleOmitted(schedules: seq<ScheduleRow>, locations: seq<Location>, uid: UserId,
                                 s: ScheduleRow)
    requires s in schedules && UniqueIds(schedules)
    requires forall l :: l in locations ==> !Matches(s, l)
    ensures var r := ListSchedules(Some(uid), schedules, locations, None);
            forall v :: v in r.data ==> v.id != s.id
  {
    var r := ListSchedules(Some(uid), schedules, locations, None);
    forall v | v in r.data ensures v.id != s.id {
      var s', l :| s' in schedules && s'.userId == uid && l in locations && Matches(s', l) && v == Joined(s', l);
      assert s' != s;
    }
  }

  /**
   * A schedule of the caller that references an existing location is listed with that
   * location's name and address, whoever owns the location.
   */
  lemma MatchedScheduleListed(schedules: seq<ScheduleRow>, locations: seq<Location>, uid: UserId,
                              s: ScheduleRow, l: Location)
    requires s in schedules && s.userId == uid && l in locations && Matches(s, l)
    ensures var r := ListSchedules(Some(uid), schedules, locations, None);
            exists v :: v in r.data && v.id == s.id && v.name == l.name && v.address == l.address
  {
    var r := ListSchedules(Some(uid), schedules, locations, None);
    assert Joined(s, l) in r.data;
  }

  /**
   * The handler run against the connection table and the database: the handle is
   * fetched only after the auth guard, and nothing is written.
   */
  method GetSchedules(pool: Db.ConnectionPool, url: string, db: Database, user: Option<UserId>,
                      dbError: Option<string>)
    returns (resp: Response<seq<ScheduleView>>)
    requires pool.Valid()
    modifies pool
    ensures pool.Valid()
    ensures resp == ListSchedules(user, db.schedules, db.locations, dbError)
    ensures pool.requested == old(pool.requested) + (if user.Some? then {url} else {})
    ensures forall u :: u in old(pool.connections) ==>
              u in pool.connections && pool.connections[u] == old(pool.connections)[u]
  {
    if user.None? {
      return Unauthorized();
    }
    var sql := pool.UseDb(url);
    resp := ListSchedules(user, db.schedules, db.locations, dbError);
  }
}
