/**
 * The two database tables the handlers use, as in-memory sequences of rows. Column
 * values the database fills in itself (ids, creation times, column defaults) reach
 * the model as parameters.
 */
module Tables {
  import opened Common

  /** A row of `locations`. `name` and `address` hold the body values as sent. */
  datatype Location = Location(id: string, userId: UserId, name: Json, address: Json, createdAt: nat)

  /** A row of `schedules`. `locationId` and `note` hold the values as bound into the insert. */
  datatype ScheduleRow = ScheduleRow(
    id: string, userId: UserId, locationId: Json, note: Json, completed: bool, createdAt: nat)

  /** What the database assigns to a new row: its id and its `created_at`. */
  datatype Generated = Generated(id: string, createdAt: nat)

  /** The database's tables. */
  class Database {
    var locations: seq<Location>
    var schedules: seq<ScheduleRow>

    constructor (locations: seq<Location>, schedules: seq<ScheduleRow>)
      ensures this.locations == locations && this.schedules == schedules
    {
      this.locations := locations;
      this.schedules := schedules;
    }
  }

  /** The rows an insert adds: the returned row on success, none otherwise. */
  function Inserted<T>(r: Response<T>): (rows: seq<T>)
    ensures r.Envelope? ==> rows == [r.data]
    ensures !r.Envelope? ==> rows == []
  {
    if r.Envelope? then [r.data] else []
  }
}
