/**
 * `GET /api/locations`: the caller's locations, newest first.
 * Auth guard (401), then one `SELECT ... WHERE user_id = caller ORDER BY created_at DESC`
 * whose failure is reported as 500.
 */
module LocationsGet {
  import opened Common
  import opened Tables
  import opened Ordering
  import Db

  const ListFailed: string := "取得地點失敗: "

  /** `WHERE user_id = uid`: the rows of `table` owned by `uid`, in table order. */
  function OwnedBy(table: seq<Location>, uid: UserId): (r: seq<Location>)
    ensures forall l :: multiset(r)[l] == if l.userId == uid then multiset(table)[l] else 0
  {
    if table == [] then []
    else
      assert table == [table[0]] + table[1..];
      var rest := OwnedBy(table[1..], uid);
      if table[0].userId == uid then [table[0]] + rest else rest
  }

  /** The sort key of `ORDER BY created_at DESC`. */
  function NewestFirst(l: Location): int {
    -(l.createdAt as int)
  }

  /**
   * What the query may answer: every location of `uid`, as often as the table holds
   * it, nothing else, and newest first.
   */
  ghost predicate IsListing(table: seq<Location>, uid: UserId, rows: seq<Location>) {
    && (forall l :: multiset(rows)[l] == if l.userId == uid then multiset(table)[l] else 0)
    && NewestFirstOrder(rows)
  }

  /** The handler's answer; `dbError` is the message of the query's failure, if it fails. */
  function ListLocations(user: Option<UserId>, table: seq<Location>, dbError: Option<string>)
    : (r: Response<seq<Location>>)
    // no user: 401 and no query, whatever the database would do
    ensures user.None? ==> r == Unauthorized()
    ensures user.Some? && dbError.Some? ==> r == HttpError(500, ListFailed + dbError.value)
    ensures user.Some? && dbError.None? ==> r.Envelope? && r.success && IsListing(table, user.value, r.data)
  {
    if user.None? then Unauthorized()
    else if dbError.Some? then HttpError(500, ListFailed + dbError.value)
    else
      var rows := SortBy(OwnedBy(table, user.value), NewestFirst);
      assert forall i, j :: 0 <= i < j < |rows| ==> NewestFirst(rows[i]) <= NewestFirst(rows[j]);
      Envelope(true, rows)
  }

  /** A listing holds exactly the caller's locations. */
  lemma ListingMembers(table: seq<Location>, uid: UserId, rows: seq<Location>, l: Location)
    requires IsListing(table, uid, rows)
    ensures l in rows <==> l in table && l.userId == uid
  {
    assert l in rows <==> multiset(rows)[l] > 0;
    assert l in table <==> multiset(table)[l] > 0;
  }

  /** Any two listings of the same table hold the same rows; they can differ only in the order of equal timestamps. */
  lemma ListingsArePermutations(table: seq<Location>, uid: UserId, a: seq<Location>, b: seq<Location>)
    requires IsListing(table, uid, a) && IsListing(table, uid, b)
    ensures multiset(a) == multiset(b)
    ensures forall i :: 0 <= i < |a| ==> a[i].createdAt == b[i].createdAt
  {
    assert forall l :: multiset(a)[l] == multiset(b)[l];
    assert multiset(a) == multiset(b);
    SameTimestamps(a, b);
  }

  /** Timestamps never increase along `rows`. */
  ghost predicate NewestFirstOrder(rows: seq<Location>) {
    forall i, j :: 0 <= i < j < |rows| ==> rows[i].createdAt >= rows[j].createdAt
  }

  /** `rows` without its element at `k`. */
  function RemoveAt(rows: seq<Location>, k: nat): (r: seq<Location>)
    requires k < |rows|
    ensures |r| == |rows| - 1
    ensures forall i :: 0 <= i < |r| ==> r[i] == if i < k then rows[i] else rows[i + 1]
    ensures multiset(r) == multiset(rows) - multiset{rows[k]}
  {
    assert rows == rows[..k] + [rows[k]] + rows[k + 1..];
    rows[..k] + rows[k + 1..]
  }

  lemma RemoveAtKeepsOrder(rows: seq<Location>, k: nat)
    requires k < |rows| && NewestFirstOrder(rows)
    ensures NewestFirstOrder(RemoveAt(rows, k))
  {
    var r := RemoveAt(rows, k);
    forall i, j | 0 <= i < j < |r| ensures r[i].createdAt >= r[j].createdAt {
      assert r[i] == rows[if i < k then i else i + 1];
      assert r[j] == rows[if j < k then j else j + 1];
    }
  }

  /** The first row of a newest-first sequence is at least as new as any of its rows. */
  lemma FirstIsNewest(rows: seq<Location>, x: Location)
    requires NewestFirstOrder(rows) && x in rows
    ensures x.createdAt <= rows[0].createdAt
  {
    var k :| 0 <= k < |rows| && rows[k] == x;
    assert k == 0 || rows[0].createdAt >= rows[k].createdAt;
  }

  /** Two permutations of one another, both sorted newest first, carry the same timestamps position by position. */
  lemma {:induction false} SameTimestamps(a: seq<Location>, b: seq<Location>)
    requires multiset(a) == multiset(b)
    requires NewestFirstOrder(a) && NewestFirstOrder(b)
    ensures |a| == |b|
    ensures forall i :: 0 <= i < |a| ==> a[i].createdAt == b[i].createdAt
  {
    assert |a| == |multiset(a)| == |multiset(b)| == |b|;
    if a != [] {
      // each first row holds the largest timestamp, so the two first rows agree
      assert a[0] in multiset(b) && b[0] in multiset(a);
      FirstIsNewest(a, b[0]);
      FirstIsNewest(b, a[0]);
      var ib :| 0 <= ib < |b| && b[ib] == a[0];
      // drop a's first row from both sides and recur on the rest
      var b' := RemoveAt(b, ib);
      RemoveAtKeepsOrder(b, ib);
      assert a == [a[0]] + a[1..];
      assert multiset(a[1..]) == multiset(b');
      SameTimestamps(a[1..], b');
      SameTimestampsStep(a, b, ib);
    }
  }

  /** The inductive step of SameTimestamps: equal first timestamps plus equal timestamps after removal. */
  lemma SameTimestampsStep(a: seq<Location>, b: seq<Location>, ib: nat)
    requires 0 < |a| == |b| && ib < |b| && NewestFirstOrder(b)
    requires b[ib] == a[0] && a[0].createdAt == b[0].createdAt
    requires forall i :: 0 <= i < |a| - 1 ==> a[1..][i].createdAt == RemoveAt(b, ib)[i].createdAt
    ensures forall i :: 0 <= i < |a| ==> a[i].createdAt == b[i].createdAt
  {
    var b' := RemoveAt(b, ib);
    forall i | 0 < i < |a| ensures a[i].createdAt == b[i].createdAt {
      assert a[i] == a[1..][i - 1];
      assert a[i].createdAt == b'[i - 1].createdAt;
      if i <= ib {
        // b[0..ib] all carry the first timestamp
        assert b[0].createdAt >= b[i - 1].createdAt >= b[i].createdAt >= b[ib].createdAt;
      }
    }
  }

  /**
   * The handler run against the connection table and the database: the handle is
   * fetched only after the auth guard, and nothing is written.
   */
  method GetLocations(pool: Db.ConnectionPool, url: string, db: Database, user: Option<UserId>,
                      dbError: Option<string>)
    returns (resp: Response<seq<Location>>)
    requires pool.Valid()
    modifies pool
    ensures pool.Valid()
    ensures resp == ListLocations(user, db.locations, dbError)
    ensures pool.requested == old(pool.requested) + (if user.Some? then {url} else {})
    ensures forall u :: u in old(pool.connections) ==>
              u in pool.connections && pool.connections[u] == old(pool.connections)[u]
  {
    if user.None? {
      return Unauthorized();
    }
    var sql := pool.UseDb(url);
    resp := ListLocations(user, db.locations, dbError);
  }
}
