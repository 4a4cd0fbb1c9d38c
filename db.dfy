/**
 * The database access helper: a process-wide table of connection handles, one per
 * connection string, created on first use and kept for the life of the process.
 */
module Db {

  /** A connection handle (the driver's `Sql` object); its identity is the object's. */
  class Sql {
    const url: string

    constructor (url: string)
      ensures this.url == url
    {
      this.url := url;
    }
  }

  /** The module-level `connections` map, with a count of the handles ever created. */
  class ConnectionPool {
    var connections: map<string, Sql>
    var created: nat
    /** Every connection string `UseDb` has been called with. */
    ghost var requested: set<string>

    ghost predicate Valid()
      reads this
    {
      && connections.Keys == requested
      && created == |requested|
      && forall u :: u in connections ==> connections[u].url == u
    }

    constructor ()
      ensures Valid()
      ensures connections == map[] && created == 0 && requested == {}
    {
      connections := map[];
      created := 0;
      requested := {};
    }

    /** `useDb(databaseUrl)`: the handle stored under `url`, created on a miss. */
    method UseDb(url: string) returns (sql: Sql)
      requires Valid()
      modifies this
      ensures Valid()
      ensures requested == old(requested) + {url}
      ensures url in connections && sql == connections[url] && sql.url == url
      ensures url in old(connections) ==>
                sql == old(connections)[url] && connections == old(connections) && created == old(created)
      ensures url !in old(connections) ==>
                fresh(sql) && connections == old(connections)[url := sql] && created == old(created) + 1
      ensures forall u :: u in old(connections) ==> u in connections && connections[u] == old(connections)[u]
    {
      if url in connections {
        return connections[url];
      }
      sql := new Sql(url);
      connections := connections[url := sql];
      created := created + 1;
      requested := requested + {url};
    }
  }

  /** Two calls with the same connection string give back the identical handle. */
  method UseDbTwice(pool: ConnectionPool, url: string) returns (first: Sql, second: Sql)
    requires pool.Valid()
    modifies pool
    ensures pool.Valid()
    ensures url in pool.connections && first == second && first == pool.connections[url]
    ensures pool.created == old(pool.created) + (if url in old(pool.connections) then 0 else 1)
  {
    first := pool.UseDb(url);
    second := pool.UseDb(url);
  }

  /** Handles for different connection strings are different objects. */
  method UseDbDistinct(pool: ConnectionPool, a: string, b: string) returns (ha: Sql, hb: Sql)
    requires pool.Valid()
    requires a != b
    modifies pool
    ensures pool.Valid()
    ensures ha != hb
    ensures pool.requested == old(pool.requested) + {a, b}
  {
    ha := pool.UseDb(a);
    hb := pool.UseDb(b);
  }
}
