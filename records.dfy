/** The rows of one tenant's messages table and the three things the API
    computes from them: the rows of one environment, the newest of those
    (ORDER BY created_at DESC LIMIT n) and the per-tenant statistics. */
module Records {
  import opened Wrappers

  /** An instant of the database clock; only its order matters here. */
  type Timestamp = int

  /** A row of tenant_<x>.messages: the SERIAL id, the client's datetime
      (kept opaque), the environment and the server-assigned insertion time. */
  datatype Record = Record(id: nat, datetime: string, environment: string, createdAt: Timestamp)

  /** The rows `WHERE environment = env`, in stored order: each row of that
      environment as often as it is stored, and no other row. */
  function WithEnvironment(rows: seq<Record>, env: string): (r: seq<Record>)
    ensures forall x :: multiset(r)[x] == if x.environment == env then multiset(rows)[x] else 0
    ensures forall x :: x in r <==> x in rows && x.environment == env
    ensures |r| <= |rows|
  {
    if rows == [] then []
    else
      assert rows == [rows[0]] + rows[1..];
      if rows[0].environment == env then [rows[0]] + WithEnvironment(rows[1..], env)
      else WithEnvironment(rows[1..], env)
  }

  /** No row is newer than the one before it (created_at non-increasing). */
  predicate NewestFirst(rows: seq<Record>) {
    forall i, j :: 0 <= i < j < |rows| ==> rows[j].createdAt <= rows[i].createdAt
  }

  /** A row no older than any row of a newest-first sequence can go in front. */
  lemma ConsNewestFirst(head: Record, rest: seq<Record>)
    requires NewestFirst(rest)
    requires forall y :: y in rest ==> y.createdAt <= head.createdAt
    ensures NewestFirst([head] + rest)
  {
    var r := [head] + rest;
    forall i, j | 0 <= i < j < |r| ensures r[j].createdAt <= r[i].createdAt {
      assert r[j] == rest[j - 1];
      if i > 0 {
        assert r[i] == rest[i - 1];
      }
    }
  }

  /** Puts `x` into a newest-first sequence, keeping it newest-first. */
  function InsertNewestFirst(x: Record, rows: seq<Record>): (r: seq<Record>)
    requires NewestFirst(rows)
    ensures NewestFirst(r)
    ensures forall y :: y in r ==> y == x || y in rows
    ensures multiset(r) == multiset(rows) + multiset{x}
  {
    if rows == [] then [x]
    else if rows[0].createdAt <= x.createdAt then
      ConsNewestFirst(x, rows);
      [x] + rows
    else
      var rest := InsertNewestFirst(x, rows[1..]);
      assert rows == [rows[0]] + rows[1..];
      ConsNewestFirst(rows[0], rest);
      [rows[0]] + rest
  }

  /** ORDER BY created_at DESC: a newest-first permutation of the rows (rows
      with equal created_at may come in any order). */
  function OrderNewestFirst(rows: seq<Record>): (r: seq<Record>)
    ensures NewestFirst(r)
    ensures multiset(r) == multiset(rows)
  {
    if rows == [] then []
    else
      assert rows == [rows[0]] + rows[1..];
      InsertNewestFirst(rows[0], OrderNewestFirst(rows[1..]))
  }

  function Min(a: nat, b: nat): nat {
    if a <= b then a else b
  }

  /** `result` is a page of the newest rows of environment `env`: newest first,
      as long as `limit` allows, drawn from those rows, and no row of that
      environment left out is newer than a row taken. */
  ghost predicate IsNewestPage(result: seq<Record>, rows: seq<Record>, env: string, limit: nat) {
    var candidates := multiset(WithEnvironment(rows, env));
    && NewestFirst(result)
    && |result| == Min(limit, |candidates|)
    && multiset(result) <= candidates
    && forall a, b :: a in result && b in candidates - multiset(result) ==> b.createdAt <= a.createdAt
  }

  /** A newest-first sequence cut after `k` rows: no row after the cut is newer
      than one before it. */
  lemma PrefixIsNewest(sorted: seq<Record>, k: nat)
    requires NewestFirst(sorted) && k <= |sorted|
    ensures multiset(sorted) == multiset(sorted[..k]) + multiset(sorted[k..])
    ensures forall a, b :: a in sorted[..k] && b in multiset(sorted) - multiset(sorted[..k]) ==>
              b.createdAt <= a.createdAt
  {
    assert sorted == sorted[..k] + sorted[k..];
    forall a, b | a in sorted[..k] && b in multiset(sorted) - multiset(sorted[..k])
      ensures b.createdAt <= a.createdAt
    {
      assert b in multiset(sorted[k..]);
      var i :| 0 <= i < k && sorted[i] == a;
      var j :| 0 <= j < |sorted| - k && sorted[k..][j] == b;
      assert sorted[k + j] == b;
    }
  }

  /** SELECT ... WHERE environment = env ORDER BY created_at DESC LIMIT limit. */
  function NewestPage(rows: seq<Record>, env: string, limit: nat): (r: seq<Record>)
    ensures IsNewestPage(r, rows, env, limit)
  {
    var sorted := OrderNewestFirst(WithEnvironment(rows, env));
    var k := Min(limit, |sorted|);
    PrefixIsNewest(sorted, k);
    assert |multiset(sorted)| == |sorted|;
    sorted[..k]
  }

  /** Number of rows with environment `env` (COUNT(*) FILTER (WHERE environment = env)). */
  function CountEnvironment(rows: seq<Record>, env: string): nat {
    |WithEnvironment(rows, env)|
  }

  /** MAX(created_at): None over no rows, otherwise the largest insertion time. */
  function LatestCreated(rows: seq<Record>): (r: Option<Timestamp>)
    ensures r.None? <==> rows == []
    ensures r.Some? ==> exists i :: 0 <= i < |rows| && rows[i].createdAt == r.value
    ensures r.Some? ==> forall i :: 0 <= i < |rows| ==> rows[i].createdAt <= r.value
  {
    if rows == [] then None
    else match LatestCreated(rows[1..])
      case None => Some(rows[0].createdAt)
      case Some(m) =>
        assert exists i :: 0 <= i < |rows[1..]| && rows[1..][i].createdAt == m;
        Some(if m < rows[0].createdAt then rows[0].createdAt else m)
  }

  /** Rows of two different environments are disjoint, so together they are
      never more than all rows. */
  lemma {:induction false} TwoEnvironmentsBounded(rows: seq<Record>, e1: string, e2: string)
    requires e1 != e2
    ensures CountEnvironment(rows, e1) + CountEnvironment(rows, e2) <= |rows|
  {
    if rows != [] {
      TwoEnvironmentsBounded(rows[1..], e1, e2);
      assert rows == [rows[0]] + rows[1..];
    }
  }

  /** The statistics row of GET /api/tenants. */
  datatype Stats = Stats(totalMessages: nat, prodMessages: nat, testMessages: nat, lastMessage: Option<Timestamp>)

  /** `stats` describes `rows`: all rows, the 'prod' and 'test' rows, and the
      latest insertion time (none when there are no rows). */
  ghost predicate IsSummary(stats: Stats, rows: seq<Record>) {
    && stats.totalMessages == |rows|
    && stats.prodMessages == |WithEnvironment(rows, "prod")|
    && stats.testMessages == |WithEnvironment(rows, "test")|
    && (stats.lastMessage.None? <==> rows == [])
    && (stats.lastMessage.Some? ==>
          (exists i :: 0 <= i < |rows| && rows[i].createdAt == stats.lastMessage.value) &&
          forall i :: 0 <= i < |rows| ==> rows[i].createdAt <= stats.lastMessage.value)
  }

  /** The single row that COUNT/FILTER/MAX yields over a table. */
  function Summarize(rows: seq<Record>): (stats: Stats)
    ensures IsSummary(stats, rows)
    ensures stats.prodMessages + stats.testMessages <= stats.totalMessages
  {
    TwoEnvironmentsBounded(rows, "prod", "test");
    Stats(|rows|, CountEnvironment(rows, "prod"), CountEnvironment(rows, "test"), LatestCreated(rows))
  }
}
