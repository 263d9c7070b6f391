/** The API's per-tenant message store: a schema per tenant, created lazily,
    holding one messages table whose SERIAL column numbers the rows. POST
    /api/messages provisions and inserts; GET /api/messages and GET
    /api/tenants only read. */
module TenantStore {
  import opened Wrappers
  import opened TenantSchema
  import opened Records

  /** The environment stored when the request body names none. */
  const DefaultEnvironment := "prod"
  /** The page size of GET /api/messages when the query names none. */
  const DefaultLimit: nat := 100
  /** The width of the environment column, VARCHAR(10). */
  const EnvironmentWidth: nat := 10
  /** The largest value a SERIAL (int4) column's sequence hands out. */
  const MaxSerial: nat := 2147483647

  /** A messages table: its rows in insertion order and the last value its
      SERIAL sequence handed out (0 before the first insert). */
  datatype Table = Table(rows: seq<Record>, lastId: nat)

  const EmptyTable := Table([], 0)

  /** Ids are SERIAL values: at least 1, at most the sequence's last value,
      and increasing in insertion order (hence unique); the sequence never
      passes the int4 maximum. */
  predicate TableValid(t: Table) {
    && t.lastId <= MaxSerial
    && (forall i :: 0 <= i < |t.rows| ==> 1 <= t.rows[i].id <= t.lastId)
    && (forall i, j :: 0 <= i < j < |t.rows| ==> t.rows[i].id < t.rows[j].id)
  }

  /** CREATE TABLE IF NOT EXISTS <schema>.messages: an existing table is kept
      as it is, a missing one starts empty, and no other table changes. */
  function Provision(tables: map<string, Table>, schema: string): (r: map<string, Table>)
    ensures r.Keys == tables.Keys + {schema}
    ensures r[schema] == if schema in tables then tables[schema] else EmptyTable
    ensures forall s :: s in tables ==> r[s] == tables[s]
  {
    if schema in tables then tables else tables[schema := EmptyTable]
  }

  /** Whether VARCHAR(10) accepts a value: it fits, or everything past the
      tenth character is a space. */
  predicate EnvironmentFits(environment: string) {
    |environment| <= EnvironmentWidth ||
    forall i :: EnvironmentWidth <= i < |environment| ==> environment[i] == ' '
  }

  /** The value VARCHAR(10) stores: the first ten characters. For a value it
      accepts, only spaces are dropped. */
  function StoredEnvironment(environment: string): (stored: string)
    ensures stored <= environment
    ensures |stored| == Min(EnvironmentWidth, |environment|)
    ensures EnvironmentFits(environment) ==>
              forall i :: |stored| <= i < |environment| ==> environment[i] == ' '
  {
    if |environment| <= EnvironmentWidth then environment else environment[..EnvironmentWidth]
  }

  /** The fields of an accepted POST body. */
  datatype Submission = Submission(datetime: string, environment: string)

  /** A handler's outcome when the database raises: status 500. */
  datatype Result<T> = Ok(value: T) | InternalError

  datatype PostResponse =
    | Created(record: Record)     // 201 with the stored row
    | BadRequest                  // 400 "datetime is required"
    | ServerError                 // 500 "Internal server error"

  /** The body of a 200 reply to GET /api/messages: the rows, and their
      number under `count`, which the reply for a missing schema omits. */
  datatype MessagesReply = MessagesReply(messages: seq<Record>, count: Option<nat>)

  const NoMessages := MessagesReply([], None)

  /** The checks of POST /api/messages before any SQL runs: `datetime` must
      be present and truthy; `environment` falls back to "prod" only when it
      is absent, so a supplied empty string is kept. */
  function ValidateMessage(datetime: Option<string>, environment: Option<string>): (s: Option<Submission>)
    ensures s.None? <==> datetime.None? || datetime.value == ""
    ensures s.Some? ==> s.value.datetime == datetime.value
    ensures s.Some? && environment.None? ==> s.value.environment == DefaultEnvironment
    ensures s.Some? && environment.Some? ==> s.value.environment == environment.value
  {
    match datetime
    case None => None
    case Some(d) => if d == "" then None else Some(Submission(d, environment.GetOr(DefaultEnvironment)))
  }

  /** The reply for an existing table: the newest page of the environment
      and its size. */
  function PageReply(t: Table, environment: string, limit: nat): (reply: MessagesReply)
    ensures IsNewestPage(reply.messages, t.rows, environment, limit)
    ensures reply.count == Some(|reply.messages|)
  {
    var page := NewestPage(t.rows, environment, limit);
    MessagesReply(page, Some(|page|))
  }

  class TenantDatabase {
    /** Schemas that exist (information_schema.schemata), under the names
        PostgreSQL gave them. */
    var schemas: set<string>
    /** The messages table of each schema that has one. */
    var tables: map<string, Table>

    ghost predicate Valid()
      reads this
    {
      && tables.Keys <= schemas
      && (forall s :: s in schemas ==> IsFoldedName(s))
      && (forall s :: s in tables ==> TableValid(tables[s]))
    }

    /** A database with no tenant schema yet. */
    constructor ()
      ensures Valid() && schemas == {} && tables == map[]
    {
      schemas := {};
      tables := map[];
    }

    /** CREATE SCHEMA IF NOT EXISTS, then CREATE TABLE IF NOT EXISTS, both
        under the folded name: on a provisioned tenant nothing changes;
        otherwise an empty table appears. */
    method EnsureTenantStorage(tenantId: string) returns (schema: string)
      requires Valid()
      modifies this
      ensures Valid()
      ensures schema == StorageName(tenantId)
      ensures schemas == old(schemas) + {schema}
      ensures tables == Provision(old(tables), schema)
      ensures schema in old(tables) ==> schemas == old(schemas) && tables == old(tables)
    {
      schema := StorageName(tenantId);
      schemas := schemas + {schema};
      if schema !in tables {
        tables := tables[schema := EmptyTable];
      }
    }

    /** INSERT INTO <schema>.messages ... RETURNING the row: fails when the
        table is missing, VARCHAR(10) refuses the environment or the SERIAL
        sequence is exhausted; otherwise appends one row numbered by the next
        SERIAL value, holding the environment as the column stores it. */
    method InsertMessage(schema: string, datetime: string, environment: string, createdAt: Timestamp)
      returns (res: Result<Record>)
      requires Valid()
      modifies this
      ensures Valid() && schemas == old(schemas)
      ensures res.InternalError? <==>
                || schema !in old(tables)
                || !EnvironmentFits(environment)
                || old(tables)[schema].lastId == MaxSerial
      ensures res.InternalError? ==> tables == old(tables)
      ensures res.Ok? ==>
                && res.value == Record(old(tables)[schema].lastId + 1, datetime, StoredEnvironment(environment), createdAt)
                && tables == old(tables)[schema := Table(old(tables)[schema].rows + [res.value], res.value.id)]
      ensures res.Ok? ==> forall r :: r in old(tables)[schema].rows ==> r.id < res.value.id
    {
      if schema !in tables || !EnvironmentFits(environment) || tables[schema].lastId == MaxSerial {
        return InternalError;
      }
      var t := tables[schema];
      var record := Record(t.lastId + 1, datetime, StoredEnvironment(environment), createdAt);
      tables := tables[schema := Table(t.rows + [record], record.id)];
      res := Ok(record);
    }

    /** POST /api/messages: validate, provision the tenant's storage, insert.
        A rejected request touches nothing; provisioning stays in place even
        when the insert then fails. */
    method PostMessage(tenantId: string, datetime: Option<string>, environment: Option<string>, createdAt: Timestamp)
      returns (resp: PostResponse)
      requires Valid()
      modifies this
      ensures Valid()
      ensures ValidateMessage(datetime, environment).None? ==>
                resp == BadRequest && schemas == old(schemas) && tables == old(tables)
      ensures ValidateMessage(datetime, environment).Some? ==>
                var m, name := ValidateMessage(datetime, environment).value, StorageName(tenantId);
                var provisioned := Provision(old(tables), name);
                var fails := !EnvironmentFits(m.environment) || provisioned[name].lastId == MaxSerial;
                && schemas == old(schemas) + {name}
                && (fails ==> resp == ServerError && tables == provisioned)
                && (!fails ==>
                      && resp == Created(Record(provisioned[name].lastId + 1, m.datetime, StoredEnvironment(m.environment), createdAt))
                      && tables == provisioned[name := Table(provisioned[name].rows + [resp.record], resp.record.id)]
                      && forall r :: r in provisioned[name].rows ==> r.id < resp.record.id)
    {
      var submission := ValidateMessage(datetime, environment);
      if submission.None? {
        return BadRequest;
      }
      var m := submission.value;
      var schema := EnsureTenantStorage(tenantId);
      var inserted := InsertMessage(schema, m.datetime, m.environment, createdAt);
      match inserted
      case Ok(record) => resp := Created(record);
      case InternalError => resp := ServerError;
    }

    /** GET /api/messages, with the existence check on the schema that
        actually holds the tenant's table: no schema means no messages (and
        nothing is created); a schema without its table is a 500; otherwise
        the newest `limit` rows of the environment, newest first, and their
        count. */
    function GetMessages(tenantId: string, environment: Option<string>, limit: Option<nat>): (r: Result<MessagesReply>)
      reads this
      ensures StorageName(tenantId) !in schemas ==> r == Ok(NoMessages)
      ensures r.InternalError? <==> StorageName(tenantId) in schemas && StorageName(tenantId) !in tables
      ensures r.Ok? && StorageName(tenantId) in schemas ==>
                && r.value.count == Some(|r.value.messages|)
                && IsNewestPage(r.value.messages, tables[StorageName(tenantId)].rows,
                                environment.GetOr(DefaultEnvironment), limit.GetOr(DefaultLimit))
    {
      var schema := StorageName(tenantId);
      if schema !in schemas then Ok(NoMessages)
      else if schema !in tables then InternalError
      else Ok(PageReply(tables[schema], environment.GetOr(DefaultEnvironment), limit.GetOr(DefaultLimit)))
    }

    /** GET /api/messages as written: the existence check compares the name
        as the API spells it, cut to 63 characters as a `name` parameter is
        but not folded, while the query reads the folded schema. */
    function GetMessagesAsWritten(tenantId: string, environment: Option<string>, limit: Option<nat>): (r: Result<MessagesReply>)
      reads this
      ensures LookupName(tenantId) !in schemas ==> r == Ok(NoMessages)
    {
      var key, schema := LookupName(tenantId), StorageName(tenantId);
      if key !in schemas then Ok(NoMessages)
      else if schema !in tables then InternalError
      else Ok(PageReply(tables[schema], environment.GetOr(DefaultEnvironment), limit.GetOr(DefaultLimit)))
    }

    /** A tenant whose looked-up name has an upper-case letter never sees a
        message through the written check, while the corrected check
        returns its newest rows. */
    lemma AsWrittenHidesFoldedTenants(tenantId: string, environment: Option<string>, limit: Option<nat>)
      requires Valid()
      requires !IsFoldedName(LookupName(tenantId))
      requires StorageName(tenantId) in tables && limit.GetOr(DefaultLimit) > 0
      requires WithEnvironment(tables[StorageName(tenantId)].rows, environment.GetOr(DefaultEnvironment)) != []
      ensures GetMessagesAsWritten(tenantId, environment, limit) == Ok(NoMessages)
      ensures GetMessages(tenantId, environment, limit).Ok?
      ensures GetMessages(tenantId, environment, limit).value.messages != []
    {
      assert LookupName(tenantId) !in schemas;
    }

    /** For every other tenant the written check and the corrected one agree. */
    lemma AsWrittenAgreesWhenFolded(tenantId: string, environment: Option<string>, limit: Option<nat>)
      requires Valid()
      requires IsFoldedName(LookupName(tenantId))
      ensures GetMessagesAsWritten(tenantId, environment, limit) == GetMessages(tenantId, environment, limit)
    {
      assert StorageName(tenantId) == LookupName(tenantId);
    }

    /** GET /api/tenants: the statistics of the tenant's table, read from the
        folded schema; a tenant never provisioned has no table, and that is
        a 500. */
    function TenantStats(tenantId: string): (r: Result<Stats>)
      reads this
      ensures r.InternalError? <==> StorageName(tenantId) !in tables
      ensures r.Ok? ==> IsSummary(r.value, tables[StorageName(tenantId)].rows)
      ensures r.Ok? ==> r.value.prodMessages + r.value.testMessages <= r.value.totalMessages
    {
      var schema := StorageName(tenantId);
      if schema !in tables then InternalError else Ok(Summarize(tables[schema].rows))
    }
  }

  /** Two rows of one environment are both selected, in stored order. */
  lemma BothSelected(older: Record, newer: Record)
    requires older.environment == newer.environment
    ensures WithEnvironment([older, newer], newer.environment) == [older, newer]
  {
    assert [older, newer][1..] == [newer];
    assert WithEnvironment([newer], newer.environment) == [newer] + WithEnvironment([], newer.environment);
  }

  /** A newest-first page drawn from two rows of different ages, of size two,
      is the newer row followed by the older. */
  lemma OrderedPair(older: Record, newer: Record, page: seq<Record>)
    requires older.createdAt < newer.createdAt
    requires multiset(page) <= multiset{older, newer} && |page| == 2 && NewestFirst(page)
    ensures page == [newer, older]
  {
    var x, y := page[0], page[1];
    assert multiset(page) == multiset{x, y} by {
      assert page == [x, y];
    }
    assert x in multiset(page) && y in multiset(page);
    assert multiset{older, newer}[older] == 1 && multiset{older, newer}[newer] == 1;
    assert multiset{x, y}[x] >= 2 || x != y;
  }

  /** Of two rows of one environment, a page of at least two holds both,
      the newer first. */
  lemma NewestPageOfTwo(older: Record, newer: Record, page: seq<Record>, limit: nat)
    requires older.createdAt < newer.createdAt
    requires older.environment == newer.environment && 2 <= limit
    requires IsNewestPage(page, [older, newer], newer.environment, limit)
    ensures page == [newer, older]
  {
    BothSelected(older, newer);
    OrderedPair(older, newer, page);
  }

  /** A new database after two posts for one tenant, in the default
      environment. */
  method PostTwice(tenantId: string, first: string, second: string, t1: Timestamp, t2: Timestamp)
    returns (db: TenantDatabase)
    requires first != "" && second != ""
    ensures fresh(db) && db.Valid()
    ensures db.schemas == {StorageName(tenantId)}
    ensures db.tables == map[StorageName(tenantId) := Table([Record(1, first, "prod", t1), Record(2, second, "prod", t2)], 2)]
  {
    var schema := StorageName(tenantId);
    var older, newer := Record(1, first, "prod", t1), Record(2, second, "prod", t2);
    db := new TenantDatabase();
    assert ValidateMessage(Some(first), None) == Some(Submission(first, DefaultEnvironment));
    assert ValidateMessage(Some(second), None) == Some(Submission(second, DefaultEnvironment));
    assert StoredEnvironment(DefaultEnvironment) == "prod";
    var r1 := db.PostMessage(tenantId, Some(first), None, t1);
    assert db.tables.Keys == {schema} && db.tables[schema] == Table([older], 1);
    var r2 := db.PostMessage(tenantId, Some(second), None, t2);
    assert db.tables.Keys == {schema} && db.tables[schema] == Table([older, newer], 2);
  }

  /** Two messages posted for a new tenant come back newest first, with
      their count. The check as written returns the same reply when the
      name it looks up has no upper-case letter, and no messages otherwise. */
  method InsertTwiceThenQuery(tenantId: string, first: string, second: string, t1: Timestamp, t2: Timestamp)
    returns (page: Result<MessagesReply>, asWritten: Result<MessagesReply>)
    requires first != "" && second != ""
    requires t1 < t2
    ensures page == Ok(MessagesReply([Record(2, second, "prod", t2), Record(1, first, "prod", t1)], Some(2)))
    ensures IsFoldedName(LookupName(tenantId)) ==> asWritten == page
    ensures !IsFoldedName(LookupName(tenantId)) ==> asWritten == Ok(NoMessages)
  {
    var older, newer := Record(1, first, "prod", t1), Record(2, second, "prod", t2);
    var schema := StorageName(tenantId);
    var db := PostTwice(tenantId, first, second, t1, t2);
    assert schema in db.schemas && db.tables[schema].rows == [older, newer];
    page := db.GetMessages(tenantId, Some("prod"), Some(10));
    NewestPageOfTwo(older, newer, page.value.messages, 10);
    asWritten := db.GetMessagesAsWritten(tenantId, Some("prod"), Some(10));
    if IsFoldedName(LookupName(tenantId)) {
      db.AsWrittenAgreesWhenFolded(tenantId, Some("prod"), Some(10));
    } else {
      assert IsFoldedName(schema);
    }
  }

  /** One 'test' row: one message, none in 'prod', one in 'test', and its
      insertion time is the latest. */
  lemma SummaryOfOneTestRow(row: Record)
    requires row.environment == "test"
    ensures Summarize([row]) == Stats(1, 0, 1, Some(row.createdAt))
  {
    assert [row][1..] == [];
    assert WithEnvironment([row], "prod") == WithEnvironment([], "prod");
    assert WithEnvironment([row], "test") == [row] + WithEnvironment([], "test");
  }

  /** A tenant's statistics fail before its first message and, after one
      'test' message, count that message and report its insertion time. */
  method InsertThenAggregate(tenantId: string, datetime: string, createdAt: Timestamp)
    returns (before: Result<Stats>, after: Result<Stats>)
    requires datetime != ""
    ensures before == InternalError
    ensures after == Ok(Stats(1, 0, 1, Some(createdAt)))
  {
    var schema := StorageName(tenantId);
    var row := Record(1, datetime, "test", createdAt);
    var db := new TenantDatabase();
    before := db.TenantStats(tenantId);
    assert ValidateMessage(Some(datetime), Some("test")) == Some(Submission(datetime, "test"));
    assert StoredEnvironment("test") == "test";
    var posted := db.PostMessage(tenantId, Some(datetime), Some("test"), createdAt);
    assert db.tables[schema] == Table([row], 1);
    SummaryOfOneTestRow(row);
    after := db.TenantStats(tenantId);
  }
}
