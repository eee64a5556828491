/**
 * The ingester: it polls an export directory for `*.json` event files,
 * inserts each event into the `events` table keyed by its unique `event_id`
 * (INSERT OR IGNORE, AUTOINCREMENT id), and then deletes the file, moves it to
 * the processed directory, or quarantines it under `processed/bad`.
 */
module Ingest {
  import opened Wrappers
  import opened PyText
  import opened JsonValue

  // ---------------------------------------------------------------------------
  // Column extraction (_extract_columns)
  // ---------------------------------------------------------------------------

  /** The typed columns of one event row, before they are bound as SQL parameters. */
  datatype Columns = Columns(
    eventId: Json, tsUtc: Json, tsLocal: Json, tsEpochMs: Json,
    host: Json, pid: Json, loop: Json,
    exportCosts: Option<int>, wantPct: Option<int>, wantEnabled: Option<int>,
    reason: Option<string>)

  /** The event's `decision` member when it is an object; any other value counts as an empty object. */
  function DecisionOf(event: Obj): (r: Obj)
    ensures Get(event, "decision").JObj? ==> r == Get(event, "decision").fields
    ensures !Get(event, "decision").JObj? ==> r == []
  {
    var d := Get(event, "decision");
    if d.JObj? then d.fields else []
  }

  /** `int(v) if v is not None else None`; the outer None is the exception int() raises. */
  function IntOrNull(v: Json): (r: Option<Option<int>>)
    ensures v.JNull? ==> r == Some(None)
    ensures !v.JNull? ==> (r.Some? <==> PyInt(v).Some?)
    ensures r.Some? && r.value.Some? ==> PyInt(v) == r.value
  {
    if v.JNull? then Some(None)
    else match PyInt(v)
      case None => None
      case Some(n) => Some(Some(n))
  }

  /**
   * _extract_columns: the provenance members are copied as they are; the
   * decision members are normalised; None is the exception int() raises on a
   * malformed `want_pct` or `want_enabled`. The serialised payload is the event
   * itself (json.dumps is not modelled).
   */
  function ExtractColumns(event: Obj): (r: Option<(Columns, Json)>)
    ensures r.Some? ==> r.value.1 == JObj(event) && r.value.0.eventId == Get(event, "event_id")
    ensures r.None? <==>
      IntOrNull(Get(DecisionOf(event), "want_pct")).None? || IntOrNull(Get(DecisionOf(event), "want_enabled")).None?
    // export_costs: truthy -> 1, falsy but present -> 0, null or absent -> null
    ensures r.Some? ==> r.value.0.exportCosts in {None, Some(0), Some(1)}
    ensures r.Some? ==> (r.value.0.exportCosts == Some(1) <==> Truthy(Get(DecisionOf(event), "export_costs")))
    ensures r.Some? ==> (r.value.0.exportCosts == None <==> Get(DecisionOf(event), "export_costs").JNull?)
    // the provenance members are copied as they are
    ensures r.Some? ==>
      && r.value.0.tsUtc == Get(event, "ts_utc") && r.value.0.tsLocal == Get(event, "ts_local")
      && r.value.0.tsEpochMs == Get(event, "ts_epoch_ms") && r.value.0.host == Get(event, "host")
      && r.value.0.pid == Get(event, "pid") && r.value.0.loop == Get(event, "loop")
    // want_pct and want_enabled: int() of the member, NULL when it is null or absent
    ensures r.Some? ==>
      && Some(r.value.0.wantPct) == IntOrNull(Get(DecisionOf(event), "want_pct"))
      && Some(r.value.0.wantEnabled) == IntOrNull(Get(DecisionOf(event), "want_enabled"))
    // reason: str() of the member, NULL when it is null or absent
    ensures r.Some? ==> (r.value.0.reason.None? <==> Get(DecisionOf(event), "reason").JNull?)
    ensures r.Some? && r.value.0.reason.Some? ==> r.value.0.reason.value == PyStr(Get(DecisionOf(event), "reason"))
    // a decision that is not an object contributes nothing
    ensures !Get(event, "decision").JObj? ==>
      r.Some? && r.value.0.exportCosts.None? && r.value.0.wantPct.None? && r.value.0.wantEnabled.None? && r.value.0.reason.None?
  {
    var decision := DecisionOf(event);
    var exportCosts := Get(decision, "export_costs");
    var reason := Get(decision, "reason");
    match (IntOrNull(Get(decision, "want_pct")), IntOrNull(Get(decision, "want_enabled")))
    case (Some(wantPct), Some(wantEnabled)) =>
      Some((Columns(
        Get(event, "event_id"), Get(event, "ts_utc"), Get(event, "ts_local"), Get(event, "ts_epoch_ms"),
        Get(event, "host"), Get(event, "pid"), Get(event, "loop"),
        if Truthy(exportCosts) then Some(1) else if !exportCosts.JNull? then Some(0) else None,
        wantPct, wantEnabled,
        if reason.JNull? then None else Some(PyStr(reason))), JObj(event)))
    case _ => None
  }

  // ---------------------------------------------------------------------------
  // Binding to SQLite and the events table
  // ---------------------------------------------------------------------------

  /** A value as the sqlite3 module binds it: Python bool is bound as an integer. */
  datatype SqlValue = SqlNull | SqlInt(i: int) | SqlReal(repr: string) | SqlText(s: string)

  const Int64Min: int := -0x8000_0000_0000_0000
  const Int64Max: int := 0x7FFF_FFFF_FFFF_FFFF

  /** Binding a parameter; None is the exception sqlite3 raises for a list, a dict or an int outside 64 bits. */
  function Bind(v: Json): (r: Option<SqlValue>)
    ensures r.None? <==> v.JArr? || v.JObj? || (v.JInt? && !(Int64Min <= v.i <= Int64Max))
  {
    match v
    case JNull => Some(SqlNull)
    case JBool(b) => Some(SqlInt(if b then 1 else 0))
    case JInt(i) => if Int64Min <= i <= Int64Max then Some(SqlInt(i)) else None
    case JFloat(r, _) => Some(SqlReal(r))
    case JStr(s) => Some(SqlText(s))
    case JArr(_) => None
    case JObj(_) => None
  }

  function BindInt(v: Option<int>): Option<SqlValue> {
    match v
    case None => Some(SqlNull)
    case Some(n) => if Int64Min <= n <= Int64Max then Some(SqlInt(n)) else None
  }

  function BindText(v: Option<string>): SqlValue {
    match v
    case None => SqlNull
    case Some(s) => SqlText(s)
  }

  /** The twelve parameters of the INSERT statement. */
  datatype Record = Record(
    eventId: SqlValue, tsUtc: SqlValue, tsLocal: SqlValue, tsEpochMs: SqlValue,
    host: SqlValue, pid: SqlValue, loop: SqlValue,
    exportCosts: SqlValue, wantPct: SqlValue, wantEnabled: SqlValue, reason: SqlValue,
    dataJson: Json)

  /** The seven JSON-valued columns all bind. */
  predicate JsonColumnsBind(c: Columns) {
    && Bind(c.eventId).Some? && Bind(c.tsUtc).Some? && Bind(c.tsLocal).Some? && Bind(c.tsEpochMs).Some?
    && Bind(c.host).Some? && Bind(c.pid).Some? && Bind(c.loop).Some?
  }

  /** The three integer columns all bind. */
  predicate IntColumnsBind(c: Columns) {
    BindInt(c.exportCosts).Some? && BindInt(c.wantPct).Some? && BindInt(c.wantEnabled).Some?
  }

  /**
   * The parameter tuple of the INSERT; None is the exception sqlite3 raises
   * on the first parameter it cannot bind. `reason` is text or NULL and always binds.
   */
  function BindRecord(c: Columns, payload: Json): (r: Option<Record>)
    ensures r.Some? <==> JsonColumnsBind(c) && IntColumnsBind(c)
    ensures r.Some? ==>
      && Bind(c.eventId) == Some(r.value.eventId) && Bind(c.tsUtc) == Some(r.value.tsUtc)
      && Bind(c.tsLocal) == Some(r.value.tsLocal) && Bind(c.tsEpochMs) == Some(r.value.tsEpochMs)
      && Bind(c.host) == Some(r.value.host) && Bind(c.pid) == Some(r.value.pid) && Bind(c.loop) == Some(r.value.loop)
    ensures r.Some? ==>
      && BindInt(c.exportCosts) == Some(r.value.exportCosts) && BindInt(c.wantPct) == Some(r.value.wantPct)
      && BindInt(c.wantEnabled) == Some(r.value.wantEnabled)
      && r.value.reason == BindText(c.reason) && r.value.dataJson == payload
  {
    if JsonColumnsBind(c) && IntColumnsBind(c) then
      Some(Record(Bind(c.eventId).value, Bind(c.tsUtc).value, Bind(c.tsLocal).value, Bind(c.tsEpochMs).value,
                  Bind(c.host).value, Bind(c.pid).value, Bind(c.loop).value,
                  BindInt(c.exportCosts).value, BindInt(c.wantPct).value, BindInt(c.wantEnabled).value,
                  BindText(c.reason), payload))
    else None
  }

  /**
   * The text the UNIQUE `event_id TEXT` column compares: SQLite's TEXT
   * affinity stores an integer (or a bound bool) as its decimal text, so an
   * `event_id` of 5 and one of "5" are the same key.
   */
  function KeyText(v: SqlValue): string {
    match v
    case SqlText(s) => s
    case SqlInt(i) => Decimal(i)
    case SqlReal(r) => r
    case SqlNull => ""
  }

  datatype Row = Row(id: int, key: string, rec: Record)

  /** The `events` table: its rows in insertion order and the next AUTOINCREMENT id. */
  datatype Table = Table(rows: seq<Row>, nextId: int)

  function KeysOf(rows: seq<Row>): set<string> {
    set r | r in rows :: r.key
  }

  /** What the schema guarantees: ids are positive, increase along insertion order and stay below nextId; keys are unique. */
  ghost predicate TableValid(t: Table) {
    && t.nextId >= 1
    && (forall i :: 0 <= i < |t.rows| ==> 1 <= t.rows[i].id < t.nextId)
    && (forall i, j :: 0 <= i < j < |t.rows| ==> t.rows[i].id < t.rows[j].id)
    && (forall i, j :: 0 <= i < j < |t.rows| ==> t.rows[i].key != t.rows[j].key)
  }

  /**
   * INSERT OR IGNORE: a record whose key is already present changes nothing
   * and reports rowcount 0; otherwise exactly one row is appended with the
   * next id.
   */
  function Insert(t: Table, rec: Record): (r: (bool, Table))
    ensures r.0 <==> KeyText(rec.eventId) !in KeysOf(t.rows)
    ensures !r.0 ==> r.1 == t
    ensures r.0 ==> r.1.rows == t.rows + [Row(t.nextId, KeyText(rec.eventId), rec)] && r.1.nextId == t.nextId + 1
  {
    var key := KeyText(rec.eventId);
    if key in KeysOf(t.rows) then (false, t)
    else (true, Table(t.rows + [Row(t.nextId, key, rec)], t.nextId + 1))
  }

  /** The row an insert adds has an id above every existing id, and the table stays well formed. */
  lemma InsertKeepsValid(t: Table, rec: Record)
    requires TableValid(t)
    ensures TableValid(Insert(t, rec).1)
    ensures Insert(t, rec).0 ==> forall i :: 0 <= i < |t.rows| ==> t.rows[i].id < Insert(t, rec).1.rows[|t.rows|].id
  {
    var key := KeyText(rec.eventId);
    if key !in KeysOf(t.rows) {
      forall i | 0 <= i < |t.rows|
        ensures t.rows[i].key != key
      {
        assert t.rows[i] in t.rows;
      }
    }
  }

  // ---------------------------------------------------------------------------
  // One file (_ingest_one)
  // ---------------------------------------------------------------------------

  /** What reading a file gives: a parsed JSON document, or an exception from open/decode/json.load. */
  datatype FileContent = Unreadable | Parsed(doc: Json)

  /**
   * Every check _ingest_one makes before the INSERT, in its order: the root
   * is an object, the columns can be extracted, `event_id` is truthy, and the
   * parameters can be bound. The result is the record to insert.
   */
  function Accepted(content: FileContent): (r: Option<Record>)
    ensures r.Some? ==> content.Parsed? && content.doc.JObj? && Truthy(Get(content.doc.fields, "event_id"))
    ensures r.Some? ==> Bind(Get(content.doc.fields, "event_id")) == Some(r.value.eventId)
    ensures content.Parsed? && content.doc.JObj? ==>
      var cols := ExtractColumns(content.doc.fields);
      (r.Some? <==> cols.Some? && Truthy(Get(content.doc.fields, "event_id")) && BindRecord(cols.value.0, cols.value.1).Some?)
      && (r.Some? ==> r == BindRecord(cols.value.0, cols.value.1))
  {
    if content.Unreadable? || !content.doc.JObj? then None
    else match ExtractColumns(content.doc.fields)
      case None => None
      case Some(cp) =>
        if !Truthy(cp.0.eventId) then None else BindRecord(cp.0, cp.1)
  }

  /**
   * _ingest_one: true exactly when a new row was inserted. `storeOk` says
   * whether conn.execute and conn.commit complete; when either raises
   * (a locked database, a full disk) the exception is caught and the result is false.
   */
  function Ingest(t: Table, content: FileContent, storeOk: bool): (r: (bool, Table))
    ensures r.0 <==> storeOk && Accepted(content).Some? && KeyText(Accepted(content).value.eventId) !in KeysOf(t.rows)
    ensures !r.0 ==> r.1 == t
    ensures r.0 ==>
      r.1 == Table(t.rows + [Row(t.nextId, KeyText(Accepted(content).value.eventId), Accepted(content).value)], t.nextId + 1)
  {
    match Accepted(content)
    case None => (false, t)
    case Some(rec) => if storeOk then Insert(t, rec) else (false, t)
  }

  /** A root that is not an object, or whose event_id is missing or falsy, is rejected and leaves the table alone. */
  lemma RejectsMalformed(t: Table, content: FileContent, storeOk: bool)
    requires content.Parsed? ==> !content.doc.JObj? || !Truthy(Get(content.doc.fields, "event_id"))
    ensures Ingest(t, content, storeOk) == (false, t)
  {
  }

  /** A column value _extract_columns turns into int() that binds: null, or an integer within 64 bits. */
  predicate IntMemberBinds(v: Json) {
    v.JNull? || (v.JInt? && Int64Min <= v.i <= Int64Max)
  }

  /**
   * The converse of RejectsMalformed: an event object whose event_id is a
   * new non-empty text, whose provenance members are scalars that bind and
   * whose want_pct and want_enabled are null or 64-bit integers is inserted,
   * as the next row with that text as its key, when the store does not fail.
   */
  lemma NewEventInserted(t: Table, event: Obj, id: string)
    requires Get(event, "event_id") == JStr(id) && id != "" && id !in KeysOf(t.rows)
    requires Bind(Get(event, "ts_utc")).Some? && Bind(Get(event, "ts_local")).Some?
    requires Bind(Get(event, "ts_epoch_ms")).Some? && Bind(Get(event, "host")).Some?
    requires Bind(Get(event, "pid")).Some? && Bind(Get(event, "loop")).Some?
    requires IntMemberBinds(Get(DecisionOf(event), "want_pct")) && IntMemberBinds(Get(DecisionOf(event), "want_enabled"))
    ensures var r := Ingest(t, Parsed(JObj(event)), true);
      r.0 && |r.1.rows| == |t.rows| + 1 && r.1.rows[|t.rows|].key == id && r.1.rows[|t.rows|].id == t.nextId
  {
    NewEventColumns(event);
    AcceptedSome(event);
    AcceptedKey(event, id);
  }

  /** The columns of such an event are extracted and all bind. */
  lemma NewEventColumns(event: Obj)
    requires Bind(Get(event, "event_id")).Some?
    requires Bind(Get(event, "ts_utc")).Some? && Bind(Get(event, "ts_local")).Some?
    requires Bind(Get(event, "ts_epoch_ms")).Some? && Bind(Get(event, "host")).Some?
    requires Bind(Get(event, "pid")).Some? && Bind(Get(event, "loop")).Some?
    requires IntMemberBinds(Get(DecisionOf(event), "want_pct")) && IntMemberBinds(Get(DecisionOf(event), "want_enabled"))
    ensures var cols := ExtractColumns(event); cols.Some? && JsonColumnsBind(cols.value.0) && IntColumnsBind(cols.value.0)
  {
    IntOrNullBinds(Get(DecisionOf(event), "want_pct"));
    IntOrNullBinds(Get(DecisionOf(event), "want_enabled"));
  }

  /** A null or 64-bit integer member converts and binds. */
  lemma IntOrNullBinds(v: Json)
    requires IntMemberBinds(v)
    ensures IntOrNull(v).Some? && BindInt(IntOrNull(v).value).Some?
  {
  }

  /** Such an event passes every check before the INSERT. */
  lemma AcceptedSome(event: Obj)
    requires Truthy(Get(event, "event_id"))
    requires var cols := ExtractColumns(event); cols.Some? && JsonColumnsBind(cols.value.0) && IntColumnsBind(cols.value.0)
    ensures Accepted(Parsed(JObj(event))).Some?
  {
    var cols := ExtractColumns(event);
    assert BindRecord(cols.value.0, cols.value.1).Some?;
  }

  /** An accepted event whose event_id is the text `id` is keyed by `id`. */
  lemma AcceptedKey(event: Obj, id: string)
    requires Get(event, "event_id") == JStr(id) && Accepted(Parsed(JObj(event))).Some?
    ensures KeyText(Accepted(Parsed(JObj(event))).value.eventId) == id
  {
    var a := Accepted(Parsed(JObj(event)));
    TextKey(a.value.eventId, id);
  }

  /** A bound text is keyed by itself. */
  lemma TextKey(v: SqlValue, id: string)
    requires Bind(JStr(id)) == Some(v)
    ensures KeyText(v) == id
  {
  }

  /**
   * Idempotence on the natural key: after one file is ingested (or not), a
   * second file with the same event_id — same or different payload — is not
   * inserted, and the first-seen row is what the table keeps.
   */
  lemma {:induction false} SameKeyIgnored(t: Table, first: FileContent, second: FileContent, ok1: bool, ok2: bool)
    requires Accepted(first).Some? && Accepted(second).Some?
    requires KeyText(Accepted(first).value.eventId) == KeyText(Accepted(second).value.eventId)
    requires Ingest(t, first, ok1).0 || KeyText(Accepted(first).value.eventId) in KeysOf(t.rows)
    ensures var t1 := Ingest(t, first, ok1).1; Ingest(t1, second, ok2) == (false, t1)
  {
    var key := KeyText(Accepted(first).value.eventId);
    var t1 := Ingest(t, first, ok1).1;
    if Ingest(t, first, ok1).0 {
      assert t1.rows[|t.rows|].key == key;
      assert t1.rows[|t.rows|] in t1.rows;
    }
    assert key in KeysOf(t1.rows);
  }

  /** The events table, updated in place by the single writer connection. */
  class EventStore {
    var rows: seq<Row>
    var keys: set<string>
    var nextId: int

    ghost predicate Valid()
      reads this
    {
      keys == KeysOf(rows) && TableValid(Table(rows, nextId))
    }

    function Snapshot(): Table
      reads this
    {
      Table(rows, nextId)
    }

    /** CREATE TABLE on a fresh database: no rows, AUTOINCREMENT starts at 1. */
    constructor ()
      ensures Valid() && rows == [] && nextId == 1
    {
      rows, keys, nextId := [], {}, 1;
    }

    method InsertOrIgnore(rec: Record) returns (inserted: bool)
      requires Valid()
      modifies this
      ensures Valid()
      ensures (inserted, Snapshot()) == Insert(old(Snapshot()), rec)
    {
      InsertKeepsValid(Snapshot(), rec);
      var key := KeyText(rec.eventId);
      if key in keys {
        return false;
      }
      rows := rows + [Row(nextId, key, rec)];
      keys := keys + {key};
      nextId := nextId + 1;
      return true;
    }
  }

  /** _ingest_one, step by step: each rejected check returns false before the table is touched. */
  method IngestOne(store: EventStore, content: FileContent, storeOk: bool) returns (inserted: bool)
    requires store.Valid()
    modifies store
    ensures store.Valid()
    ensures (inserted, store.Snapshot()) == Ingest(old(store.Snapshot()), content, storeOk)
  {
    if content.Unreadable? {
      return false;
    }
    var event := content.doc;
    if !event.JObj? {
      return false;
    }
    var cols := ExtractColumns(event.fields);
    if cols.None? {
      return false;
    }
    if !Truthy(cols.value.0.eventId) {
      return false;
    }
    var rec := BindRecord(cols.value.0, cols.value.1);
    if rec.None? || !storeOk {
      return false;
    }
    inserted := store.InsertOrIgnore(rec.value);
  }
}
