# GoodWe export-control helpers: a Dafny model

This project models the sequential core of three Python programs from a home
solar export-control system.

- **The event ingester** (`ingest_to_sqlite.py`). The control loop drops one
  JSON event file per cycle into an export directory. The ingester polls that
  directory. It lists the stable `*.json` files in sorted order and stores
  each event in an SQLite `events` table. That table is keyed by a unique
  `event_id` and has an auto-increment `id`, and events are added with
  `INSERT OR IGNORE`. After storing, the ingester disposes of the file:
  - it unlinks the file;
  - or it moves it to `processed/` (under a `.dup<epoch>` name when that name
    is taken), renaming it in place to `<name>.done` when the move fails;
  - or, when the event was not inserted, it quarantines the file under
    `processed/bad`.
- **The GoodWe Modbus probe helpers** (`goodwe_probe.py`):
  - the signed 16-bit view of a register;
  - `host[:port]` parsing;
  - the candidate wire addresses of a logical register (the 30000/30001
    register-numbering offsets);
  - the best-effort block read, which tries every (wire base, function code)
    pair in a fixed order;
  - the integer parts of the DT and ET runtime decoders.
- **The dashboard server helpers** (`ui_server.py`):
  - its boolean setting;
  - the hop-by-hop header filter of the API proxy, and its stream detection;
  - the `_q_int`/`_q_bool` query readers;
  - the refresh clamp of the index page;
  - the 19-entry summary of the latest event.

Modules:

| file | module | contents |
|---|---|---|
| wrappers.dfy | Wrappers | `Option`, `Result` (with `:-` support) |
| pytext.dfy | PyText | `str.strip`, ASCII `str.lower`, `int(str)` on ASCII digits, `str(int)`, `rfind`, string `<` |
| pydict.dfy | PyDict | a dict built from key/value pairs, where the last value wins |
| json.dfy | JsonValue | JSON values, Python truthiness, `dict.get`, `int(v)`, `str(v)` |
| env.dfy | Env | `_env_int` and the ingester's `_env_bool` |
| ingest.dfy | Ingest | `_extract_columns`, sqlite binding, the `events` table as an insert-or-ignore store (`class EventStore`), `_ingest_one` |
| ingest_loop.dfy | IngestLoop | file names, `_move_processed`, the per-file disposition, one pass of `main` (`class Spool` holds the directories) |
| goodwe_probe.dfy | GoodweProbe | register words, host/port, wire candidates, best-effort reads, DT/ET decoding |
| ui_server.dfy | UiServer | settings, header filter, query readers, refresh, `_extract_display` |

Inputs the programs get from outside become parameters:

- environment variables are `Option<string>`;
- the parsed JSON of a file is a `FileContent`;
- whether the INSERT and its commit complete, whether each `unlink`, move
  and rename succeeds, and the `time.time()` reading, are a `Faults` value
  per file;
- the Modbus device is a function `Device` from (function code, address,
  count) to registers or an error text;
- query parameters and headers are sequences of pairs.

The ingest pass is specified as a left fold, `IngestLoop.Run`, of one step
per file over the sorted listing. The imperative `PollOnce`, which works on
the `EventStore` and `Spool` objects, is proved equal to it.

## Model

| member | source | states |
|---|---|---|
| Env.EnvInt | ingest_to_sqlite.py:19-26 | An unset or empty variable gives the default. A non-empty value that `int()` accepts gives `int()` of it. Text that `int()` rejects gives the default. The server's `_env_int` at ui_server.py:20-27 is the same function. |
| Env.EnvIntDecimal | ingest_to_sqlite.py:19-26 | A variable set to `str(n)` reads back as `n`, whatever the default. |
| Env.IngestEnvBool | ingest_to_sqlite.py:29-33 | Unset or empty gives the default. Any other value is on iff, stripped and lower-cased, it is one of 1/true/yes/y/on. |
| Env.IngestEnvBoolWords | ingest_to_sqlite.py:33 | Each of the five "on" spellings switches the setting on, whatever the default. |
| Env.IngestEnvBoolBlank | ingest_to_sqlite.py:29-33 | A value made only of white space is not empty, so it reads as off, not as the default. |
| Ingest.DecisionOf | ingest_to_sqlite.py:82 | The decision is the event's `decision` object when it is one, and empty otherwise. |
| Ingest.IntOrNull | ingest_to_sqlite.py:97-98 | null maps to NULL. Any other value succeeds iff `int()` accepts it, and then carries `int(v)`. |
| Ingest.ExtractColumns | ingest_to_sqlite.py:81-103 | The payload is the whole event. `event_id` and the six provenance members (`ts_utc`, `ts_local`, `ts_epoch_ms`, `host`, `pid`, `loop`) are copied as they are. Extraction fails (Python raises) iff `want_pct` or `want_enabled` is neither null nor convertible; otherwise each is `int()` of the member, or NULL when it is null. `reason` is NULL iff the member is null, and `str()` of it otherwise. `export_costs` is 1 iff truthy, NULL iff null, and 0 otherwise. A non-object `decision` gives NULL in all four decision columns. |
| Ingest.Bind | ingest_to_sqlite.py:117-138 | A parameter cannot be bound (the insert raises) iff it is a list, an object, or an integer outside the signed 64-bit range. |
| Ingest.BindRecord | ingest_to_sqlite.py:117-138 | The parameters bind iff each of the seven JSON-valued columns and the three integer columns binds. Each field of the record is then its column bound, `reason` is text or NULL, and `data_json` is the payload. |
| Ingest.KeyText | ingest_to_sqlite.py:49 | Defines the text the UNIQUE `event_id TEXT` column compares: a text as itself, and an integer or bound bool as its decimal text. `SameKeyIgnored` and `NewEventInserted` state what this key decides. |
| Ingest.Insert | ingest_to_sqlite.py:45-63 | INSERT OR IGNORE on the UNIQUE key: it reports an insert iff the key is new. An ignored insert leaves the table as it was. An insert appends exactly one row with id `nextId` and advances `nextId`. |
| Ingest.InsertKeepsValid | ingest_to_sqlite.py:48-49 | Insert keeps ids positive, increasing and below `nextId`, and keys unique. The new row's id is greater than every existing id. |
| Ingest.Accepted | ingest_to_sqlite.py:107-138 | A record is accepted only from a parsed JSON object with a truthy `event_id`. For a parsed object it is accepted iff its columns can be extracted, its `event_id` is truthy and its parameters bind, and the record is then those bound parameters. The record's key is that `event_id`, bound. |
| Ingest.Ingest | ingest_to_sqlite.py:106-142 | The result is true iff the INSERT and commit complete, the record was accepted and its key is new. Then exactly that row is appended with id `nextId`, and `nextId` advances. Otherwise the table is unchanged. |
| Ingest.RejectsMalformed | ingest_to_sqlite.py:110-115 | An unreadable file, a non-object root, or a missing or falsy `event_id` returns false and leaves the table unchanged. |
| Ingest.NewEventInserted | ingest_to_sqlite.py:106-142 | An event object whose `event_id` is a new non-empty text, whose provenance members bind, and whose `want_pct` and `want_enabled` are null or 64-bit integers, is inserted when the store does not fail. It becomes the next row, keyed by that text, with id `nextId`. |
| Ingest.SameKeyIgnored | ingest_to_sqlite.py:117-140 | Once an event's key is stored (it was just inserted, or it was already there), a second event with the same key returns false and changes nothing, so the first-seen payload is kept. |
| Ingest.EventStore.constructor | ingest_to_sqlite.py:45-63 | The table starts empty with next id 1, and the store invariant holds. |
| Ingest.EventStore.InsertOrIgnore | ingest_to_sqlite.py:117-140 | Changes the stored rows and counter exactly as `Insert` does, returns `rowcount == 1`, and keeps the key set equal to the keys of the rows. |
| Ingest.IngestOne | ingest_to_sqlite.py:106-142 | `_ingest_one` on the store, with the store's failure as an input: its result and the new table are those of `Ingest`. |
| IngestLoop.DupName | ingest_to_sqlite.py:150 | Defines the duplicate name `stem + ".dup" + str(epoch) + suffix`, with pathlib's stem and suffix. `DupNameOfJson` states its form for event files. |
| IngestLoop.DupNameOfJson | ingest_to_sqlite.py:147-150 | For `x.json` the duplicate name is `x.dup<epoch>.json`. It differs from the original and still ends in `.json`. |
| IngestLoop.DoneNeverListed | ingest_to_sqlite.py:194 | `name + ".done"` never matches `*.json`, so a file renamed in place is not listed again. |
| IngestLoop.BatchUnique | ingest_to_sqlite.py:175 | The sorted listing of a directory is unique. |
| IngestLoop.SortedSameSet | ingest_to_sqlite.py:175 | Two strictly sorted lists of the same names are equal. |
| IngestLoop.Moved | ingest_to_sqlite.py:145-151 | The move succeeds iff the filesystem allows it and the source is a file. The file leaves the export directory and lands in `processed/` (or `processed/bad`) under its own name, or under its duplicate name when that name is taken. On failure nothing changes. |
| IngestLoop.Unlinked | ingest_to_sqlite.py:184-187 | The file is gone unless the unlink fails. The processed directories are untouched. |
| IngestLoop.RenamedDone | ingest_to_sqlite.py:193-196 | On success the file keeps its content under `name.done`. On failure nothing changes. |
| IngestLoop.Dispose | ingest_to_sqlite.py:182-202 | Defines the disposition branch: unlink when inserted and delete is on; otherwise move to `processed/`, then rename to `.done` if that fails; quarantine when not inserted. `StepDisposition` and `StepFrame` state its outcomes. |
| IngestLoop.Step | ingest_to_sqlite.py:180-202 | Defines one iteration of the `for` loop as `_ingest_one` followed by `Dispose`. `HandleFile` is proved equal to it. |
| IngestLoop.Run | ingest_to_sqlite.py:180-202 | Defines a pass as the files handled in order, one `Step` each. `PollOnce` is proved equal to it, and `RunAppends` states what it does to the table. |
| IngestLoop.StepDisposition | ingest_to_sqlite.py:180-202 | For a listed file, the whole new directory state is given in each of six cases: unlinked (or left) with delete on; moved into `processed/`; renamed to `.done` after a failed move; left after both fail; quarantined into `processed/bad`; left after a failed quarantine. Each case leaves every other directory as it was. |
| IngestLoop.DuplicateQuarantined | ingest_to_sqlite.py:197-202 | A file whose `event_id` is already stored is not inserted and does not change the table. It is quarantined to `processed/bad`, never filed in `processed/`. |
| IngestLoop.FailedUnlinkThenQuarantined | ingest_to_sqlite.py:183-202 | When unlinking an inserted file fails, the file is still listed on the next pass with the same content. It is then a duplicate: the table does not change, `processed/` is untouched, and the file is moved into `processed/bad` under its target name, or everything is left as it was when that move fails. |
| IngestLoop.StepFrame | ingest_to_sqlite.py:180-202 | Handling one file touches no other name of the export directory except its `.done` marker. |
| IngestLoop.IngestExtends | ingest_to_sqlite.py:181 | Ingesting one file, whether or not the store fails, keeps the table invariant (ids increasing, keys unique) and at most appends rows. Rows already there stay unchanged. |
| IngestLoop.RunAppends | ingest_to_sqlite.py:180-181 | Over a pass the table keeps its invariant and only has rows appended (`Extends`). Earlier rows are kept as they were. |
| IngestLoop.Spool.ListBatch | ingest_to_sqlite.py:175 | Returns the `*.json` regular files of the export directory, strictly sorted, each once. |
| IngestLoop.Spool.Unlink | ingest_to_sqlite.py:184-187 | The directories become `Unlinked` of the old ones. |
| IngestLoop.Spool.MoveProcessed | ingest_to_sqlite.py:145-151 | The result and the new directories are those of `Moved`. |
| IngestLoop.Spool.RenameDone | ingest_to_sqlite.py:193-196 | The result and the new directories are those of `RenamedDone`. |
| IngestLoop.SleepSeconds | ingest_to_sqlite.py:176-178 | The sleep is `max(0.2, poll)` after an empty listing and `max(0.1, poll)` (line 204) after a pass that handled files: at least both, and equal to one of them. |
| IngestLoop.HandleFile | ingest_to_sqlite.py:181-202 | One iteration of the `for` loop changes the table and directories exactly as `Step`. |
| IngestLoop.PollOnce | ingest_to_sqlite.py:173-204 | One pass handles the sorted listing of the old directory in order, leaving the world `Run` specifies. It then sleeps `SleepSeconds`. |
| GoodweProbe.Low16 | goodwe_probe.py:9 | `u & 0xFFFF` lies in [0, 65535] and is congruent to `u` mod 65536. |
| GoodweProbe.U16ToI16 | goodwe_probe.py:8-10 | The result lies in [-32768, 32767] and is congruent to `u` mod 65536. It is `u & 0xFFFF` below 0x8000, and that value minus 0x10000 otherwise. |
| GoodweProbe.I16Unique | goodwe_probe.py:8-10 | The result is the only value of the signed 16-bit range that is congruent to `u`. |
| GoodweProbe.I16RoundTrip | goodwe_probe.py:8-10 | Every signed 16-bit value is read back from its own 16-bit pattern. |
| GoodweProbe.SplitHostPort | goodwe_probe.py:13-21 | The input is trimmed. With no colon, or a leading `[`, it is the host and the port is 502. Otherwise the split is at the last colon, and the port is `int()` of the rest, or 502 when `int()` rejects it. |
| GoodweProbe.SplitJoinHostPort | goodwe_probe.py:13-21 | Splitting `host + ":" + str(port)` gives back the host and port, even when the host has colons, unless the host starts with white space or `[`. |
| GoodweProbe.SplitNoPort | goodwe_probe.py:14-21 | With no colon or a leading bracket, the result is (the trimmed text, 502). |
| GoodweProbe.WireCandidates | goodwe_probe.py:44-57 | Defines the candidate wire addresses by register range. `WireCandidatesShape` and `CandidateWireAddrs` state its properties and its agreement with the source's loop. |
| GoodweProbe.WireCandidatesShape | goodwe_probe.py:44-57 | The candidates strictly decrease, so there are no duplicates. None is negative, and the register comes first when it is not negative. Every element is one of reg, reg-30000, reg-30001. Each offset is present iff reg ≥ 30000, resp. ≥ 30001. |
| GoodweProbe.CandidateWireAddrs | goodwe_probe.py:44-57 | The loop that skips negative and already-listed addresses returns exactly the candidate list. |
| GoodweProbe.FilteredCandidates | goodwe_probe.py:46-57 | Dropping negatives from the raw list [reg, reg-30000, reg-30001] gives the candidate table. |
| GoodweProbe.FnOrder | goodwe_probe.py:98-102 | Both function codes are tried, and they differ. Holding comes first iff `prefer_fn` is "holding"; otherwise input comes first. |
| GoodweProbe.WireBases | goodwe_probe.py:89-97 | Defines the order of wire bases: the hinted base when non-negative, then the candidates not equal to it. `WireBasesShape` and `BuildWireBases` state its properties. |
| GoodweProbe.WireBasesShape | goodwe_probe.py:89-97 | Every base tried is non-negative. The bases are exactly the hinted base and the candidates, with the hinted base first when it is non-negative. |
| GoodweProbe.BuildWireBases | goodwe_probe.py:89-97 | The loop builds the hinted base followed by the candidates not already listed. |
| GoodweProbe.TryFunctions | goodwe_probe.py:106-122 | At one wire base both functions are tried in order. The first that answers is attempt 2i or 2i+1 of the whole order, and earlier attempts all failed. When both fail, `last_err` is the later failure's message. |
| GoodweProbe.TryBases | goodwe_probe.py:104-123 | The nested loops return the answer of the first attempt in (base, function) order that succeeds, with its base and function. When none succeeds, every attempt failed and `last_err` is the message of the last one, or unset when no attempt was made. |
| GoodweProbe.ReadBlockBestEffort | goodwe_probe.py:76-123 | On success, the registers come from the first attempt in (base, function) order that answers. `meta` names that base and function, and `delta == logical_base - wire_base`. On failure every attempt failed, and `err` is the last error, or "unknown error" when there was none or it was empty. |
| GoodweProbe.FoundWhereExpected | goodwe_probe.py:113-121 | The base where a block is found is non-negative. It is the logical base, one of its two offsets, or the hinted base. |
| GoodweProbe.FirstAttemptWins | goodwe_probe.py:104-113 | With no hint and a device that answers the preferred function at the logical address, the first attempt is the one that succeeds. |
| GoodweProbe.ReadU16BestEffort | goodwe_probe.py:126-144 | A value is the first register of the first successful read, masked to [0, 65535], with that read's meta. A failure passes the failure meta through. An empty answer block is the IndexError case. |
| GoodweProbe.RegAt | goodwe_probe.py:148-152 | `at`/`u16_at` succeeds iff the address lies in [base, base+len), with the register masked to 16 bits. Otherwise it names the address (IndexError). |
| GoodweProbe.ShiftOrIsAdd | goodwe_probe.py:195 | For two 16-bit words, `(hi << 16) \| lo == hi*65536 + lo`. |
| GoodweProbe.U32At | goodwe_probe.py:191-195 | Succeeds iff both registers are in the block. The result is `(hi & 0xFFFF)*65536 + (lo & 0xFFFF)`, in [0, 2^32). Otherwise it names the address. |
| GoodweProbe.DtDecode | goodwe_probe.py:147-169 | Defines `_dt_decode` in register units. `DtDecodeFailure`, `DtDecodeRange` and `DtDecodeValues` state when it fails and what it returns. |
| GoodweProbe.DtDecodeFailure | goodwe_probe.py:147-169 | `_dt_decode` raises iff one of its required reads is outside the block, and it names the first such address in evaluation order. The string-3 reads may fail. |
| GoodweProbe.DtDecodeRange | goodwe_probe.py:147-169 | `_dt_decode` succeeds iff the block covers 30103 through 30141. |
| GoodweProbe.DtDecodeValues | goodwe_probe.py:154-169 | The string readings are the masked registers. The PV estimate is `vpv1*ipv1 + vpv2*ipv2 + vpv3*ipv3` in those units (hundredths of a watt) and is non-negative. Generation and temperature are the signed 16-bit readings. |
| GoodweProbe.EtDecode | goodwe_probe.py:184-205 | Defines `_et_decode` in register units. `EtDecodeFailure`, `EtDecodeRange` and `EtDecodeValues` state when it fails and what it returns. |
| GoodweProbe.EtDecodeFailure | goodwe_probe.py:184-205 | `_et_decode` raises iff one of its reads is outside the block, and it names the first such address. |
| GoodweProbe.EtDecodeRange | goodwe_probe.py:184-205 | `_et_decode` succeeds iff the block covers 35105 through 35176. |
| GoodweProbe.EtDecodeValues | goodwe_probe.py:197-205 | `pv_est_w` is the sum of the four unsigned 32-bit powers and is ≥ 0. `gen_w`, `feed_w` and the temperature are signed 16-bit values. |
| UiServer.UiEnvBool | ui_server.py:30-32 | Defines the server's `_env_bool`: the value, or the default text when unset, stripped and lower-cased, is one of the five "on" words. The four lemmas below state its behaviour. |
| UiServer.UiEnvBoolVersusIngest | ui_server.py:30-32 | On every value but one set to "", the server's `_env_bool` agrees with the ingester's, with the ingester's default taken as the server's reading of an unset variable. |
| UiServer.UiEnvBoolEmptyIsOff | ui_server.py:30-32 | A variable set to "" is off for the server, while the ingester falls back to its default. |
| UiServer.UiEnvBoolWords | ui_server.py:30-32 | Each of 1/true/yes/y/on switches the setting on, whatever the default. |
| UiServer.UiEnvBoolDefaultOn | ui_server.py:65 | An unset variable with default "1", as for `UI_PROXY_API`, is on. |
| UiServer.FilterHeaders | ui_server.py:88-96 | A header is kept, under its original spelling, iff its lower-cased name is not hop-by-hop. A repeated name keeps its last value. |
| UiServer.HopByHopAnyCase | ui_server.py:74-96 | A hop-by-hop name is dropped in any letter case. |
| UiServer.WantStream | ui_server.py:131-132 | Defines stream detection: an `sse/` path, or an Accept header containing `text/event-stream` after lower-casing. `WantStreamCaseInsensitive` states its properties. |
| UiServer.WantStreamCaseInsensitive | ui_server.py:131-132 | Stream detection ignores the case of the Accept header. Every `sse/` path streams, even with no Accept header. |
| UiServer.QIntFirstUsable | ui_server.py:35-47 | The first name present with a non-blank value decides: its integer, or the default when it is not one, without trying later names. |
| UiServer.QIntNoneUsable | ui_server.py:35-47 | With no name present with a non-blank value, the result is the default. |
| UiServer.QInt | ui_server.py:35-47 | The loop with its early returns computes `QIntOf`. |
| UiServer.OnOffDisjoint | ui_server.py:55-58 | No spelling is both "on" and "off". |
| UiServer.QBoolFirstPresent | ui_server.py:50-61 | The first name present decides. It is False iff its trimmed, lower-cased value is 0/false/no/n/off, and True otherwise (an on spelling, an unknown value, or a blank one). |
| UiServer.QBoolAbsent | ui_server.py:50-61 | With no name present, the result is the default. |
| UiServer.QBoolBare | ui_server.py:59-60 | A parameter present with an empty value is True. |
| UiServer.QBool | ui_server.py:50-61 | The loop with its early returns computes `QBoolOf`. |
| UiServer.QIntWithDefault | ui_server.py:1475-1477 | With an integer default, `_q_int` never returns None. |
| UiServer.IndexRefresh | ui_server.py:1475-1481 | The refresh period always lies in [0, 3600]. It is the requested value when that is in range, 0 below, and 3600 above. The configured default stands in when the value is missing or invalid. |
| UiServer.RefreshAsked | ui_server.py:1475 | `?refresh=n` requests exactly n. |
| UiServer.MetaRefresh | ui_server.py:1510-1512 | A meta-refresh tag is emitted iff the period is > 0, and then it carries the period. |
| UiServer.DashesEverywhere | ui_server.py:233-255 | With no latest event, every one of the 19 entries is "-". |
| UiServer.Fmt | ui_server.py:266-269 | Defines `_fmt`: null as "-", anything else as `str(v)` followed by the unit. `FmtNullDash` states this. |
| UiServer.FmtNullDash | ui_server.py:266-269 | `_fmt` shows null as "-", and any other value ending with its unit. |
| UiServer.WriteText | ui_server.py:284-287 | Defines the write entry of the summary. `WriteTrichotomy` states its three cases. |
| UiServer.WriteTrichotomy | ui_server.py:284-287 | The write entry is "ok" iff a write was attempted and succeeded. It is "not attempted" iff none was attempted. Otherwise it is exactly "failed: " followed by the formatted `write_error`, which is "failed: -" when there is none. |
| UiServer.ExtractDisplay | ui_server.py:232-305 | No event, or an empty one, gives all "-". Otherwise it succeeds iff every nested value it reads is a dict (or falsy); on failure the error names the first value that is not. Each of the 19 entries is stated, including `export_costs` from truthiness and `want_limit` with its `target_w` form and the fallback to the row's `want_pct`. |
| UiServer.FieldNamesDistinct | ui_server.py:233-253 | The 19 summary keys are distinct. |

## Left out

- Floating point.
  - Voltages, currents and the DT temperature are divided by 10.0 (goodwe_probe.py:154-169, 204). The model keeps them as integer register units.
  - The DT `int(round(...))` of the PV estimate is kept as the exact integer sum of products in hundredths of a watt.
  - `_env_float` and the probe's `_env_int` (`int(float(...))`) are not modelled.
  - `--poll` is a `real`, and `float()` parsing of it is not modelled.
- GoodweProbe.DtDecodeValues: states raw tenths, and the PV estimate as the exact sum of products in hundredths of a watt before rounding, not the float volts, amperes, degrees and rounded watts of the source.
- GoodweProbe.EtDecodeValues: states the temperature in raw tenths, not divided by 10.0.
- `goodwe_probe.main`, `_try_read_input`/`_try_read_holding` and the `control.GoodWeModbus` device are replaced by the `Device` function. Its error text stands for `str(e)`. The `debug` printing is left out.
- JSON parsing and `json.dumps`: a file's content is given as already parsed (`FileContent`), and the payload stored is the event value itself.
- Float values print as the text they carry: `str(v)` of a float is not computed. `str()` of lists and objects is approximated, since string escaping inside `repr` is not modelled.
- SQLite:
  - connection setup, pragmas and indexes are left out;
  - the unused `event_notes` table is left out;
  - a failing `execute` or `commit` is an input (`Faults.storeOk`) that makes `_ingest_one` return false with the table unchanged. After a failed `commit` the inserted row in fact stays pending in the open transaction, and a later commit stores it; that pending row is not modelled;
  - `close` is left out;
  - column affinities other than the key's TEXT affinity are left out;
  - the ingester and the server run concurrently against one database, which is not modelled.
- The filesystem:
  - `mkdir` is left out;
  - races between listing and reading are left out, except that a missing file reads as unreadable;
  - cross-device `shutil.move` details are left out;
  - `time.time()` is a parameter.
- IngestLoop.PollOnce: models one iteration of the `while True` loop. Running forever, `KeyboardInterrupt` and the argument parsing of `main` are left out.
- PyText.ParseInt (and through it Ingest.IntOrNull, Env.EnvInt, UiServer.QInt and GoodweProbe.SplitHostPort) models `int()` on ASCII digits only, for two reasons:
  - Python also accepts the decimal digits of other scripts, such as a fullwidth "５". The model rejects them, so a `want_pct` written that way makes the model quarantine an event that Python stores.
  - Python 3.11 and later raise `ValueError` for text with more than 4300 digits (a limit set at run time). The model converts any length, so a `?refresh=` of 5000 digits is clamped in the model where Python falls back to the default.
- `str.lower()` is modelled on ASCII letters only. Python also lowers other Unicode letters, which affects header names and setting values written with such letters.
- No deduplication signature, retention or slimming, note upsert, or WAL checkpoint exists in these programs, so the model has none.
- A failed quarantine leaves the file in the export directory with no marker, so every later pass reads it again. The model states this (`StepDisposition`, the `!inserted && !f.moveOk` case) rather than a marker.
- ui_server.py:
  - the HTML, JavaScript and templates (ui_server.py:308-1464) are left out;
  - `proxy_api` forwarding, the `httpx` client and SSE relaying (ui_server.py:99-175) are left out;
  - the database reads in `_load_latest_and_recent` are left out;
  - `_html_escape` (a library call) is left out.
- UiServer.ExtractDisplay: the summary dictionary is a record with one entry per fixed key (`Summary`), with `Field.Name` giving each key. `_extract_display` is not total: a truthy nested value that is not a dict makes it raise `AttributeError`, and the model returns that as a failure.
- Starlette's header and query containers are ordered pair lists with last-value lookup. Starlette's own case-insensitive header lookup is not modelled.
