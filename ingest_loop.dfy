/**
 * The ingester's poll loop: list the `*.json` regular files of the export
 * directory in sorted order, ingest each, and dispose of it — unlink, move to
 * the processed directory (renaming in place with `.done` when that fails),
 * or quarantine under `processed/bad`. Filesystem success or failure and the
 * clock are inputs.
 */
module IngestLoop {
  import opened Wrappers
  import opened PyText
  import opened Ingest

  // ---------------------------------------------------------------------------
  // File names
  // ---------------------------------------------------------------------------

  /** Path.suffix: from the last dot on, unless that dot starts or ends the name. */
  function Suffix(name: string): string {
    var i := LastIndex(name, '.');
    if 0 < i < |name| - 1 then name[i..] else ""
  }

  /** Path.stem: the name without its suffix. */
  function Stem(name: string): string {
    var i := LastIndex(name, '.');
    if 0 < i < |name| - 1 then name[..i] else name
  }

  /** The name _move_processed falls back to when the target already exists: stem + ".dup" + epoch + suffix. */
  function DupName(name: string, now: int): string {
    Stem(name) + ".dup" + Decimal(now) + Suffix(name)
  }

  /** What glob("*.json") matches (case-sensitive; "*" also matches a leading dot). */
  predicate IsJsonName(name: string) {
    EndsWith(name, ".json")
  }

  /**
   * For an ordinary event file name the duplicate name keeps the `.json`
   * suffix after the epoch, so it differs from the original and still names
   * an event file: "a.json" becomes "a.dup<epoch>.json".
   */
  lemma DupNameOfJson(name: string, now: int)
    requires IsJsonName(name) && |name| > 5
    ensures DupName(name, now) == name[..|name| - 5] + ".dup" + Decimal(now) + ".json"
    ensures DupName(name, now) != name && IsJsonName(DupName(name, now))
  {
    var i := |name| - 5;
    assert name[i..] == ".json";
    assert name[i] == '.' && name[i + 1] == 'j' && name[i + 2] == 's' && name[i + 3] == 'o' && name[i + 4] == 'n';
    assert LastIndex(name, '.') == i;
    var d := DupName(name, now);
    assert |d| > |name|;
    assert d[|d| - 5..] == ".json";
  }

  /** The in-place marker `name + ".done"` never matches *.json, so a renamed file drops out of every later listing. */
  lemma DoneNeverListed(name: string)
    ensures !IsJsonName(name + ".done")
  {
    var d := name + ".done";
    assert d[|d| - 1] == 'e';
  }

  // ---------------------------------------------------------------------------
  // Directory state and the file operations
  // ---------------------------------------------------------------------------

  datatype Entry = File(content: FileContent) | Subdir

  /** The export directory (any entries) and the files under processed/ and processed/bad/. */
  datatype Dirs = Dirs(exportDir: map<string, Entry>, processed: map<string, FileContent>, bad: map<string, FileContent>)

  predicate Eligible(exportDir: map<string, Entry>, name: string) {
    name in exportDir && IsJsonName(name) && exportDir[name].File?
  }

  predicate StrictlySorted(s: seq<string>) {
    forall i, j :: 0 <= i < j < |s| ==> StrLess(s[i], s[j])
  }

  /** `sorted(p for p in export_dir.glob("*.json") if p.is_file())`. */
  ghost predicate IsBatch(exportDir: map<string, Entry>, batch: seq<string>) {
    StrictlySorted(batch) && forall n :: n in batch <==> Eligible(exportDir, n)
  }

  /** The listing is determined by the directory: two sorted listings of the same files are equal. */
  lemma {:induction false} BatchUnique(exportDir: map<string, Entry>, a: seq<string>, b: seq<string>)
    requires IsBatch(exportDir, a) && IsBatch(exportDir, b)
    ensures a == b
  {
    SortedSameSet(a, b);
  }

  lemma {:induction false} SortedSameSet(a: seq<string>, b: seq<string>)
    requires StrictlySorted(a) && StrictlySorted(b)
    requires forall n :: n in a <==> n in b
    ensures a == b
  {
    if |a| > 0 || |b| > 0 {
      var x := if |a| > 0 then a[0] else b[0];
      assert x in a && x in b;
      // the first element of each is the least of the common set
      if a[0] != b[0] {
        assert b[0] in b && a[0] in a;
        var i :| 0 <= i < |a| && a[i] == b[0];
        var j :| 0 <= j < |b| && b[j] == a[0];
        StrLessTransitive(a[0], b[0], a[0]);
        StrLessIrreflexive(a[0]);
        assert false;
      }
      forall n
        ensures n in a[1..] <==> n in b[1..]
      {
        if n in a[1..] {
          var i :| 1 <= i < |a| && a[i] == n;
          StrLessIrreflexive(n);
          assert n != b[0] && n in b;
          var j :| 0 <= j < |b| && b[j] == n;
          assert b[1..][j - 1] == n;
        }
        if n in b[1..] {
          var j :| 1 <= j < |b| && b[j] == n;
          StrLessIrreflexive(n);
          assert n != a[0] && n in a;
          var i :| 0 <= i < |a| && a[i] == n;
          assert a[1..][i - 1] == n;
        }
      }
      SortedSameSet(a[1..], b[1..]);
      assert a == [a[0]] + a[1..] && b == [b[0]] + b[1..];
    }
  }

  /** The target of a move into `dir`: the file's own name, or its duplicate name when that is taken. */
  function MoveTarget(dir: map<string, FileContent>, name: string, now: int): string {
    if name in dir then DupName(name, now) else name
  }

  /**
   * _move_processed(src, processed_dir) (or processed_dir / "bad" when
   * `quarantine`): false, with nothing changed, when the source is not a file
   * or the filesystem refuses; an existing file at the target is replaced.
   */
  function Moved(d: Dirs, name: string, quarantine: bool, now: int, ok: bool): (r: (bool, Dirs))
    ensures !r.0 ==> r.1 == d
    ensures r.0 <==> ok && name in d.exportDir && d.exportDir[name].File?
    ensures r.0 ==> r.1.exportDir == d.exportDir - {name}
    ensures r.0 && quarantine ==>
      r.1.processed == d.processed && r.1.bad == d.bad[MoveTarget(d.bad, name, now) := d.exportDir[name].content]
    ensures r.0 && !quarantine ==>
      r.1.bad == d.bad && r.1.processed == d.processed[MoveTarget(d.processed, name, now) := d.exportDir[name].content]
  {
    if !ok || name !in d.exportDir || !d.exportDir[name].File? then (false, d)
    else
      var c := d.exportDir[name].content;
      if quarantine then (true, d.(exportDir := d.exportDir - {name}, bad := d.bad[MoveTarget(d.bad, name, now) := c]))
      else (true, d.(exportDir := d.exportDir - {name}, processed := d.processed[MoveTarget(d.processed, name, now) := c]))
  }

  /** path.unlink(missing_ok=True) with its exception swallowed: a file is removed unless the filesystem refuses. */
  function Unlinked(d: Dirs, name: string, ok: bool): (r: Dirs)
    ensures r.processed == d.processed && r.bad == d.bad
    ensures r.exportDir == if ok && name in d.exportDir && d.exportDir[name].File? then d.exportDir - {name} else d.exportDir
  {
    if ok && name in d.exportDir && d.exportDir[name].File? then d.(exportDir := d.exportDir - {name}) else d
  }

  /** path.rename(name + ".done"): the file keeps its content under the marker name, replacing any file there. */
  function RenamedDone(d: Dirs, name: string, ok: bool): (r: (bool, Dirs))
    ensures !r.0 ==> r.1 == d
    ensures r.0 <==> ok && name in d.exportDir && d.exportDir[name].File?
    ensures r.0 ==> r.1 == d.(exportDir := (d.exportDir - {name})[name + ".done" := d.exportDir[name]])
  {
    if ok && name in d.exportDir && d.exportDir[name].File? then
      (true, d.(exportDir := (d.exportDir - {name})[name + ".done" := d.exportDir[name]]))
    else (false, d)
  }

  // ---------------------------------------------------------------------------
  // One pass of the main loop, as a specification
  // ---------------------------------------------------------------------------

  /**
   * For one file: whether the INSERT and its commit complete, whether unlink,
   * the move and the rename succeed, and what time.time() reads.
   */
  datatype Faults = Faults(storeOk: bool, unlinkOk: bool, moveOk: bool, renameOk: bool, now: int)

  datatype World = World(table: Table, dirs: Dirs)

  /** What opening and parsing `name` yields; a name that is no longer a file cannot be read. */
  function ContentOf(exportDir: map<string, Entry>, name: string): FileContent {
    if name in exportDir && exportDir[name].File? then exportDir[name].content else Unreadable
  }

  /** The disposition branch of the main loop for one file. */
  function Dispose(d: Dirs, name: string, inserted: bool, delete: bool, f: Faults): Dirs {
    if inserted then
      if delete then Unlinked(d, name, f.unlinkOk)
      else
        var (moved, d1) := Moved(d, name, false, f.now, f.moveOk);
        if moved then d1 else RenamedDone(d, name, f.renameOk).1
    else Moved(d, name, true, f.now, f.moveOk).1
  }

  function Step(w: World, name: string, delete: bool, f: Faults): World {
    var (inserted, t) := Ingest.Ingest(w.table, ContentOf(w.dirs.exportDir, name), f.storeOk);
    World(t, Dispose(w.dirs, name, inserted, delete, f))
  }

  /** The files of one pass handled in order; `env` gives each file's filesystem outcomes. */
  function Run(w: World, names: seq<string>, delete: bool, env: string -> Faults): World {
    if |names| == 0 then w
    else Step(Run(w, names[..|names| - 1], delete, env), names[|names| - 1], delete, env(names[|names| - 1]))
  }

  /**
   * The disposition rules for a listed file: inserted and delete on → unlinked;
   * inserted and delete off → moved to processed, else renamed to ".done",
   * else left; not inserted (malformed, or a duplicate event_id) → moved to
   * processed/bad, else left in place.
   */
  lemma StepDisposition(w: World, name: string, delete: bool, f: Faults)
    requires Eligible(w.dirs.exportDir, name)
    ensures var inserted := Ingest.Ingest(w.table, ContentOf(w.dirs.exportDir, name), f.storeOk).0;
      var d := w.dirs;
      var d' := Step(w, name, delete, f).dirs;
      var c := d.exportDir[name].content;
      && (inserted && delete ==>
            d' == d.(exportDir := if f.unlinkOk then d.exportDir - {name} else d.exportDir))
      && (inserted && !delete && f.moveOk ==>
            d' == d.(exportDir := d.exportDir - {name}, processed := d.processed[MoveTarget(d.processed, name, f.now) := c]))
      && (inserted && !delete && !f.moveOk && f.renameOk ==>
            d' == d.(exportDir := (d.exportDir - {name})[name + ".done" := File(c)]))
      && (inserted && !delete && !f.moveOk && !f.renameOk ==> d' == d)
      && (!inserted && f.moveOk ==>
            d' == d.(exportDir := d.exportDir - {name}, bad := d.bad[MoveTarget(d.bad, name, f.now) := c]))
      && (!inserted && !f.moveOk ==> d' == d)
  {
    var inserted := Ingest.Ingest(w.table, ContentOf(w.dirs.exportDir, name), f.storeOk).0;
    assert Step(w, name, delete, f).dirs == Dispose(w.dirs, name, inserted, delete, f);
  }

  /** A file whose event_id is already stored is quarantined, not filed as processed, and the table is untouched. */
  lemma DuplicateQuarantined(w: World, name: string, delete: bool, f: Faults)
    requires Eligible(w.dirs.exportDir, name)
    requires var a := Accepted(w.dirs.exportDir[name].content); a.Some? && KeyText(a.value.eventId) in KeysOf(w.table.rows)
    ensures Step(w, name, delete, f).table == w.table
    ensures !Ingest.Ingest(w.table, w.dirs.exportDir[name].content, f.storeOk).0
    ensures f.moveOk ==> name !in Step(w, name, delete, f).dirs.exportDir
    ensures f.moveOk ==> Step(w, name, delete, f).dirs.bad[MoveTarget(w.dirs.bad, name, f.now)] == w.dirs.exportDir[name].content
    ensures Step(w, name, delete, f).dirs.processed == w.dirs.processed
  {
  }

  /**
   * When unlinking an inserted file fails, the file stays and the next pass
   * finds its event_id already stored: it is then quarantined, and the table
   * does not change again.
   */
  lemma FailedUnlinkThenQuarantined(w: World, name: string, first: Faults, second: Faults)
    requires Eligible(w.dirs.exportDir, name) && !first.unlinkOk
    requires Ingest.Ingest(w.table, ContentOf(w.dirs.exportDir, name), first.storeOk).0
    ensures var w1 := Step(w, name, true, first);
      var w2 := Step(w1, name, true, second);
      var c := w.dirs.exportDir[name].content;
      && Eligible(w1.dirs.exportDir, name) && w1.dirs.exportDir[name] == File(c)
      && w2.table == w1.table
      && w2.dirs.processed == w1.dirs.processed
      && (second.moveOk ==>
            name !in w2.dirs.exportDir && w2.dirs.bad == w1.dirs.bad[MoveTarget(w1.dirs.bad, name, second.now) := c])
      && (!second.moveOk ==> w2.dirs == w1.dirs)
  {
    var c := ContentOf(w.dirs.exportDir, name);
    SameKeyIgnored(w.table, c, c, first.storeOk, second.storeOk);
    var w1 := Step(w, name, true, first);
    assert w1.dirs == w.dirs;
    var inserted2 := Ingest.Ingest(w1.table, ContentOf(w1.dirs.exportDir, name), second.storeOk).0;
    assert !inserted2;
    assert Step(w1, name, true, second).dirs == Moved(w1.dirs, name, true, second.now, second.moveOk).1;
  }

  /** A step touches only its own name and its ".done" marker in the export directory. */
  lemma StepFrame(w: World, name: string, delete: bool, f: Faults, other: string)
    requires other != name && other != name + ".done"
    ensures var e := Step(w, name, delete, f).dirs.exportDir;
      (other in e <==> other in w.dirs.exportDir) && (other in e ==> e[other] == w.dirs.exportDir[other])
  {
    var d := w.dirs;
    var inserted := Ingest.Ingest(w.table, ContentOf(d.exportDir, name), f.storeOk).0;
    var e := Dispose(d, name, inserted, delete, f).exportDir;
    assert Step(w, name, delete, f).dirs.exportDir == e;
    if inserted && delete {
      assert e == Unlinked(d, name, f.unlinkOk).exportDir;
    } else if inserted {
      var (moved, d1) := Moved(d, name, false, f.now, f.moveOk);
      if moved {
        assert e == d.exportDir - {name};
      } else {
        var (renamed, d2) := RenamedDone(d, name, f.renameOk);
        assert e == d2.exportDir;
      }
    } else {
      assert e == Moved(d, name, true, f.now, f.moveOk).1.exportDir;
    }
  }

  /** `t1` is `t0` with rows appended at the end. */
  predicate Extends(t0: Table, t1: Table) {
    |t0.rows| <= |t1.rows| && t1.rows[..|t0.rows|] == t0.rows
  }

  lemma ExtendsTransitive(t0: Table, t1: Table, t2: Table)
    requires Extends(t0, t1) && Extends(t1, t2)
    ensures Extends(t0, t2)
  {
    assert t2.rows[..|t0.rows|] == t2.rows[..|t1.rows|][..|t0.rows|];
  }

  /** Ingesting one file keeps the table invariant and only appends. */
  lemma IngestExtends(t: Table, c: FileContent, storeOk: bool)
    requires TableValid(t)
    ensures TableValid(Ingest.Ingest(t, c, storeOk).1) && Extends(t, Ingest.Ingest(t, c, storeOk).1)
  {
    var a := Accepted(c);
    if a.None? || !storeOk {
      assert Ingest.Ingest(t, c, storeOk).1 == t;
      assert t.rows[..|t.rows|] == t.rows;
    } else {
      var t1 := Insert(t, a.value).1;
      assert Ingest.Ingest(t, c, storeOk).1 == t1;
      InsertKeepsValid(t, a.value);
      assert t1.rows[..|t.rows|] == t.rows;
    }
  }

  /**
   * Over a whole pass the table only grows at the end, keeps its invariant,
   * and every row added has a larger id than every row before it, so rows
   * follow the order files were handled in.
   */
  lemma {:induction false} RunAppends(w: World, names: seq<string>, delete: bool, env: string -> Faults)
    requires TableValid(w.table)
    ensures var t := Run(w, names, delete, env).table;
      TableValid(t) && Extends(w.table, t)
  {
    if |names| > 0 {
      var prefix := names[..|names| - 1];
      RunAppends(w, prefix, delete, env);
      var w1 := Run(w, prefix, delete, env);
      var c := ContentOf(w1.dirs.exportDir, names[|names| - 1]);
      var ok := env(names[|names| - 1]).storeOk;
      IngestExtends(w1.table, c, ok);
      assert Run(w, names, delete, env).table == Ingest.Ingest(w1.table, c, ok).1;
      ExtendsTransitive(w.table, w1.table, Run(w, names, delete, env).table);
    }
  }

  // ---------------------------------------------------------------------------
  // The directories as the ingester changes them
  // ---------------------------------------------------------------------------

  class Spool {
    var exportDir: map<string, Entry>
    var processed: map<string, FileContent>
    var bad: map<string, FileContent>

    function Snapshot(): Dirs
      reads this
    {
      Dirs(exportDir, processed, bad)
    }

    constructor (exportDir: map<string, Entry>, processed: map<string, FileContent>, bad: map<string, FileContent>)
      ensures Snapshot() == Dirs(exportDir, processed, bad)
    {
      this.exportDir, this.processed, this.bad := exportDir, processed, bad;
    }

    /** The files of the next pass: eligible names, taken least first. */
    method ListBatch() returns (batch: seq<string>)
      ensures IsBatch(exportDir, batch)
    {
      var rest := set n | n in exportDir && IsJsonName(n) && exportDir[n].File?;
      batch := [];
      while rest != {}
        invariant forall n :: n in batch || n in rest <==> Eligible(exportDir, n)
        invariant forall n :: n in batch ==> n !in rest
        invariant StrictlySorted(batch)
        invariant forall i, m :: 0 <= i < |batch| && m in rest ==> StrLess(batch[i], m)
        decreases |rest|
      {
        LeastExists(rest);
        var m :| m in rest && forall y :: y in rest && y != m ==> StrLess(m, y);
        batch := batch + [m];
        rest := rest - {m};
      }
    }

    method Unlink(name: string, ok: bool)
      modifies this
      ensures Snapshot() == Unlinked(old(Snapshot()), name, ok)
    {
      if ok && name in exportDir && exportDir[name].File? {
        exportDir := exportDir - {name};
      }
    }

    method MoveProcessed(name: string, quarantine: bool, now: int, ok: bool) returns (moved: bool)
      modifies this
      ensures (moved, Snapshot()) == Moved(old(Snapshot()), name, quarantine, now, ok)
    {
      if !ok || name !in exportDir || !exportDir[name].File? {
        return false;
      }
      var c := exportDir[name].content;
      if quarantine {
        var dst := if name in bad then DupName(name, now) else name;
        bad := bad[dst := c];
      } else {
        var dst := if name in processed then DupName(name, now) else name;
        processed := processed[dst := c];
      }
      exportDir := exportDir - {name};
      return true;
    }

    method RenameDone(name: string, ok: bool) returns (renamed: bool)
      modifies this
      ensures (renamed, Snapshot()) == RenamedDone(old(Snapshot()), name, ok)
    {
      if !ok || name !in exportDir || !exportDir[name].File? {
        return false;
      }
      var e := exportDir[name];
      exportDir := (exportDir - {name})[name + ".done" := e];
      return true;
    }
  }

  /** time.sleep(max(floor, poll)): 0.2 s floor after an empty listing, 0.1 s after a pass that handled files. */
  function SleepSeconds(poll: real, emptyPass: bool): (r: real)
    ensures r >= poll && r >= (if emptyPass then 0.2 else 0.1)
    ensures r == poll || r == (if emptyPass then 0.2 else 0.1)
  {
    var floor := if emptyPass then 0.2 else 0.1;
    if poll > floor then poll else floor
  }

  /** The body of main's `for path in paths` loop: ingest one file, then dispose of it. */
  method HandleFile(store: EventStore, spool: Spool, name: string, delete: bool, f: Faults)
    requires store.Valid()
    modifies store, spool
    ensures store.Valid()
    ensures World(store.Snapshot(), spool.Snapshot())
         == Step(World(old(store.Snapshot()), old(spool.Snapshot())), name, delete, f)
  {
    ghost var d0 := spool.Snapshot();
    ghost var t0 := store.Snapshot();
    var inserted := IngestOne(store, ContentOf(spool.exportDir, name), f.storeOk);
    assert Step(World(t0, d0), name, delete, f) == World(store.Snapshot(), Dispose(d0, name, inserted, delete, f));
    if inserted {
      if delete {
        spool.Unlink(name, f.unlinkOk);
      } else {
        var moved := spool.MoveProcessed(name, false, f.now, f.moveOk);
        if !moved {
          var _ := spool.RenameDone(name, f.renameOk);
        }
      }
    } else {
      var _ := spool.MoveProcessed(name, true, f.now, f.moveOk);
    }
  }

  /**
   * One iteration of main's `while True`: list the batch, handle each file
   * in order, and return how long to sleep before the next listing.
   */
  method PollOnce(store: EventStore, spool: Spool, delete: bool, poll: real, env: string -> Faults)
    returns (batch: seq<string>, sleep: real)
    requires store.Valid()
    modifies store, spool
    ensures store.Valid()
    ensures IsBatch(old(spool.exportDir), batch)
    ensures World(store.Snapshot(), spool.Snapshot())
         == Run(World(old(store.Snapshot()), old(spool.Snapshot())), batch, delete, env)
    ensures sleep == SleepSeconds(poll, batch == [])
  {
    ghost var w0 := World(store.Snapshot(), spool.Snapshot());
    batch := spool.ListBatch();
    if batch == [] {
      return batch, SleepSeconds(poll, true);
    }
    var i := 0;
    while i < |batch|
      invariant 0 <= i <= |batch|
      invariant store.Valid()
      invariant World(store.Snapshot(), spool.Snapshot()) == Run(w0, batch[..i], delete, env)
    {
      HandleFile(store, spool, batch[i], delete, env(batch[i]));
      assert batch[..i + 1][..i] == batch[..i];
      i := i + 1;
    }
    assert batch[..i] == batch;
    sleep := SleepSeconds(poll, false);
  }
}
