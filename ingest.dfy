/** The per-file row loop of `main` (main.py:163-254): every row is
    counted, a row whose date does not parse is counted bad, every other
    row becomes one NDJSON line in the buffer, and the buffer is staged
    and merged only when some row was good. */
module Ingest {
  import opened Wrappers
  import opened Headers
  import opened Zones
  import opened LocalDates
  import opened Records

  /** The loop's counters and buffer. */
  datatype Tally = Tally(total: nat, good: nat, bad: nat, buf: string)

  const Empty: Tally := Tally(0, 0, 0, "")

  /** What the loop body does with a row; `Handler` is the loader's. */
  type RowHandler = Row -> RowOutcome

  /** The loop body of one file: `ProcessRow` with the file's header map,
      settings and name. */
  function Handler(hm: HeaderMap, cfg: Config, env: Env, sourceFile: string): RowHandler {
    row => ProcessRow(row, hm, cfg, env, sourceFile)
  }

  /** The counters after one more row; `None` when the row's conversion
      raised and the run stopped. */
  function Step(t: Tally, out: RowOutcome, env: Env): Option<Tally> {
    match out
    case Bad => Some(t.(total := t.total + 1, bad := t.bad + 1))
    case Good(r) => Some(t.(total := t.total + 1, good := t.good + 1, buf := t.buf + Line(env, r)))
    case Abort => None
  }

  /** The counters and buffer after the rows, in order; `None` when some
      row stopped the run. */
  function Scan(rows: seq<Row>, handle: RowHandler, env: Env): Option<Tally>
    decreases |rows|
  {
    if rows == [] then Some(Empty)
    else After(Scan(rows[..|rows| - 1], handle, env), handle(rows[|rows| - 1]), env)
  }

  /** One more row after the tally `o`, staying stopped once stopped. */
  function After(o: Option<Tally>, out: RowOutcome, env: Env): Option<Tally> {
    if o.None? then None else Step(o.value, out, env)
  }

  /** The loop itself (main.py:184-243): `total`, `good`, `bad` and `buf`
      updated row by row, ending early when a conversion raises. */
  method ProcessRows(rows: seq<Row>, handle: RowHandler, env: Env)
    returns (total: nat, good: nat, bad: nat, buf: string, aborted: bool)
    ensures aborted <==> Scan(rows, handle, env).None?
    ensures !aborted ==> Scan(rows, handle, env) == Some(Tally(total, good, bad, buf))
  {
    total, good, bad, buf, aborted := 0, 0, 0, "", false;
    var i := 0;
    while i < |rows|
      invariant 0 <= i <= |rows|
      invariant Scan(rows[..i], handle, env) == Some(Tally(total, good, bad, buf))
    {
      assert rows[..i + 1][..i] == rows[..i];
      total := total + 1;
      var out := handle(rows[i]);
      if out.Abort? {
        aborted := true;
        ScanStopsForGood(rows[..i + 1], rows[i + 1..], handle, env);
        assert rows[..i + 1] + rows[i + 1..] == rows;
        return;
      }
      if out.Bad? {
        bad := bad + 1;
      } else {
        buf := buf + Line(env, out.record);
        good := good + 1;
      }
      i := i + 1;
    }
    assert rows[..i] == rows;
  }

  // ----- what the counters mean -----

  /** How many rows the handler counts bad; with `Handler` these are the
      rows whose `call_date` does not parse (see `ProcessRow`). */
  function Failures(rows: seq<Row>, handle: RowHandler): nat
    decreases |rows|
  {
    if rows == [] then 0
    else Failures(rows[..|rows| - 1], handle) + (if handle(rows[|rows| - 1]).Bad? then 1 else 0)
  }

  /** Every row is counted once, as good or as bad, and the bad ones are
      exactly the rows the handler rejects. */
  lemma {:induction false} ScanCounts(rows: seq<Row>, handle: RowHandler, env: Env)
    requires Scan(rows, handle, env).Some?
    ensures var t := Scan(rows, handle, env).value;
      t.total == |rows| && t.total == t.good + t.bad && t.bad == Failures(rows, handle)
  {
    if rows != [] {
      ScanCounts(rows[..|rows| - 1], handle, env);
    }
  }

  /** The run stops exactly when some row's conversion to UTC overflows. */
  lemma {:induction false} ScanStopsIff(rows: seq<Row>, handle: RowHandler, env: Env)
    ensures Scan(rows, handle, env).None? <==> exists i :: 0 <= i < |rows| && handle(rows[i]).Abort?
  {
    if rows != [] {
      var init := rows[..|rows| - 1];
      ScanStopsIff(init, handle, env);
      if exists i :: 0 <= i < |init| && handle(init[i]).Abort? {
        var i :| 0 <= i < |init| && handle(init[i]).Abort?;
        assert rows[i] == init[i];
      }
      if exists i :: 0 <= i < |rows| && handle(rows[i]).Abort? {
        var i :| 0 <= i < |rows| && handle(rows[i]).Abort?;
        if i < |init| {
          assert init[i] == rows[i];
        }
      }
    }
  }

  /** Once stopped, later rows do not restart the run. */
  lemma {:induction false} ScanStopsForGood(done: seq<Row>, rest: seq<Row>, handle: RowHandler, env: Env)
    requires Scan(done, handle, env).None?
    ensures Scan(done + rest, handle, env).None?
    decreases |rest|
  {
    if rest != [] {
      var init := rest[..|rest| - 1];
      ScanStopsForGood(done, init, handle, env);
      assert (done + rest)[..|done + rest| - 1] == done + init;
    } else {
      assert done + rest == done;
    }
  }

  /** The tallies of two stretches of rows, one after the other. */
  function Then(a: Option<Tally>, b: Option<Tally>): Option<Tally> {
    if a.None? || b.None? then None
    else
      var x, y := a.value, b.value;
      Some(Tally(x.total + y.total, x.good + y.good, x.bad + y.bad, x.buf + y.buf))
  }

  /** Rows are handled in order: the lines of a file are the lines of its
      first part followed by those of the rest. */
  lemma {:induction false} ScanAppend(a: seq<Row>, b: seq<Row>, handle: RowHandler, env: Env)
    ensures Scan(a + b, handle, env) == Then(Scan(a, handle, env), Scan(b, handle, env))
    decreases |b|
  {
    if b == [] {
      assert a + b == a;
      if Scan(a, handle, env).Some? {
        var x := Scan(a, handle, env).value;
        assert x.buf + "" == x.buf;
      }
    } else {
      var init := b[..|b| - 1];
      ScanAppend(a, init, handle, env);
      assert (a + b)[..|a + b| - 1] == a + init;
      assert (a + b)[|a + b| - 1] == b[|b| - 1];
      ThenAfter(Scan(a, handle, env), Scan(init, handle, env), handle(b[|b| - 1]), env);
    }
  }

  /** Adding a row to the second stretch adds it to the whole. */
  lemma ThenAfter(x: Option<Tally>, y: Option<Tally>, out: RowOutcome, env: Env)
    ensures Then(x, After(y, out, env)) == After(Then(x, y), out, env)
  {
    if x.Some? && y.Some? && out.Good? {
      var line := Line(env, out.record);
      assert x.value.buf + (y.value.buf + line) == x.value.buf + y.value.buf + line;
    }
  }

  /** A single row: nothing written when it is bad, exactly its own line
      when it is good. */
  lemma ScanOne(row: Row, handle: RowHandler, env: Env)
    ensures handle(row).Bad? ==> Scan([row], handle, env) == Some(Tally(1, 0, 1, ""))
    ensures handle(row).Good? ==> Scan([row], handle, env) == Some(Tally(1, 1, 0, Line(env, handle(row).record)))
    ensures handle(row).Abort? ==> Scan([row], handle, env).None?
  {
    assert [row][..0] == [];
    if handle(row).Good? {
      var line := Line(env, handle(row).record);
      assert "" + line == line;
    }
  }

  /** `json.dumps` without `indent` never writes a raw newline. */
  ghost predicate OneLineDumps(env: Env) {
    forall r: Record :: '\n' !in env.dumpRecord(r)
  }

  /** Each good row adds exactly one newline-terminated line: the buffer
      holds one newline per good row and ends in one when not empty. */
  lemma {:induction false} ScanLines(rows: seq<Row>, handle: RowHandler, env: Env)
    requires OneLineDumps(env) && Scan(rows, handle, env).Some?
    ensures var t := Scan(rows, handle, env).value;
      multiset(t.buf)['\n'] == t.good && (t.buf == [] || t.buf[|t.buf| - 1] == '\n')
  {
    if rows != [] {
      ScanLines(rows[..|rows| - 1], handle, env);
      var out := handle(rows[|rows| - 1]);
      if out.Good? {
        var d := env.dumpRecord(out.record);
        assert '\n' !in d;
        assert multiset(d)['\n'] == 0;
      }
    }
  }

  // ----- the file -----

  /** How handling one uploaded object ends: not under the prefix, stopped
      by an exception, or done with the counters written to the audit
      table.  `staged` is the NDJSON file uploaded to `key`, loaded into
      the staging table and merged, when there is one. */
  datatype RunOutcome =
    | Ignored
    | Crashed
    | Finished(total: nat, good: nat, bad: nat, staged: Option<Staged>)

  datatype Staged = Staged(key: string, content: string)

  /** `str.startswith`. */
  predicate StartsWith(s: string, p: string) {
    |p| <= |s| && s[..|p|] == p
  }

  /** The loop body for an object: its header map and `gs://` name. */
  function HandlerOf(cfg: Config, env: Env, bucket: string, objectName: string,
                     fieldnames: seq<Option<string>>): RowHandler {
    Handler(NormalizeHeaders(fieldnames), cfg, env, "gs://" + bucket + "/" + objectName)
  }

  /** `main` for one object, with the download, the CSV reader, the load,
      the merge, the audit insert and the move left to the callers of this
      model: the prefix filter, the header map, the loop and the `good > 0`
      guard on staging. */
  method HandleObject(cfg: Config, env: Env, bucket: string, objectName: string,
                      fieldnames: seq<Option<string>>, rows: seq<Row>) returns (outcome: RunOutcome)
    ensures outcome.Ignored? <==> !StartsWith(objectName, cfg.bucketPrefix)
    ensures outcome.Crashed? <==>
      StartsWith(objectName, cfg.bucketPrefix) && Scan(rows, HandlerOf(cfg, env, bucket, objectName, fieldnames), env).None?
    ensures outcome.Finished? ==>
      && Scan(rows, HandlerOf(cfg, env, bucket, objectName, fieldnames), env).Some?
      && var t := Scan(rows, HandlerOf(cfg, env, bucket, objectName, fieldnames), env).value;
         outcome.total == t.total && outcome.good == t.good && outcome.bad == t.bad
         && (outcome.staged.Some? <==> t.good > 0)
         && (outcome.staged.Some? ==>
               outcome.staged.value == Staged(cfg.tmpPrefix + objectName + ".ndjson", t.buf))
  {
    if !StartsWith(objectName, cfg.bucketPrefix) {
      return Ignored;
    }
    var sourceFile := "gs://" + bucket + "/" + objectName;
    var headerMap := NormalizeHeaders(fieldnames);
    var tmpKey := cfg.tmpPrefix + objectName + ".ndjson";
    var total, good, bad, buf, aborted := ProcessRows(rows, Handler(headerMap, cfg, env, sourceFile), env);
    if aborted {
      return Crashed;
    }
    var staged := None;
    if good > 0 {
      staged := Some(Staged(tmpKey, buf));
    }
    outcome := Finished(total, good, bad, staged);
  }
}
