/**
 * The migration lane as re-runnable state: four shared tables, two stages that each purge their
 * own slice and then append, and attempts that may die anywhere in between.
 */
module Lane {
  import opened Wrappers
  import opened Collections

  datatype Stage = Parse | Map | Schema

  datatype Table = SourceTable | TargetTable | RejectLog | RecordLineage

  type Fields = map<string, string>

  datatype Body =
    | SourceRow(file: string, sourceKey: string, accountKey: string, fields: Fields)
    | TargetRow(document: string)
    | Reject(sourceKey: string, reason: string, detail: string, raw: string)
    | Lineage(sourceKey: string, account: Option<string>, reason: string, detail: string)

  /** `stage` is the column of that name; in the two tables without one it is the stage that wrote the row. */
  datatype Row = Row(run: string, stage: Stage, body: Body)

  type Tables = map<Table, seq<Row>>

  function At(t: Tables, table: Table): seq<Row> {
    if table in t then t[table] else []
  }

  // ---- what the stages compute ----------------------------------------------------------------

  /** A record error: why, and where in the record. The stage is the one that raised it. */
  datatype Fault = Fault(reason: string, detail: string)

  datatype Line = Line(file: string, text: string)

  /**
   * The code of a migration project, as far as the lane depends on it. `enrich` stands for the SQL
   * models and the enrichment join between the stages: one row in, one row out.
   */
  datatype Engine = Engine(
    isRecord: string -> bool,
    parse: string -> Result<Fields, Fault>,
    sourceKey: Fields -> string,
    accountKey: Fields -> string,
    contentName: string -> string,
    enrich: Fields -> Fields,
    mapRecord: (Fields, string) -> Result<string, Fault>,
    validate: string -> Option<Fault>,
    show: Fields -> string)

  function Cell(fields: Fields, name: string): string {
    if name in fields then fields[name] else ""
  }

  /** What one line of the bundle puts into a table: blank lines and headers nothing, records one disposition. */
  function ParseLine(e: Engine, run: string, line: Line, table: Table): (rows: seq<Row>) {
    if !e.isRecord(line.text) then []
    else
      match e.parse(line.text)
      case Ok(fields) =>
        if table == SourceTable
        then [Row(run, Parse, SourceRow(line.file, e.sourceKey(fields), e.accountKey(fields), fields))]
        else []
      case Err(fault) =>
        if table == RejectLog then [Row(run, Parse, Reject("", fault.reason, fault.detail, line.text))]
        else if table == RecordLineage
        then [Row(run, Parse, Lineage(e.contentName(line.text), None, fault.reason, fault.detail))]
        else []
  }

  function Refuse(e: Engine, run: string, stage: Stage, fields: Fields, fault: Fault, table: Table): (rows: seq<Row>) {
    if table == RejectLog
    then [Row(run, stage, Reject(Cell(fields, "account_id"), fault.reason, fault.detail, e.show(fields)))]
    else if table == RecordLineage
    then
      var key := Cell(fields, "account_key");
      [Row(run, stage, Lineage(Cell(fields, "account_id"), if key == "" then None else Some(key),
                               fault.reason, fault.detail))]
    else []
  }

  /** What one source row puts into a table once mapped and validated. */
  function MapRow(e: Engine, run: string, row: Row, table: Table): (rows: seq<Row>) {
    if !row.body.SourceRow? then []
    else
      var fields := e.enrich(row.body.fields);
      match e.mapRecord(fields, run)
      case Err(fault) => Refuse(e, run, Map, fields, fault, table)
      case Ok(document) =>
        match e.validate(document)
        case Some(fault) => Refuse(e, run, Schema, fields, fault, table)
        case None => if table == TargetTable then [Row(run, Map, TargetRow(document))] else []
  }

  function ParseAll(e: Engine, run: string, lines: seq<Line>, table: Table): seq<Row> {
    if lines == [] then []
    else ParseAll(e, run, lines[..|lines| - 1], table) + ParseLine(e, run, lines[|lines| - 1], table)
  }

  function MapAll(e: Engine, run: string, rows: seq<Row>, table: Table): seq<Row> {
    if rows == [] then []
    else MapAll(e, run, rows[..|rows| - 1], table) + MapRow(e, run, rows[|rows| - 1], table)
  }

  /** The rows of one clean pass over a bundle. */
  function Clean(e: Engine, run: string, lines: seq<Line>, table: Table): seq<Row> {
    ParseAll(e, run, lines, table) + MapAll(e, run, ParseAll(e, run, lines, SourceTable), table)
  }

  function RecordsIn(e: Engine, lines: seq<Line>): nat {
    if lines == [] then 0
    else RecordsIn(e, lines[..|lines| - 1]) + (if e.isRecord(lines[|lines| - 1].text) then 1 else 0)
  }

  /** A record read is a line that is one, each line once. */
  lemma {:induction false} RecordsAreCounted(e: Engine, lines: seq<Line>)
    ensures RecordsIn(e, lines) == |set i | 0 <= i < |lines| && e.isRecord(lines[i].text)|
  {
    if lines != [] {
      var n := |lines| - 1;
      RecordsAreCounted(e, lines[..n]);
      assert (set i | 0 <= i < |lines| && e.isRecord(lines[i].text))
          == (set i | 0 <= i < n && e.isRecord(lines[..n][i].text)) + (if e.isRecord(lines[n].text) then {n} else {});
    }
  }

  lemma {:induction false} ParseAccountsForEveryRecord(e: Engine, run: string, lines: seq<Line>)
    ensures RecordsIn(e, lines) == |ParseAll(e, run, lines, SourceTable)| + |ParseAll(e, run, lines, RejectLog)|
    ensures |ParseAll(e, run, lines, RecordLineage)| == |ParseAll(e, run, lines, RejectLog)|
    ensures ParseAll(e, run, lines, TargetTable) == []
    ensures forall row | row in ParseAll(e, run, lines, SourceTable) :: row.body.SourceRow?
  {
    if lines != [] {
      ParseAccountsForEveryRecord(e, run, lines[..|lines| - 1]);
    }
  }

  lemma {:induction false} MapRowHasOneDoor(e: Engine, run: string, row: Row)
    requires row.body.SourceRow?
    ensures |MapRow(e, run, row, TargetTable)| + |MapRow(e, run, row, RejectLog)| == 1
    ensures |MapRow(e, run, row, RecordLineage)| == |MapRow(e, run, row, RejectLog)|
    ensures MapRow(e, run, row, SourceTable) == []
  {
  }

  lemma {:induction false} MapAccountsForEveryRow(e: Engine, run: string, rows: seq<Row>)
    requires forall row | row in rows :: row.body.SourceRow?
    ensures |rows| == |MapAll(e, run, rows, TargetTable)| + |MapAll(e, run, rows, RejectLog)|
    ensures |MapAll(e, run, rows, RecordLineage)| == |MapAll(e, run, rows, RejectLog)|
    ensures MapAll(e, run, rows, SourceTable) == []
  {
    if rows != [] {
      MapAccountsForEveryRow(e, run, rows[..|rows| - 1]);
      assert rows[|rows| - 1] in rows;
      MapRowHasOneDoor(e, run, rows[|rows| - 1]);
    }
  }

  // ---- what may stand in a table, said of the engine alone ------------------------------------

  /** A source row's record as it reaches the mapper. */
  predicate Reaches(e: Engine, rows: seq<Row>, fields: Fields) {
    exists s :: s in rows && s.body.SourceRow? && fields == e.enrich(s.body.fields)
  }

  lemma {:induction false} ReachesNext(e: Engine, rows: seq<Row>, fields: Fields)
    requires rows != []
    ensures var n := |rows| - 1;
            Reaches(e, rows, fields) <==>
              Reaches(e, rows[..n], fields) || (rows[n].body.SourceRow? && fields == e.enrich(rows[n].body.fields))
  {
    var n := |rows| - 1;
    assert rows == rows[..n] + [rows[n]];
  }

  /** Target rows are the documents that some source row maps to and that validate, and no others. */
  lemma {:induction false} TargetRowsExactly(e: Engine, run: string, rows: seq<Row>, row: Row)
    ensures row in MapAll(e, run, rows, TargetTable) <==>
              exists fields :: Reaches(e, rows, fields) &&
                e.mapRecord(fields, run).Ok? && e.validate(e.mapRecord(fields, run).value).None? &&
                row == Row(run, Map, TargetRow(e.mapRecord(fields, run).value))
  {
    if rows != [] {
      var n := |rows| - 1;
      TargetRowsExactly(e, run, rows[..n], row);
      forall fields ensures Reaches(e, rows, fields) <==>
          Reaches(e, rows[..n], fields) || (rows[n].body.SourceRow? && fields == e.enrich(rows[n].body.fields)) {
        ReachesNext(e, rows, fields);
      }
    }
  }

  /** The record is refused with this fault: by the mapper, or by the validator once it is mapped. */
  predicate IsRefused(e: Engine, run: string, fields: Fields, stage: Stage, fault: Fault) {
    || (stage == Map && e.mapRecord(fields, run) == Err(fault))
    || (stage == Schema && e.mapRecord(fields, run).Ok? && e.validate(e.mapRecord(fields, run).value) == Some(fault))
  }

  ghost predicate IsRejectOf(e: Engine, run: string, fields: Fields, row: Row) {
    exists fault :: IsRefused(e, run, fields, row.stage, fault) &&
      row == Row(run, row.stage, Reject(if "account_id" in fields then fields["account_id"] else "",
                                        fault.reason, fault.detail, e.show(fields)))
  }

  ghost predicate IsLineageOf(e: Engine, run: string, fields: Fields, row: Row) {
    exists fault :: IsRefused(e, run, fields, row.stage, fault) &&
      row == Row(run, row.stage, Lineage(if "account_id" in fields then fields["account_id"] else "",
                                         if "account_key" in fields && fields["account_key"] != ""
                                         then Some(fields["account_key"]) else None,
                                         fault.reason, fault.detail))
  }

  lemma {:induction false} OneRowRefused(e: Engine, run: string, source: Row, row: Row)
    requires source.body.SourceRow?
    ensures var fields := e.enrich(source.body.fields);
            && (row in MapRow(e, run, source, RejectLog) <==> IsRejectOf(e, run, fields, row))
            && (row in MapRow(e, run, source, RecordLineage) <==> IsLineageOf(e, run, fields, row))
  {
    var fields := e.enrich(source.body.fields);
    match e.mapRecord(fields, run)
    case Err(fault) => assert IsRefused(e, run, fields, Map, fault);
    case Ok(document) =>
      match e.validate(document)
      case Some(fault) => assert IsRefused(e, run, fields, Schema, fault);
      case None =>
  }

  /** Downstream rejects and their lineage are of the records so refused, and of no others. */
  lemma {:induction false} MapRejectsExactly(e: Engine, run: string, rows: seq<Row>, row: Row)
    ensures row in MapAll(e, run, rows, RejectLog) <==>
              exists fields :: Reaches(e, rows, fields) && IsRejectOf(e, run, fields, row)
    ensures row in MapAll(e, run, rows, RecordLineage) <==>
              exists fields :: Reaches(e, rows, fields) && IsLineageOf(e, run, fields, row)
  {
    if rows != [] {
      var n := |rows| - 1;
      MapRejectsExactly(e, run, rows[..n], row);
      if rows[n].body.SourceRow? {
        OneRowRefused(e, run, rows[n], row);
      }
      forall fields ensures Reaches(e, rows, fields) <==>
          Reaches(e, rows[..n], fields) || (rows[n].body.SourceRow? && fields == e.enrich(rows[n].body.fields)) {
        ReachesNext(e, rows, fields);
      }
    }
  }

  lemma {:induction false} OneMoreLine(lines: seq<Line>)
    requires lines != []
    ensures forall line :: line in lines <==> line in lines[..|lines| - 1] || line == lines[|lines| - 1]
  {
    assert lines == lines[..|lines| - 1] + [lines[|lines| - 1]];
  }

  /** Source rows are the lines that parse, with what they parse to under the file they stand in. */
  lemma {:induction false} SourceRowsExactly(e: Engine, run: string, lines: seq<Line>, row: Row)
    ensures row in ParseAll(e, run, lines, SourceTable) <==>
              exists line :: line in lines && e.isRecord(line.text) && e.parse(line.text).Ok? &&
                var fields := e.parse(line.text).value;
                row == Row(run, Parse, SourceRow(line.file, e.sourceKey(fields), e.accountKey(fields), fields))
  {
    if lines != [] {
      SourceRowsExactly(e, run, lines[..|lines| - 1], row);
      OneMoreLine(lines);
    }
  }

  /** Rejects of the parse stage and their lineage are the lines that do not parse, with the parser's fault. */
  lemma {:induction false} ParseRejectsExactly(e: Engine, run: string, lines: seq<Line>, row: Row)
    ensures row in ParseAll(e, run, lines, RejectLog) <==>
              exists line :: line in lines && e.isRecord(line.text) && e.parse(line.text).Err? &&
                var fault := e.parse(line.text).error;
                row == Row(run, Parse, Reject("", fault.reason, fault.detail, line.text))
    ensures row in ParseAll(e, run, lines, RecordLineage) <==>
              exists line :: line in lines && e.isRecord(line.text) && e.parse(line.text).Err? &&
                var fault := e.parse(line.text).error;
                row == Row(run, Parse, Lineage(e.contentName(line.text), None, fault.reason, fault.detail))
  {
    if lines != [] {
      ParseRejectsExactly(e, run, lines[..|lines| - 1], row);
      OneMoreLine(lines);
    }
  }

  /** Two doors across the lane: every record read is a target document or a reject, and every reject is named. */
  lemma {:induction false} CleanPassBalances(e: Engine, run: string, lines: seq<Line>)
    ensures RecordsIn(e, lines) == |Clean(e, run, lines, TargetTable)| + |Clean(e, run, lines, RejectLog)|
    ensures |Clean(e, run, lines, RecordLineage)| == |Clean(e, run, lines, RejectLog)|
  {
    ParseAccountsForEveryRecord(e, run, lines);
    MapAccountsForEveryRow(e, run, ParseAll(e, run, lines, SourceTable));
  }

  /** The lineage row that says why and where a rejected record stopped, under a key of its own if it has none. */
  predicate Explains(e: Engine, lineage: Row, reject: Row) {
    && lineage.body.Lineage? && reject.body.Reject? && lineage.run == reject.run && lineage.stage == reject.stage
    && lineage.body.reason == reject.body.reason && lineage.body.detail == reject.body.detail
    && lineage.body.sourceKey == if reject.stage == Parse then e.contentName(reject.body.raw) else reject.body.sourceKey
  }

  predicate AllExplain(e: Engine, lineage: seq<Row>, rejects: seq<Row>) {
    |lineage| == |rejects| && forall i | 0 <= i < |rejects| :: Explains(e, lineage[i], rejects[i])
  }

  lemma {:induction false} ParseRejectsAreExplained(e: Engine, run: string, lines: seq<Line>)
    ensures AllExplain(e, ParseAll(e, run, lines, RecordLineage), ParseAll(e, run, lines, RejectLog))
  {
    if lines != [] {
      var before, last := lines[..|lines| - 1], lines[|lines| - 1];
      ParseRejectsAreExplained(e, run, before);
    }
  }

  lemma {:induction false} MapRejectsAreExplained(e: Engine, run: string, rows: seq<Row>)
    ensures AllExplain(e, MapAll(e, run, rows, RecordLineage), MapAll(e, run, rows, RejectLog))
  {
    if rows != [] {
      var before, last := rows[..|rows| - 1], rows[|rows| - 1];
      MapRejectsAreExplained(e, run, before);
    }
  }

  /** The register names the rejects one by one: same run, stage, reason and detail. */
  lemma {:induction false} LineageExplainsEveryReject(e: Engine, run: string, lines: seq<Line>)
    ensures AllExplain(e, Clean(e, run, lines, RecordLineage), Clean(e, run, lines, RejectLog))
  {
    var source := ParseAll(e, run, lines, SourceTable);
    ParseRejectsAreExplained(e, run, lines);
    MapRejectsAreExplained(e, run, source);
  }

  /** A stage does not care in which order the rows come out of the table. */
  lemma {:induction false} MapIgnoresOrder(e: Engine, run: string, a: seq<Row>, b: seq<Row>, table: Table)
    requires multiset(a) == multiset(b)
    ensures multiset(MapAll(e, run, a, table)) == multiset(MapAll(e, run, b, table))
    decreases |a|
  {
    if a == [] {
      assert |multiset(b)| == 0;
    } else {
      var n := |a| - 1;
      assert a[n] in multiset(b);
      var i :| 0 <= i < |b| && b[i] == a[n];
      TakeOutBoth(a, n, b, i);
      assert Without(a, n) == a[..n];
      MapIgnoresOrder(e, run, a[..n], Without(b, i), table);
      MapTakesOut(e, run, b, i, table);
    }
  }

  lemma {:induction false} MapConcat(e: Engine, run: string, a: seq<Row>, b: seq<Row>, table: Table)
    ensures MapAll(e, run, a + b, table) == MapAll(e, run, a, table) + MapAll(e, run, b, table)
    decreases |b|
  {
    if b == [] {
      assert a + b == a;
    } else {
      var most, last := b[..|b| - 1], b[|b| - 1];
      assert (a + b)[..|a + b| - 1] == a + most && (a + b)[|a + b| - 1] == last;
      MapConcat(e, run, a, most, table);
      Associative(MapAll(e, run, a, table), MapAll(e, run, most, table), MapRow(e, run, last, table));
    }
  }

  lemma {:induction false} MapTakesOut(e: Engine, run: string, rows: seq<Row>, i: nat, table: Table)
    requires i < |rows|
    ensures multiset(MapAll(e, run, rows, table))
         == multiset(MapAll(e, run, Without(rows, i), table)) + multiset(MapRow(e, run, rows[i], table))
  {
    assert rows == (rows[..i] + [rows[i]]) + rows[i + 1..];
    MapConcat(e, run, rows[..i] + [rows[i]], rows[i + 1..], table);
    MapConcat(e, run, rows[..i], rows[i + 1..], table);
    assert (rows[..i] + [rows[i]])[..i] == rows[..i];
  }

  // ---- purging and appending ------------------------------------------------------------------

  const ALL := {Parse, Map, Schema}
  const DOWNSTREAM := {Map, Schema}

  datatype Scope = Scope(run: string, stages: set<Stage>)

  predicate Within(row: Row, s: Scope) {
    row.run == s.run && row.stage in s.stages
  }

  function Pick(rows: seq<Row>, s: Scope): seq<Row> {
    if rows == [] then []
    else Pick(rows[..|rows| - 1], s) + (if Within(rows[|rows| - 1], s) then [rows[|rows| - 1]] else [])
  }

  function Drop(rows: seq<Row>, s: Scope): seq<Row> {
    if rows == [] then []
    else Drop(rows[..|rows| - 1], s) + (if Within(rows[|rows| - 1], s) then [] else [rows[|rows| - 1]])
  }

  predicate Apart(s: Scope, d: Scope) {
    s.run != d.run || s.stages !! d.stages
  }

  lemma {:induction false} PickConcat(a: seq<Row>, b: seq<Row>, s: Scope)
    ensures Pick(a + b, s) == Pick(a, s) + Pick(b, s)
    decreases |b|
  {
    if b == [] {
      assert a + b == a;
    } else {
      assert (a + b)[..|a + b| - 1] == a + b[..|b| - 1];
      PickConcat(a, b[..|b| - 1], s);
    }
  }

  lemma {:induction false} PickAfterDrop(rows: seq<Row>, d: Scope, s: Scope)
    ensures Apart(s, d) ==> Pick(Drop(rows, d), s) == Pick(rows, s)
    ensures s.run == d.run && s.stages <= d.stages ==> Pick(Drop(rows, d), s) == []
  {
    if rows != [] {
      var before, row := rows[..|rows| - 1], rows[|rows| - 1];
      PickAfterDrop(before, d, s);
      if Within(row, d) {
        assert Drop(rows, d) == Drop(before, d);
      } else {
        assert (Drop(before, d) + [row])[..|Drop(before, d)|] == Drop(before, d);
      }
    }
  }

  lemma {:induction false} PickKeeps(rows: seq<Row>, s: Scope)
    ensures (forall row | row in rows :: Within(row, s)) ==> Pick(rows, s) == rows
    ensures (forall row | row in rows :: !Within(row, s)) ==> Pick(rows, s) == []
  {
    if rows != [] {
      PickKeeps(rows[..|rows| - 1], s);
      assert rows[|rows| - 1] in rows;
      assert rows == rows[..|rows| - 1] + [rows[|rows| - 1]];
    }
  }

  lemma {:induction false} PickSplits(rows: seq<Row>, run: string)
    ensures multiset(Pick(rows, Scope(run, ALL)))
         == multiset(Pick(rows, Scope(run, {Parse}))) + multiset(Pick(rows, Scope(run, DOWNSTREAM)))
  {
    if rows != [] {
      PickSplits(rows[..|rows| - 1], run);
    }
  }

  lemma {:induction false} PickNarrows(rows: seq<Row>, wide: Scope, narrow: Scope)
    requires wide.run == narrow.run && narrow.stages <= wide.stages
    ensures Pick(Pick(rows, wide), narrow) == Pick(rows, narrow)
  {
    if rows != [] {
      var before, row := rows[..|rows| - 1], rows[|rows| - 1];
      PickNarrows(before, wide, narrow);
      if Within(row, wide) {
        assert (Pick(before, wide) + [row])[..|Pick(before, wide)|] == Pick(before, wide);
      } else {
        assert Pick(rows, wide) == Pick(before, wide);
      }
    }
  }

  datatype Effect = Delete(table: Table, scope: Scope) | Insert(table: Table, rows: seq<Row>)

  function After(t: Tables, x: Effect): Tables {
    match x
    case Delete(table, scope) => t[table := Drop(At(t, table), scope)]
    case Insert(table, rows) => t[table := At(t, table) + rows]
  }

  function Perform(t: Tables, effects: seq<Effect>): Tables {
    if effects == [] then t else After(Perform(t, effects[..|effects| - 1]), effects[|effects| - 1])
  }

  // ---- attempts -------------------------------------------------------------------------------

  datatype Job = FileProcessor | JsonProducer

  /** What a job purges of a table before it writes, and the stages it may write there. */
  function Purges(job: Job, table: Table): set<Stage> {
    match job
    case FileProcessor => if table == TargetTable then {} else ALL
    case JsonProducer =>
      (match table
       case SourceTable => {}
       case TargetTable => ALL
       case RejectLog => DOWNSTREAM
       case RecordLineage => DOWNSTREAM)
  }

  function Writes(job: Job): set<Stage> {
    match job
    case FileProcessor => {Parse}
    case JsonProducer => DOWNSTREAM
  }

  function PurgeOrder(job: Job): seq<Table> {
    match job
    case FileProcessor => [SourceTable, RejectLog, RecordLineage]
    case JsonProducer => [TargetTable, RejectLog, RecordLineage]
  }

  function Purge(job: Job, run: string, table: Table): Effect {
    Delete(table, Scope(run, Purges(job, table)))
  }

  function PurgeEffects(job: Job, run: string): seq<Effect> {
    var order := PurgeOrder(job);
    [Purge(job, run, order[0]), Purge(job, run, order[1]), Purge(job, run, order[2])]
  }

  /** The deletes of each job, in their order: all of the run's rows, or those of the stages the job redoes. */
  lemma {:induction false} PurgesExactly(run: string)
    ensures PurgeEffects(FileProcessor, run)
         == [Delete(SourceTable, Scope(run, {Parse, Map, Schema})), Delete(RejectLog, Scope(run, {Parse, Map, Schema})),
             Delete(RecordLineage, Scope(run, {Parse, Map, Schema}))]
    ensures PurgeEffects(JsonProducer, run)
         == [Delete(TargetTable, Scope(run, {Parse, Map, Schema})), Delete(RejectLog, Scope(run, {Map, Schema})),
             Delete(RecordLineage, Scope(run, {Map, Schema}))]
  {
  }

  /** The rows `writes` would append, in whatever order and batching, and how many effects happened at all. */
  datatype Attempt = Attempt(job: Job, run: string, writes: seq<Effect>, reached: nat)

  predicate MayWrite(job: Job, run: string, x: Effect) {
    && x.Insert? && Purges(job, x.table) != {}
    && forall row | row in x.rows :: row.run == run && row.stage in Writes(job)
  }

  predicate WellFormed(a: Attempt) {
    && a.reached <= |PurgeEffects(a.job, a.run) + a.writes|
    && forall i | 0 <= i < |a.writes| :: MayWrite(a.job, a.run, a.writes[i])
  }

  function Effects(a: Attempt): seq<Effect>
    requires WellFormed(a)
  {
    (PurgeEffects(a.job, a.run) + a.writes)[..a.reached]
  }

  function Exec(t: Tables, history: seq<Attempt>): Tables
    requires forall a | a in history :: WellFormed(a)
  {
    if history == [] then t
    else Perform(Exec(t, history[..|history| - 1]), Effects(history[|history| - 1]))
  }

  function Inserted(effects: seq<Effect>, table: Table): seq<Row> {
    if effects == [] then []
    else
      var x := effects[|effects| - 1];
      Inserted(effects[..|effects| - 1], table) + (if x.Insert? && x.table == table then x.rows else [])
  }

  /** A file-processor attempt that got through and wrote what parsing the bundle yields. */
  ghost predicate ParsedAll(e: Engine, lines: seq<Line>, a: Attempt) {
    && WellFormed(a) && a.job == FileProcessor && a.reached == |PurgeEffects(a.job, a.run) + a.writes|
    && forall table :: multiset(Inserted(a.writes, table)) == multiset(ParseAll(e, a.run, lines, table))
  }

  /** A JSON-producer attempt that got through and wrote what mapping the source rows it found yields. */
  ghost predicate MappedAll(e: Engine, t: Tables, a: Attempt) {
    && WellFormed(a) && a.job == JsonProducer && a.reached == |PurgeEffects(a.job, a.run) + a.writes|
    && forall table :: multiset(Inserted(a.writes, table))
                    == multiset(MapAll(e, a.run, Pick(At(t, SourceTable), Scope(a.run, ALL)), table))
  }

  /** No effect of the job on this table reaches into the scope. */
  predicate OutOfReach(a: Attempt, table: Table, s: Scope) {
    s.run != a.run || s.stages !! Purges(a.job, table)
  }

  /** The effect leaves the scope of the table alone. */
  predicate Spares(x: Effect, table: Table, s: Scope) {
    x.table != table
    || match x
       case Delete(_, scope) => Apart(s, scope)
       case Insert(_, rows) => forall row | row in rows :: !Within(row, s)
  }

  lemma {:induction false} PerformSpares(t: Tables, effects: seq<Effect>, table: Table, s: Scope)
    requires forall x | x in effects :: Spares(x, table, s)
    ensures Pick(At(Perform(t, effects), table), s) == Pick(At(t, table), s)
  {
    if effects != [] {
      var before, x := effects[..|effects| - 1], effects[|effects| - 1];
      assert x in effects && forall y | y in before :: y in effects;
      PerformSpares(t, before, table, s);
      if x.table == table {
        var rows := At(Perform(t, before), table);
        match x
        case Delete(_, scope) => PickAfterDrop(rows, scope, s);
        case Insert(_, more) =>
          PickConcat(rows, more, s);
          PickKeeps(more, s);
      }
    }
  }

  lemma {:induction false} AttemptOutOfReach(t: Tables, a: Attempt, table: Table, s: Scope)
    requires WellFormed(a) && OutOfReach(a, table, s)
    ensures Pick(At(Perform(t, Effects(a)), table), s) == Pick(At(t, table), s)
  {
    var p := PurgeEffects(a.job, a.run);
    forall x | x in Effects(a) ensures Spares(x, table, s) {
      var i :| 0 <= i < a.reached && Effects(a)[i] == x;
      if i < |p| {
        assert x == p[i] == Purge(a.job, a.run, PurgeOrder(a.job)[i]);
      } else {
        assert x == a.writes[i - |p|];
        assert MayWrite(a.job, a.run, x) && Writes(a.job) <= Purges(a.job, x.table);
      }
    }
    PerformSpares(t, Effects(a), table, s);
  }

  /** Other runs' rows, and what the job leaves to the other stage, survive any history. */
  lemma {:induction false} HistoryOutOfReach(t: Tables, history: seq<Attempt>, table: Table, s: Scope)
    requires forall a | a in history :: WellFormed(a) && OutOfReach(a, table, s)
    ensures Pick(At(Exec(t, history), table), s) == Pick(At(t, table), s)
  {
    if history != [] {
      var n := |history| - 1;
      var a := history[n];
      assert a in history;
      HistoryOutOfReach(t, history[..n], table, s);
      AttemptOutOfReach(Exec(t, history[..n]), a, table, s);
    }
  }

  // ---- convergence ----------------------------------------------------------------------------

  lemma {:induction false} DeleteEmpties(t: Tables, effects: seq<Effect>, i: nat, table: Table, s: Scope)
    requires i < |effects| && effects[i] == Delete(table, s)
    requires forall j | i < j < |effects| :: effects[j].table != table
    ensures Pick(At(Perform(t, effects), table), s) == []
  {
    var n := |effects| - 1;
    var before := Perform(t, effects[..n]);
    assert Perform(t, effects) == After(before, effects[n]);
    if i == n {
      PickAfterDrop(At(before, table), s, s);
    } else {
      DeleteEmpties(t, effects[..n], i, table, s);
      assert At(After(before, effects[n]), table) == At(before, table);
    }
  }

  lemma {:induction false} PurgeEmpties(t: Tables, job: Job, run: string, table: Table)
    requires Purges(job, table) != {}
    ensures Pick(At(Perform(t, PurgeEffects(job, run)), table), Scope(run, Purges(job, table))) == []
  {
    var order := PurgeOrder(job);
    var i := if order[0] == table then 0 else if order[1] == table then 1 else 2;
    assert order[i] == table;
    assert PurgeEffects(job, run)[i] == Purge(job, run, table);
    DeleteEmpties(t, PurgeEffects(job, run), i, table, Scope(run, Purges(job, table)));
  }

  predicate Lands(x: Effect, s: Scope) {
    x.Insert? && forall row | row in x.rows :: Within(row, s)
  }

  lemma {:induction false} WriteLands(t: Tables, x: Effect, table: Table, s: Scope)
    requires Lands(x, s)
    ensures Pick(At(After(t, x), table), s) == Pick(At(t, table), s) + if x.table == table then x.rows else []
  {
    if x.table == table {
      PickConcat(At(t, table), x.rows, s);
      PickKeeps(x.rows, s);
    }
  }

  lemma {:induction false} WritesLand(t: Tables, writes: seq<Effect>, table: Table, s: Scope)
    requires forall x | x in writes :: Lands(x, s)
    ensures Pick(At(Perform(t, writes), table), s) == Pick(At(t, table), s) + Inserted(writes, table)
  {
    if writes != [] {
      var before, x := writes[..|writes| - 1], writes[|writes| - 1];
      assert x in writes && forall y | y in before :: y in writes;
      WritesLand(t, before, table, s);
      WriteLands(Perform(t, before), x, table, s);
      Associative(Pick(At(t, table), s), Inserted(before, table), if x.table == table then x.rows else []);
    }
  }

  lemma {:induction false} PerformConcat(t: Tables, first: seq<Effect>, second: seq<Effect>)
    ensures Perform(t, first + second) == Perform(Perform(t, first), second)
    decreases |second|
  {
    if second == [] {
      assert first + second == first;
    } else {
      assert (first + second)[..|first + second| - 1] == first + second[..|second| - 1];
      PerformConcat(t, first, second[..|second| - 1]);
    }
  }

  /** A complete attempt has, in the scope it purged, exactly what it wrote. */
  lemma {:induction false} CompleteAttemptLands(t: Tables, a: Attempt, table: Table)
    requires WellFormed(a) && a.reached == |PurgeEffects(a.job, a.run) + a.writes| && Purges(a.job, table) != {}
    ensures Pick(At(Perform(t, Effects(a)), table), Scope(a.run, Purges(a.job, table))) == Inserted(a.writes, table)
  {
    var p := PurgeEffects(a.job, a.run);
    assert Effects(a) == p + a.writes;
    PerformConcat(t, p, a.writes);
    PurgeEmpties(t, a.job, a.run, table);
    forall x | x in a.writes ensures Lands(x, Scope(a.run, Purges(a.job, table))) {
      assert MayWrite(a.job, a.run, x);
    }
    WritesLand(Perform(t, p), a.writes, table, Scope(a.run, Purges(a.job, table)));
  }

  /** A run as it is recovered: anything at all, a complete parse, then anything but another parse of this run. */
  datatype Recovery = Recovery(before: seq<Attempt>, parse: Attempt, between: seq<Attempt>, produce: Attempt,
                               after: seq<Attempt>)

  ghost predicate IsRecovery(e: Engine, run: string, lines: seq<Line>, t: Tables, r: Recovery) {
    && (forall a | a in r.before + r.between + r.after :: WellFormed(a))
    && (forall a | a in r.between :: a.run != run || a.job == JsonProducer)
    && (forall a | a in r.after :: a.run != run)
    && r.parse.run == run && ParsedAll(e, lines, r.parse)
    && r.produce.run == run && MappedAll(e, BeforeProduce(t, r), r.produce)
  }

  function AfterParse(t: Tables, r: Recovery): Tables
    requires (forall a | a in r.before :: WellFormed(a)) && WellFormed(r.parse)
  {
    Perform(Exec(t, r.before), Effects(r.parse))
  }

  function BeforeProduce(t: Tables, r: Recovery): Tables
    requires forall a | a in r.before + r.between + [r.parse] :: WellFormed(a)
  {
    assert r.parse in r.before + r.between + [r.parse];
    Exec(AfterParse(t, r), r.between)
  }

  function Recovered(t: Tables, r: Recovery): Tables
    requires forall a | a in r.before + r.between + r.after + [r.parse, r.produce] :: WellFormed(a)
  {
    assert r.parse in [r.parse, r.produce] && r.produce in [r.parse, r.produce];
    Exec(Perform(BeforeProduce(t, r), Effects(r.produce)), r.after)
  }

  lemma {:induction false} SourceSurvives(e: Engine, run: string, lines: seq<Line>, t: Tables, r: Recovery)
    requires IsRecovery(e, run, lines, t, r)
    ensures multiset(Pick(At(BeforeProduce(t, r), SourceTable), Scope(run, ALL)))
         == multiset(ParseAll(e, run, lines, SourceTable))
  {
    CompleteAttemptLands(Exec(t, r.before), r.parse, SourceTable);
    HistoryOutOfReach(AfterParse(t, r), r.between, SourceTable, Scope(run, ALL));
  }

  lemma {:induction false} ParseRejectsSurvive(e: Engine, run: string, lines: seq<Line>, t: Tables, r: Recovery,
      table: Table)
    requires IsRecovery(e, run, lines, t, r) && table in {RejectLog, RecordLineage}
    ensures multiset(Pick(At(Recovered(t, r), table), Scope(run, {Parse})))
         == multiset(ParseAll(e, run, lines, table))
  {
    var s := Scope(run, {Parse});
    HistoryOutOfReach(Perform(BeforeProduce(t, r), Effects(r.produce)), r.after, table, s);
    AttemptOutOfReach(BeforeProduce(t, r), r.produce, table, s);
    HistoryOutOfReach(AfterParse(t, r), r.between, table, s);
    CompleteAttemptLands(Exec(t, r.before), r.parse, table);
    InsertedWithin(r.parse, r.parse.writes, table);
    PickNarrows(At(AfterParse(t, r), table), Scope(run, ALL), s);
    PickKeeps(Inserted(r.parse.writes, table), s);
  }

  lemma {:induction false} InsertedWithin(a: Attempt, writes: seq<Effect>, table: Table)
    requires forall i | 0 <= i < |writes| :: MayWrite(a.job, a.run, writes[i])
    ensures forall row | row in Inserted(writes, table) :: Within(row, Scope(a.run, Writes(a.job)))
  {
    if writes != [] {
      InsertedWithin(a, writes[..|writes| - 1], table);
      assert MayWrite(a.job, a.run, writes[|writes| - 1]);
    }
  }

  /** What the last, complete production wrote is still there at the end, in the scope it purged. */
  lemma {:induction false} ProducedSurvives(e: Engine, run: string, lines: seq<Line>, t: Tables, r: Recovery,
      table: Table)
    requires IsRecovery(e, run, lines, t, r) && table != SourceTable
    ensures multiset(Pick(At(Recovered(t, r), table), Scope(run, Purges(JsonProducer, table))))
         == multiset(MapAll(e, run, ParseAll(e, run, lines, SourceTable), table))
  {
    var found := Pick(At(BeforeProduce(t, r), SourceTable), Scope(run, ALL));
    HistoryOutOfReach(Perform(BeforeProduce(t, r), Effects(r.produce)), r.after, table,
                      Scope(run, Purges(JsonProducer, table)));
    CompleteAttemptLands(BeforeProduce(t, r), r.produce, table);
    SourceSurvives(e, run, lines, t, r);
    MapIgnoresOrder(e, run, found, ParseAll(e, run, lines, SourceTable), table);
  }

  lemma {:induction false} SourceConverges(e: Engine, run: string, lines: seq<Line>, t: Tables, r: Recovery)
    requires IsRecovery(e, run, lines, t, r)
    ensures multiset(Pick(At(Recovered(t, r), SourceTable), Scope(run, ALL)))
         == multiset(ParseAll(e, run, lines, SourceTable))
  {
    SourceSurvives(e, run, lines, t, r);
    HistoryOutOfReach(Perform(BeforeProduce(t, r), Effects(r.produce)), r.after, SourceTable, Scope(run, ALL));
    AttemptOutOfReach(BeforeProduce(t, r), r.produce, SourceTable, Scope(run, ALL));
  }

  lemma {:induction false} CleanParts(e: Engine, run: string, lines: seq<Line>)
    ensures Clean(e, run, lines, SourceTable) == ParseAll(e, run, lines, SourceTable)
    ensures Clean(e, run, lines, TargetTable) == MapAll(e, run, ParseAll(e, run, lines, SourceTable), TargetTable)
  {
    ParseAccountsForEveryRecord(e, run, lines);
    MapAccountsForEveryRow(e, run, ParseAll(e, run, lines, SourceTable));
  }

  /**
   * Replay converges: whatever crashed and repeated attempts of any runs surround them, a complete
   * parse of a run and a complete production after it leave that run's rows in all four tables
   * equal to those of one clean pass, whatever the tables held before.
   */
  lemma {:induction false} ReplayConverges(e: Engine, run: string, lines: seq<Line>, t: Tables, r: Recovery,
      table: Table)
    requires IsRecovery(e, run, lines, t, r)
    ensures multiset(Pick(At(Recovered(t, r), table), Scope(run, ALL))) == multiset(Clean(e, run, lines, table))
  {
    CleanParts(e, run, lines);
    if table == SourceTable {
      SourceConverges(e, run, lines, t, r);
    } else if table == TargetTable {
      ProducedSurvives(e, run, lines, t, r, table);
      assert Purges(JsonProducer, table) == ALL;
    } else {
      RejectsConverge(e, run, lines, t, r, table);
    }
  }

  lemma {:induction false} RejectsConverge(e: Engine, run: string, lines: seq<Line>, t: Tables, r: Recovery,
      table: Table)
    requires IsRecovery(e, run, lines, t, r) && table in {RejectLog, RecordLineage}
    ensures multiset(Pick(At(Recovered(t, r), table), Scope(run, ALL))) == multiset(Clean(e, run, lines, table))
  {
    PickSplits(At(Recovered(t, r), table), run);
    ParseRejectsSurvive(e, run, lines, t, r, table);
    ProducedSurvives(e, run, lines, t, r, table);
  }

  /** So the equation closes on the tables themselves, as reconciliation counts them. */
  lemma {:induction false} RecoveredRunBalances(e: Engine, run: string, lines: seq<Line>, t: Tables, r: Recovery)
    requires IsRecovery(e, run, lines, t, r)
    ensures var mine := (table: Table) => |Pick(At(Recovered(t, r), table), Scope(run, ALL))|;
            RecordsIn(e, lines) == mine(TargetTable) + mine(RejectLog) && mine(RecordLineage) == mine(RejectLog)
  {
    CleanPassBalances(e, run, lines);
    forall table: Table
      ensures |Pick(At(Recovered(t, r), table), Scope(run, ALL))| == |Clean(e, run, lines, table)|
    {
      ReplayConverges(e, run, lines, t, r, table);
      assert |multiset(Clean(e, run, lines, table))| == |Clean(e, run, lines, table)|;
    }
  }

  /** And no history of one run's attempts, however it ends, moves a row of another run. */
  lemma {:induction false} OtherRunsUntouched(t: Tables, history: seq<Attempt>, run: string, other: string,
      table: Table)
    requires run != other && forall a | a in history :: WellFormed(a) && a.run == run
    ensures Pick(At(Exec(t, history), table), Scope(other, ALL)) == Pick(At(t, table), Scope(other, ALL))
  {
    HistoryOutOfReach(t, history, table, Scope(other, ALL));
  }
}
