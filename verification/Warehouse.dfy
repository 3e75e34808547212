/**
 * The two jobs of the migration lane as they run against the tables: purge, then write as records
 * come through in batches, dying wherever the `budget` of table operations is used up. Each leaves the tables
 * as its attempt says (see Lane), and a job that survives is a complete attempt.
 */
module Warehouse {
  import opened Collections
  import opened Lane

  /** What the file processor says it read and what became of it, one row a run. */
  datatype LedgerRow = LedgerRow(run: string, srcRead: nat, written: nat, rejected: nat, balanced: bool)

  function LedgerOf(ledger: seq<LedgerRow>, run: string): seq<LedgerRow> {
    if ledger == [] then []
    else
      LedgerOf(ledger[..|ledger| - 1], run) +
      (if ledger[|ledger| - 1].run == run then [ledger[|ledger| - 1]] else [])
  }

  function LedgerWithout(ledger: seq<LedgerRow>, run: string): seq<LedgerRow> {
    if ledger == [] then []
    else
      LedgerWithout(ledger[..|ledger| - 1], run) +
      (if ledger[|ledger| - 1].run == run then [] else [ledger[|ledger| - 1]])
  }

  lemma {:induction false} LedgerNext(ledger: seq<LedgerRow>, row: LedgerRow, run: string)
    ensures LedgerOf(ledger + [row], run) == LedgerOf(ledger, run) + (if row.run == run then [row] else [])
  {
    assert (ledger + [row])[..|ledger|] == ledger;
  }

  lemma {:induction false} LedgerPurged(ledger: seq<LedgerRow>, run: string, other: string)
    ensures LedgerOf(LedgerWithout(ledger, run), other) == if other == run then [] else LedgerOf(ledger, other)
  {
    if ledger != [] {
      var before, last := ledger[..|ledger| - 1], ledger[|ledger| - 1];
      LedgerPurged(before, run, other);
      if last.run != run {
        LedgerNext(LedgerWithout(before, run), last, other);
      } else {
        assert LedgerWithout(ledger, run) == LedgerWithout(before, run);
        assert last.run != other ==> LedgerOf(ledger, other) == LedgerOf(before, other);
      }
    }
  }

  /** What a job has to write, table by table. */
  datatype Outputs = Outputs(source: seq<Row>, target: seq<Row>, rejects: seq<Row>, lineage: seq<Row>)
  {
    function Of(table: Table): seq<Row> {
      match table
      case SourceTable => source
      case TargetTable => target
      case RejectLog => rejects
      case RecordLineage => lineage
    }

    function With(table: Table, rows: seq<Row>): (o: Outputs)
      ensures forall other :: o.Of(other) == if other == table then rows else Of(other)
    {
      match table
      case SourceTable => this.(source := rows)
      case TargetTable => this.(target := rows)
      case RejectLog => this.(rejects := rows)
      case RecordLineage => this.(lineage := rows)
    }
  }

  /** The next so many rows for a table, as they happen to be batched together. */
  datatype Taking = Taking(table: Table, size: nat)

  lemma {:induction false} InsertedNext(writes: seq<Effect>, x: Effect, table: Table)
    ensures Inserted(writes + [x], table) == Inserted(writes, table)
            + if x.Insert? && x.table == table then x.rows else []
  {
    assert (writes + [x])[..|writes|] == writes;
  }

  predicate IsBatch(outputs: Outputs, x: Effect) {
    x.Insert? && x.rows != [] && forall row | row in x.rows :: row in outputs.Of(x.table)
  }

  /** Some writes are made and some rows are still pending; together they are the outputs, in their order. */
  ghost predicate IsCut(outputs: Outputs, writes: seq<Effect>, pending: Outputs) {
    && (forall table: Table :: Inserted(writes, table) + pending.Of(table) == outputs.Of(table))
    && (forall x | x in writes :: IsBatch(outputs, x))
  }

  ghost predicate AreBatches(outputs: Outputs, writes: seq<Effect>) {
    && (forall table: Table :: Inserted(writes, table) == outputs.Of(table))
    && forall x | x in writes :: IsBatch(outputs, x)
  }

  ghost predicate AreMine(rows: seq<Row>, job: Job, run: string, table: Table) {
    && (forall row | row in rows :: row.run == run && row.stage in Writes(job))
    && (Purges(job, table) == {} ==> rows == [])
  }

  /** Batches of rows that are the run's own and of the job's stages, for the tables the job purges. */
  lemma {:induction false} BatchesMayBeWritten(job: Job, run: string, outputs: Outputs, writes: seq<Effect>)
    requires AreBatches(outputs, writes) && forall table: Table :: AreMine(outputs.Of(table), job, run, table)
    ensures forall x | x in writes :: MayWrite(job, run, x)
  {
    forall x | x in writes ensures MayWrite(job, run, x) {
      assert IsBatch(outputs, x) && AreMine(outputs.Of(x.table), job, run, x.table) && x.rows[0] in x.rows;
    }
  }

  lemma {:induction false} MovedOver(inserted: seq<Row>, rows: seq<Row>, n: nat)
    requires n <= |rows|
    ensures inserted + rows[..n] + rows[n..] == inserted + rows
  {
    Associative(inserted, rows[..n], rows[n..]);
    assert rows[..n] + rows[n..] == rows;
  }

  lemma {:induction false} BatchOfPending(outputs: Outputs, inserted: seq<Row>, rows: seq<Row>, table: Table, n: nat)
    requires inserted + rows == outputs.Of(table) && 0 < n <= |rows|
    ensures IsBatch(outputs, Effect.Insert(table, rows[..n]))
  {
    assert forall row | row in rows[..n] :: row in inserted + rows;
  }

  lemma {:induction false} CutFurther(outputs: Outputs, writes: seq<Effect>, pending: Outputs, table: Table, n: nat)
    requires IsCut(outputs, writes, pending) && 0 < n <= |pending.Of(table)|
    ensures var rows := pending.Of(table);
            IsCut(outputs, writes + [Effect.Insert(table, rows[..n])], pending.With(table, rows[n..]))
  {
    var rows := pending.Of(table);
    var x := Effect.Insert(table, rows[..n]);
    BatchOfPending(outputs, Inserted(writes, table), rows, table, n);
    MovedOver(Inserted(writes, table), rows, n);
    forall t: Table ensures Inserted(writes + [x], t) + pending.With(table, rows[n..]).Of(t) == outputs.Of(t) {
      InsertedNext(writes, x, t);
      if t != table {
        assert Inserted(writes, t) + [] == Inserted(writes, t);
      }
    }
  }

  /** What is written when some rows are taken, nothing when there are none to take. */
  function BatchOf(pending: Outputs, t: Taking): seq<Effect> {
    var rows := pending.Of(t.table);
    var n := if t.size <= |rows| then t.size else |rows|;
    if n == 0 then [] else [Effect.Insert(t.table, rows[..n])]
  }

  function Left(pending: Outputs, t: Taking): Outputs {
    var rows := pending.Of(t.table);
    pending.With(t.table, if t.size <= |rows| then rows[t.size..] else [])
  }

  /** The takings one after the other. */
  function Pending(outputs: Outputs, takings: seq<Taking>): Outputs {
    if takings == [] then outputs else Left(Pending(outputs, takings[..|takings| - 1]), takings[|takings| - 1])
  }

  function Cut(outputs: Outputs, takings: seq<Taking>): seq<Effect> {
    if takings == [] then []
    else
      var before := takings[..|takings| - 1];
      Cut(outputs, before) + BatchOf(Pending(outputs, before), takings[|takings| - 1])
  }

  /** Each taking writes as many of the pending rows as it asks for and there are, the next ones in order. */
  lemma {:induction false} TakingsAreRespected(outputs: Outputs, takings: seq<Taking>, t: Taking)
    ensures var rows := Pending(outputs, takings).Of(t.table);
            var n := if t.size < |rows| then t.size else |rows|;
            && Pending(outputs, takings + [t]).Of(t.table) == rows[n..]
            && Cut(outputs, takings + [t])
               == Cut(outputs, takings) + (if n == 0 then [] else [Effect.Insert(t.table, rows[..n])])
  {
    assert (takings + [t])[..|takings|] == takings;
  }

  lemma {:induction false} CutNext(outputs: Outputs, takings: seq<Taking>, i: nat)
    requires i < |takings|
    ensures Pending(outputs, takings[..i + 1]) == Left(Pending(outputs, takings[..i]), takings[i])
    ensures Cut(outputs, takings[..i + 1])
         == Cut(outputs, takings[..i]) + BatchOf(Pending(outputs, takings[..i]), takings[i])
  {
    assert takings[..i + 1][..i] == takings[..i];
  }

  lemma {:induction false} CutFits(outputs: Outputs, takings: seq<Taking>)
    ensures IsCut(outputs, Cut(outputs, takings), Pending(outputs, takings))
  {
    if takings == [] {
      forall table: Table ensures Inserted([], table) + outputs.Of(table) == outputs.Of(table) {
      }
    } else {
      var n := |takings| - 1;
      CutFits(outputs, takings[..n]);
      TakenFits(outputs, Cut(outputs, takings[..n]), Pending(outputs, takings[..n]), takings[n]);
    }
  }

  lemma {:induction false} TakenFits(outputs: Outputs, writes: seq<Effect>, pending: Outputs, t: Taking)
    requires IsCut(outputs, writes, pending)
    ensures IsCut(outputs, writes + BatchOf(pending, t), Left(pending, t))
  {
    var rows := pending.Of(t.table);
    var n := if t.size <= |rows| then t.size else |rows|;
    assert Left(pending, t) == pending.With(t.table, rows[n..]);
    if n > 0 {
      CutFurther(outputs, writes, pending, t.table, n);
    } else {
      assert rows[n..] == rows && writes + [] == writes;
      assert forall table: Table :: pending.With(t.table, rows).Of(table) == pending.Of(table);
    }
  }

  /** At the end whatever is left is written, table by table. */
  function AllOf(outputs: Outputs): seq<Taking> {
    [Taking(SourceTable, |outputs.source|), Taking(TargetTable, |outputs.target|),
     Taking(RejectLog, |outputs.rejects|), Taking(RecordLineage, |outputs.lineage|)]
  }

  function WritesOf(outputs: Outputs, takings: seq<Taking>): seq<Effect> {
    Cut(outputs, takings + AllOf(outputs))
  }

  lemma {:induction false} LeftIsShorter(outputs: Outputs, takings: seq<Taking>, table: Table)
    ensures |Pending(outputs, takings).Of(table)| <= |outputs.Of(table)|
  {
    if takings != [] {
      LeftIsShorter(outputs, takings[..|takings| - 1], table);
    }
  }

  lemma {:induction false} NothingIsLeftOf(outputs: Outputs, takings: seq<Taking>, i: nat)
    requires i < |takings| && takings[i].size >= |outputs.Of(takings[i].table)|
    ensures Pending(outputs, takings).Of(takings[i].table) == []
    decreases |takings|
  {
    var n := |takings| - 1;
    if i < n {
      NothingIsLeftOf(outputs, takings[..n], i);
    } else {
      LeftIsShorter(outputs, takings[..n], takings[n].table);
    }
  }

  lemma {:induction false} NothingIsLeft(outputs: Outputs, takings: seq<Taking>, table: Table)
    ensures Pending(outputs, takings + AllOf(outputs)).Of(table) == []
  {
    var k := match table case SourceTable => 0 case TargetTable => 1 case RejectLog => 2 case RecordLineage => 3;
    assert (takings + AllOf(outputs))[|takings| + k] == AllOf(outputs)[k] == Taking(table, |outputs.Of(table)|);
    NothingIsLeftOf(outputs, takings + AllOf(outputs), |takings| + k);
  }

  /**
   * Rows reach their tables in batches of any sizes, those of different tables in any order: however
   * they are cut, each table gets what was to be written to it, in order, and no batch is empty.
   */
  lemma {:induction false} WritesAreBatches(outputs: Outputs, takings: seq<Taking>)
    ensures AreBatches(outputs, WritesOf(outputs, takings))
  {
    var all := takings + AllOf(outputs);
    CutFits(outputs, all);
    forall table: Table ensures Inserted(Cut(outputs, all), table) == outputs.Of(table) {
      NothingIsLeft(outputs, takings, table);
      assert Inserted(Cut(outputs, all), table) + [] == Inserted(Cut(outputs, all), table);
    }
  }

  method Batches(outputs: Outputs, takings: seq<Taking>) returns (writes: seq<Effect>)
    ensures writes == WritesOf(outputs, takings) && AreBatches(outputs, writes)
  {
    writes := [];
    var all, pending := takings + AllOf(outputs), outputs;
    WritesAreBatches(outputs, takings);
    for i := 0 to |all|
      invariant writes == Cut(outputs, all[..i]) && pending == Pending(outputs, all[..i])
    {
      CutNext(outputs, all, i);
      writes := writes + BatchOf(pending, all[i]);
      pending := Left(pending, all[i]);
    }
    assert all[..|all|] == all;
  }

  function ParsedOutputs(e: Engine, run: string, lines: seq<Line>): Outputs {
    Outputs(ParseAll(e, run, lines, SourceTable), [], ParseAll(e, run, lines, RejectLog),
            ParseAll(e, run, lines, RecordLineage))
  }

  function MappedOutputs(e: Engine, run: string, rows: seq<Row>): Outputs {
    Outputs([], MapAll(e, run, rows, TargetTable), MapAll(e, run, rows, RejectLog),
            MapAll(e, run, rows, RecordLineage))
  }

  class Warehouse {
    var tables: Tables
    var ledger: seq<LedgerRow>

    /** All four tables have been created. */
    ghost predicate Provisioned()
      reads this
    {
      forall table: Table :: table in tables
    }

    /** Counts first and deletes only when there is something to delete. */
    method Delete(table: Table, scope: Scope)
      requires Provisioned()
      modifies this`tables
      ensures Provisioned() && tables == After(old(tables), Effect.Delete(table, scope))
    {
      var existing := 0;
      var rows := tables[table];
      for i := 0 to |rows|
        invariant existing == |Pick(rows[..i], scope)|
      {
        assert rows[..i + 1][..i] == rows[..i];
        if Within(rows[i], scope) {
          existing := existing + 1;
        }
      }
      assert rows[..|rows|] == rows;
      NothingToDrop(rows, scope);
      if existing != 0 {
        tables := tables[table := Drop(rows, scope)];
      }
    }

    method Insert(table: Table, rows: seq<Row>)
      requires Provisioned()
      modifies this`tables
      ensures Provisioned() && tables == After(old(tables), Effect.Insert(table, rows))
    {
      tables := tables[table := tables[table] + rows];
    }

    method Do(x: Effect)
      requires Provisioned()
      modifies this`tables
      ensures Provisioned() && tables == After(old(tables), x)
    {
      match x {
        case Delete(table, scope) => Delete(table, scope);
        case Insert(table, rows) => Insert(table, rows);
      }
    }

    /** Performs the planned effects in order until they or the budget run out. */
    method Perform(plan: seq<Effect>, budget: nat) returns (reached: nat)
      requires Provisioned()
      modifies this`tables
      ensures Provisioned()
      ensures reached == (if budget < |plan| then budget else |plan|)
      ensures tables == Lane.Perform(old(tables), plan[..reached])
    {
      reached := 0;
      while reached < |plan| && reached < budget
        invariant reached <= |plan| && reached <= budget
        invariant Provisioned() && tables == Lane.Perform(old(tables), plan[..reached])
      {
        Do(plan[reached]);
        assert plan[..reached + 1][..reached] == plan[..reached];
        reached := reached + 1;
      }
    }

    /** Purges, then writes batch by batch, until done or dead; `left` is the budget not used up. */
    method RunJob(job: Job, run: string, writes: seq<Effect>, budget: nat)
      returns (survived: bool, left: nat, ghost a: Attempt)
      requires Provisioned() && forall x | x in writes :: MayWrite(job, run, x)
      modifies this`tables
      ensures Provisioned() && WellFormed(a) && tables == Lane.Perform(old(tables), Effects(a))
      ensures a.job == job && a.run == run && a.writes == writes
      ensures survived <==> budget >= |PurgeEffects(job, run)| + |writes|
      ensures a.reached == if survived then |PurgeEffects(job, run)| + |writes| else budget
      ensures left == budget - a.reached
    {
      var plan := PurgeEffects(job, run) + writes;
      var reached := Perform(plan, budget);
      survived, left := reached == |plan|, budget - reached;
      a := Attempt(job, run, writes, reached);
    }

    /** Replaces the run's ledger row, unless it dies before or in between. */
    method RecordLedger(row: LedgerRow, budget: nat) returns (recorded: bool)
      modifies this`ledger
      ensures recorded <==> budget >= 2
      ensures LedgerOf(ledger, row.run) ==
                if budget == 0 then LedgerOf(old(ledger), row.run) else if budget == 1 then [] else [row]
      ensures forall other | other != row.run :: LedgerOf(ledger, other) == LedgerOf(old(ledger), other)
    {
      if budget == 0 {
        return false;
      }
      ledger := LedgerWithout(ledger, row.run);
      forall other ensures LedgerOf(ledger, other) == if other == row.run then [] else LedgerOf(old(ledger), other) {
        LedgerPurged(old(ledger), row.run, other);
      }
      if budget == 1 {
        return false;
      }
      ghost var purged := ledger;
      ledger := ledger + [row];
      forall other ensures LedgerOf(ledger, other)
                           == LedgerOf(purged, other) + (if other == row.run then [row] else []) {
        LedgerNext(purged, row, other);
      }
      return true;
    }

    method ParseAndWrite(e: Engine, run: string, lines: seq<Line>, takings: seq<Taking>, budget: nat)
      returns (survived: bool, left: nat, counted: LedgerRow, ghost a: Attempt)
      requires Provisioned()
      modifies this`tables
      ensures Provisioned() && WellFormed(a) && a.run == run && a.job == FileProcessor
      ensures tables == Lane.Perform(old(tables), Effects(a))
      ensures survived ==> ParsedAll(e, lines, a)
      ensures survived <==> budget >= |PurgeEffects(FileProcessor, run)| + |a.writes|
      ensures a.reached == if survived then |PurgeEffects(FileProcessor, run)| + |a.writes| else budget
      ensures left == budget - a.reached
      ensures a.writes == WritesOf(ParsedOutputs(e, run, lines), takings)
      ensures counted.run == run && counted.srcRead == RecordsIn(e, lines) == counted.written + counted.rejected
      ensures counted.written == |ParseAll(e, run, lines, SourceTable)| && counted.balanced
    {
      var source, rejects, lineage, srcRead, written, rejected := ParseLines(e, run, lines);
      var outputs := Outputs(source, [], rejects, lineage);
      var writes := Batches(outputs, takings);
      OutputsOfParsing(e, run, lines);
      BatchesMayBeWritten(FileProcessor, run, outputs, writes);
      survived, left, a := RunJob(FileProcessor, run, writes, budget);
      counted := LedgerRow(run, srcRead, written, rejected, srcRead == written + rejected);
    }

    /**
     * `takings` is how the rows fall into batches. The counters balance whatever the bundle holds, so
     * the check before the ledger is written never fails.
     */
    method RunFileProcessor(e: Engine, run: string, lines: seq<Line>, takings: seq<Taking>, budget: nat)
      returns (survived: bool, recorded: bool, counted: LedgerRow, ghost a: Attempt)
      requires Provisioned()
      modifies this
      ensures Provisioned() && WellFormed(a) && a.run == run && a.job == FileProcessor
      ensures tables == Lane.Perform(old(tables), Effects(a))
      ensures survived ==> ParsedAll(e, lines, a)
      ensures survived <==> budget >= |PurgeEffects(FileProcessor, run)| + |a.writes|
      ensures a.reached == if survived then |PurgeEffects(FileProcessor, run)| + |a.writes| else budget
      ensures a.writes == WritesOf(ParsedOutputs(e, run, lines), takings)
      ensures counted.run == run && counted.srcRead == RecordsIn(e, lines) == counted.written + counted.rejected
      ensures counted.written == |ParseAll(e, run, lines, SourceTable)| && counted.balanced
      ensures recorded <==> budget >= |PurgeEffects(FileProcessor, run)| + |a.writes| + 2
      ensures recorded ==> LedgerOf(ledger, run) == [counted]
      ensures !survived ==> ledger == old(ledger)
      ensures forall other | other != run :: LedgerOf(ledger, other) == LedgerOf(old(ledger), other)
    {
      var left;
      survived, left, counted, a := ParseAndWrite(e, run, lines, takings, budget);
      recorded := false;
      if survived {
        recorded := RecordLedger(counted, left);
      }
    }

    method RunJsonProducer(e: Engine, run: string, takings: seq<Taking>, budget: nat)
      returns (survived: bool, ghost a: Attempt)
      requires Provisioned()
      modifies this`tables
      ensures Provisioned() && WellFormed(a) && a.run == run && a.job == JsonProducer
      ensures tables == Lane.Perform(old(tables), Effects(a))
      ensures survived ==> MappedAll(e, old(tables), a)
      ensures survived <==> budget >= |PurgeEffects(JsonProducer, run)| + |a.writes|
      ensures a.reached == if survived then |PurgeEffects(JsonProducer, run)| + |a.writes| else budget
      ensures a.writes == WritesOf(MappedOutputs(e, run, Pick(old(tables)[SourceTable], Scope(run, ALL))), takings)
    {
      var rows := Pick(tables[SourceTable], Scope(run, ALL));
      var target, rejects, lineage := MapRows(e, run, rows);
      var outputs := Outputs([], target, rejects, lineage);
      var writes := Batches(outputs, takings);
      OutputsOfMapping(e, run, rows);
      BatchesMayBeWritten(JsonProducer, run, outputs, writes);
      var left;
      survived, left, a := RunJob(JsonProducer, run, writes, budget);
    }
  }

  method ParseLines(e: Engine, run: string, lines: seq<Line>)
    returns (source: seq<Row>, rejects: seq<Row>, lineage: seq<Row>, srcRead: nat, written: nat, rejected: nat)
    ensures source == ParseAll(e, run, lines, SourceTable)
    ensures rejects == ParseAll(e, run, lines, RejectLog)
    ensures lineage == ParseAll(e, run, lines, RecordLineage)
    ensures forall row | row in source + rejects + lineage :: row.run == run && row.stage == Parse
    ensures srcRead == written + rejected && srcRead == RecordsIn(e, lines) && written == |source|
  {
    source, rejects, lineage := [], [], [];
    srcRead, written, rejected := 0, 0, 0;
    for i := 0 to |lines|
      invariant srcRead == RecordsIn(e, lines[..i]) == written + rejected && written == |source|
      invariant source == ParseAll(e, run, lines[..i], SourceTable)
      invariant rejects == ParseAll(e, run, lines[..i], RejectLog)
      invariant lineage == ParseAll(e, run, lines[..i], RecordLineage)
    {
      assert lines[..i + 1][..i] == lines[..i];
      if e.isRecord(lines[i].text) {
        srcRead := srcRead + 1;
        if e.parse(lines[i].text).Ok? {
          written := written + 1;
        } else {
          rejected := rejected + 1;
        }
      }
      source := source + ParseLine(e, run, lines[i], SourceTable);
      rejects := rejects + ParseLine(e, run, lines[i], RejectLog);
      lineage := lineage + ParseLine(e, run, lines[i], RecordLineage);
    }
    assert lines[..|lines|] == lines;
    ParsedRowsAreMine(e, run, lines, SourceTable);
    ParsedRowsAreMine(e, run, lines, RejectLog);
    ParsedRowsAreMine(e, run, lines, RecordLineage);
  }

  method MapRows(e: Engine, run: string, rows: seq<Row>)
    returns (target: seq<Row>, rejects: seq<Row>, lineage: seq<Row>)
    ensures target == MapAll(e, run, rows, TargetTable)
    ensures rejects == MapAll(e, run, rows, RejectLog)
    ensures lineage == MapAll(e, run, rows, RecordLineage)
    ensures forall row | row in target + rejects + lineage :: row.run == run && row.stage in DOWNSTREAM
  {
    target, rejects, lineage := [], [], [];
    for i := 0 to |rows|
      invariant target == MapAll(e, run, rows[..i], TargetTable)
      invariant rejects == MapAll(e, run, rows[..i], RejectLog)
      invariant lineage == MapAll(e, run, rows[..i], RecordLineage)
    {
      assert rows[..i + 1][..i] == rows[..i];
      target := target + MapRow(e, run, rows[i], TargetTable);
      rejects := rejects + MapRow(e, run, rows[i], RejectLog);
      lineage := lineage + MapRow(e, run, rows[i], RecordLineage);
    }
    assert rows[..|rows|] == rows;
    MappedRowsAreMine(e, run, rows, TargetTable);
    MappedRowsAreMine(e, run, rows, RejectLog);
    MappedRowsAreMine(e, run, rows, RecordLineage);
  }

  lemma {:induction false} NothingToDrop(rows: seq<Row>, scope: Scope)
    ensures Pick(rows, scope) == [] ==> Drop(rows, scope) == rows
  {
    if rows != [] {
      NothingToDrop(rows[..|rows| - 1], scope);
      assert rows == rows[..|rows| - 1] + [rows[|rows| - 1]];
    }
  }

  lemma {:induction false} OutputsOfParsing(e: Engine, run: string, lines: seq<Line>)
    ensures var outputs := ParsedOutputs(e, run, lines);
            && (forall table: Table :: outputs.Of(table) == ParseAll(e, run, lines, table))
            && (forall table: Table :: AreMine(outputs.Of(table), FileProcessor, run, table))
  {
    var outputs := ParsedOutputs(e, run, lines);
    forall table: Table
      ensures outputs.Of(table) == ParseAll(e, run, lines, table)
      ensures AreMine(outputs.Of(table), FileProcessor, run, table)
    {
      ParseAccountsForEveryRecord(e, run, lines);
      ParsedRowsAreMine(e, run, lines, table);
      assert Parse in ALL;
    }
  }

  lemma {:induction false} OutputsOfMapping(e: Engine, run: string, rows: seq<Row>)
    ensures var outputs := MappedOutputs(e, run, rows);
            && (forall table: Table :: outputs.Of(table) == MapAll(e, run, rows, table))
            && (forall table: Table :: AreMine(outputs.Of(table), JsonProducer, run, table))
  {
    var outputs := MappedOutputs(e, run, rows);
    forall table: Table
      ensures outputs.Of(table) == MapAll(e, run, rows, table) && AreMine(outputs.Of(table), JsonProducer, run, table)
    {
      MappedRowsAreMine(e, run, rows, table);
      assert Map in ALL && Map in DOWNSTREAM;
    }
  }

  lemma {:induction false} ParsedRowsAreMine(e: Engine, run: string, lines: seq<Line>, table: Table)
    ensures forall row | row in ParseAll(e, run, lines, table) :: row.run == run && row.stage == Parse
  {
    if lines != [] {
      ParsedRowsAreMine(e, run, lines[..|lines| - 1], table);
    }
  }

  lemma {:induction false} MappedRowsAreMine(e: Engine, run: string, rows: seq<Row>, table: Table)
    ensures forall row | row in MapAll(e, run, rows, table) :: row.run == run && row.stage in DOWNSTREAM
    ensures MapAll(e, run, rows, SourceTable) == []
  {
    if rows != [] {
      var n := |rows| - 1;
      MappedRowsAreMine(e, run, rows[..n], table);
      MappedRowIsMine(e, run, rows[n], table);
      assert forall row | row in MapAll(e, run, rows, table) ::
          row in MapAll(e, run, rows[..n], table) || row in MapRow(e, run, rows[n], table);
    }
  }

  lemma {:induction false} MappedRowIsMine(e: Engine, run: string, row: Row, table: Table)
    ensures forall r | r in MapRow(e, run, row, table) :: r.run == run && r.stage in DOWNSTREAM
    ensures MapRow(e, run, row, SourceTable) == []
  {
  }
}
