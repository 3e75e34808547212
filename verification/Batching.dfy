/**
 * The emission stage of the JSON producer: numbered rows are grouped into batches as they stream
 * by, and three checks afterwards decide whether the run may stand.
 */
module Batching {
  import opened Wrappers
  import opened Collections
  import opened Arithmetic

  datatype Numbered = Numbered(batch: int, document: string)

  datatype Batch = Batch(id: int, documents: seq<string>)

  /** DIV(ROW_NUMBER() - 1, size) over the documents in key order. */
  function Number(documents: seq<string>, size: nat): seq<Numbered>
    requires size > 0
  {
    seq(|documents|, i requires 0 <= i < |documents| => Numbered(i / size, documents[i]))
  }

  /** Maximal stretches of rows with the same id. */
  function Groups(rows: seq<Numbered>): seq<Batch> {
    if rows == [] then []
    else AddRow(Groups(rows[..|rows| - 1]), rows[|rows| - 1])
  }

  function AddRow(groups: seq<Batch>, row: Numbered): seq<Batch> {
    if groups != [] && groups[|groups| - 1].id == row.batch
    then groups[..|groups| - 1] + [Batch(row.batch, groups[|groups| - 1].documents + [row.document])]
    else groups + [Batch(row.batch, [row.document])]
  }

  /** `batch_counters`: a batch whose id recurs overwrites the earlier one. */
  function Tallies(batches: seq<Batch>): map<int, nat> {
    if batches == [] then map[]
    else Tallies(batches[..|batches| - 1])[batches[|batches| - 1].id := |batches[|batches| - 1].documents|]
  }

  function Documents(batches: seq<Batch>): seq<string> {
    if batches == [] then []
    else Documents(batches[..|batches| - 1]) + batches[|batches| - 1].documents
  }

  function DocumentsOf(rows: seq<Numbered>): seq<string> {
    seq(|rows|, i requires 0 <= i < |rows| => rows[i].document)
  }

  /** Grouping loses nothing, adds nothing and keeps the order; no group is empty. */
  lemma {:induction false} GroupsKeepEverything(rows: seq<Numbered>)
    ensures Documents(Groups(rows)) == DocumentsOf(rows)
    ensures forall b | b in Groups(rows) :: b.documents != []
  {
    if rows != [] {
      var before, row := rows[..|rows| - 1], rows[|rows| - 1];
      var g := Groups(before);
      GroupsKeepEverything(before);
      assert DocumentsOf(rows) == DocumentsOf(before) + [row.document];
      if g != [] && g[|g| - 1].id == row.batch {
        var front, last := g[..|g| - 1], g[|g| - 1];
        assert Documents(front) + (last.documents + [row.document])
            == Documents(front) + last.documents + [row.document];
        assert forall b | b in front :: b in g;
      }
    }
  }

  /** The rows of the batches, each document under its batch's id again. */
  function RowsOf(batches: seq<Batch>): seq<Numbered> {
    if batches == [] then [] else RowsOf(batches[..|batches| - 1]) + Under(batches[|batches| - 1])
  }

  function Under(b: Batch): (rows: seq<Numbered>)
    ensures |rows| == |b.documents|
  {
    seq(|b.documents|, i requires 0 <= i < |b.documents| => Numbered(b.id, b.documents[i]))
  }

  lemma {:induction false} RowsOfNext(front: seq<Batch>, b: Batch)
    ensures RowsOf(front + [b]) == RowsOf(front) + Under(b)
  {
    assert (front + [b])[..|front|] == front;
  }

  lemma {:induction false} RowJoinsRows(groups: seq<Batch>, row: Numbered)
    ensures RowsOf(AddRow(groups, row)) == RowsOf(groups) + [row]
  {
    if groups != [] && groups[|groups| - 1].id == row.batch {
      var front, last := groups[..|groups| - 1], groups[|groups| - 1];
      var longer := Batch(row.batch, last.documents + [row.document]);
      RowsOfNext(front, longer);
      assert Under(longer) == Under(last) + [row];
      assert RowsOf(front) + (Under(last) + [row]) == RowsOf(front) + Under(last) + [row];
    } else {
      RowsOfNext(groups, Batch(row.batch, [row.document]));
      assert Under(Batch(row.batch, [row.document])) == [row];
    }
  }

  predicate NeighboursDiffer(batches: seq<Batch>) {
    forall k | 0 <= k < |batches| - 1 :: batches[k].id != batches[k + 1].id
  }

  lemma {:induction false} NeighboursStillDiffer(groups: seq<Batch>, row: Numbered)
    requires NeighboursDiffer(groups)
    ensures NeighboursDiffer(AddRow(groups, row))
  {
    var after := AddRow(groups, row);
    forall k | 0 <= k < |after| - 1 ensures after[k].id != after[k + 1].id {
      assert k < |groups| - 1 ==> groups[k].id != groups[k + 1].id;
    }
  }

  lemma {:induction false} LastRow(rows: seq<Numbered>)
    requires rows != []
    ensures rows == rows[..|rows| - 1] + [rows[|rows| - 1]]
    ensures Groups(rows) == AddRow(Groups(rows[..|rows| - 1]), rows[|rows| - 1])
  {
  }

  /** The batches are the rows cut where the id changes: every row under its own id, and no two neighbours alike. */
  lemma {:induction false} GroupsAreStretches(rows: seq<Numbered>)
    ensures RowsOf(Groups(rows)) == rows
    ensures NeighboursDiffer(Groups(rows))
  {
    if rows != [] {
      var g, row := Groups(rows[..|rows| - 1]), rows[|rows| - 1];
      GroupsAreStretches(rows[..|rows| - 1]);
      LastRow(rows);
      RowJoinsRows(g, row);
      NeighboursStillDiffer(g, row);
    }
  }

  // ---- the three checks -----------------------------------------------------------------------

  function Ceil(n: nat, size: nat): nat
    requires size > 0
  {
    (n + size - 1) / size
  }

  predicate AllButGreatestFull(m: map<int, nat>, size: nat) {
    forall id | id in m && m[id] != size :: forall other | other in m :: other <= id
  }

  ghost predicate ChecksPass(batches: seq<Batch>, size: nat, written: nat)
    requires size > 0
  {
    && AllButGreatestFull(Tallies(batches), size)
    && |batches| == Ceil(written, size)
    && Total(Tallies(batches)) == written
  }

  predicate NoIdRecurs(batches: seq<Batch>) {
    forall i, j | 0 <= i < j < |batches| :: batches[i].id != batches[j].id
  }

  lemma {:induction false} TallyKeys(batches: seq<Batch>)
    ensures forall id :: id in Tallies(batches) <==> exists i :: 0 <= i < |batches| && batches[i].id == id
  {
    if batches != [] {
      var before, b := batches[..|batches| - 1], batches[|batches| - 1];
      TallyKeys(before);
      assert forall i | 0 <= i < |before| :: before[i] == batches[i];
    }
  }

  lemma {:induction false} TallySizes(batches: seq<Batch>)
    requires NoIdRecurs(batches)
    ensures |Tallies(batches)| == |batches|
    ensures forall i | 0 <= i < |batches| ::
              batches[i].id in Tallies(batches) && Tallies(batches)[batches[i].id] == |batches[i].documents|
  {
    if batches != [] {
      var before, b := batches[..|batches| - 1], batches[|batches| - 1];
      assert forall i | 0 <= i < |before| :: before[i] == batches[i];
      TallySizes(before);
      TallyKeys(before);
      assert b.id !in Tallies(before);
      assert Tallies(batches).Keys == Tallies(before).Keys + {b.id};
    }
  }

  lemma {:induction false} NoIdRecursNext(batches: seq<Batch>)
    requires batches != []
    ensures NoIdRecurs(batches) <==>
            NoIdRecurs(batches[..|batches| - 1]) && batches[|batches| - 1].id !in Tallies(batches[..|batches| - 1])
  {
    var before := batches[..|batches| - 1];
    TallyKeys(before);
    assert forall i | 0 <= i < |before| :: before[i] == batches[i];
  }

  /** The tallies add up to the documents emitted exactly when no id recurred. */
  lemma {:induction false} TotalCountsExactly(batches: seq<Batch>)
    requires forall b | b in batches :: b.documents != []
    ensures Total(Tallies(batches)) <= |Documents(batches)|
    ensures Total(Tallies(batches)) == |Documents(batches)| <==> NoIdRecurs(batches)
  {
    if batches != [] {
      var before, b := batches[..|batches| - 1], batches[|batches| - 1];
      assert b in batches && forall c | c in before :: c in batches;
      TotalCountsExactly(before);
      TotalNext(Tallies(before), b.id, |b.documents|);
      NoIdRecursNext(batches);
      if b.id in Tallies(before) {
        TalliesPositive(before, b.id);
      }
    }
  }

  lemma {:induction false} TalliesPositive(batches: seq<Batch>, id: int)
    requires (forall b | b in batches :: b.documents != []) && id in Tallies(batches)
    ensures Tallies(batches)[id] > 0
  {
    var before, b := batches[..|batches| - 1], batches[|batches| - 1];
    assert b in batches && forall c | c in before :: c in batches;
    if b.id != id {
      TalliesPositive(before, id);
    }
  }

  lemma {:induction false} TotalOfEquals(m: map<int, nat>, size: nat)
    requires forall id | id in m :: m[id] == size
    ensures Total(m) == |m| * size
    decreases |m|
  {
    if m != map[] {
      var id := SomeKey(m);
      TotalTakeOut(m, id);
      var rest := m - {id};
      assert rest.Keys == m.Keys - {id};
      TotalOfEquals(rest, size);
      assert |m| == |rest| + 1;
      MulNext(|rest|, |m|, size);
    }
  }

  lemma {:induction false} TotalWhenFull(m: map<int, nat>, size: nat, last: int)
    requires last in m && forall id | id in m && id != last :: m[id] == size
    ensures Total(m) == (|m| - 1) * size + m[last]
  {
    var rest := m - {last};
    TotalTakeOut(m, last);
    assert rest.Keys == m.Keys - {last};
    TotalOfEquals(rest, size);
    assert |rest| == |m| - 1;
  }

  lemma {:induction false} CeilBounds(n: nat, size: nat)
    requires size > 0
    ensures n > 0 ==> (Ceil(n, size) - 1) * size < n <= Ceil(n, size) * size
    ensures n == 0 ==> Ceil(n, size) == 0
  {
    var q := Ceil(n, size);
    assert n + size - 1 == q * size + (n + size - 1) % size;
    assert (q - 1) * size == q * size - size;
  }

  predicate HasGreater(batches: seq<Batch>, i: nat)
    requires i < |batches|
  {
    exists j :: 0 <= j < |batches| && batches[j].id > batches[i].id
  }

  predicate WellBatched(batches: seq<Batch>, size: nat) {
    && NoIdRecurs(batches)
    && forall i | 0 <= i < |batches| ::
         if HasGreater(batches, i) then |batches[i].documents| == size else 1 <= |batches[i].documents| <= size
  }

  lemma {:induction false} BelowGreatestIsFull(batches: seq<Batch>, size: nat, i: nat)
    requires i < |batches| && NoIdRecurs(batches) && AllButGreatestFull(Tallies(batches), size)
        && HasGreater(batches, i)
    ensures |batches[i].documents| == size
  {
    TallyKeys(batches);
    TallySizes(batches);
    var j :| 0 <= j < |batches| && batches[j].id > batches[i].id;
    assert batches[j].id in Tallies(batches);
  }

  lemma {:induction false} OthersAreFull(batches: seq<Batch>, size: nat, i: nat)
    requires i < |batches| && NoIdRecurs(batches) && AllButGreatestFull(Tallies(batches), size)
        && !HasGreater(batches, i)
    ensures batches[i].id in Tallies(batches)
    ensures forall id | id in Tallies(batches) && id != batches[i].id :: Tallies(batches)[id] == size
  {
    TallyKeys(batches);
    forall id | id in Tallies(batches) && id != batches[i].id ensures Tallies(batches)[id] == size {
      var j :| 0 <= j < |batches| && batches[j].id == id;
      assert !(batches[i].id <= id);
    }
  }

  lemma {:induction false} LastFits(batches: seq<Batch>, size: nat, n: nat, i: nat)
    requires size > 0 && i < |batches| && NoIdRecurs(batches) && ChecksPass(batches, size, n) && !HasGreater(batches, i)
    ensures 1 <= |batches[i].documents| <= size
  {
    OthersAreFull(batches, size, i);
    TallySizes(batches);
    TotalWhenFull(Tallies(batches), size, batches[i].id);
    CeilBounds(n, size);
    MulNext(|batches| - 1, |batches|, size);
  }

  /**
   * Soundness for whatever ids the numbering came up with: when the checks pass and as many rows
   * came back as were written, no id recurs, every batch but the one with the greatest id is full
   * and that one holds between one and `size` documents.
   */
  lemma {:induction false} ChecksAreSound(rows: seq<Numbered>, size: nat)
    requires size > 0 && ChecksPass(Groups(rows), size, |rows|)
    ensures WellBatched(Groups(rows), size)
  {
    var batches := Groups(rows);
    GroupsKeepEverything(rows);
    TotalCountsExactly(batches);
    forall i | 0 <= i < |batches|
      ensures if HasGreater(batches, i) then |batches[i].documents| == size else 1 <= |batches[i].documents| <= size
    {
      if HasGreater(batches, i) {
        BelowGreatestIsFull(batches, size, i);
      } else {
        LastFits(batches, size, |rows|, i);
      }
    }
  }

  // ---- completeness ---------------------------------------------------------------------------

  /** What grouping must give when the rows are numbered i div size. */
  predicate Regular(batches: seq<Batch>, n: nat, size: nat)
    requires size > 0
  {
    && |batches| == Ceil(n, size)
    && forall k | 0 <= k < |batches| ::
         batches[k].id == k && |batches[k].documents| == if k < |batches| - 1 then size else n - k * size
  }

  lemma {:induction false} CeilNext(n: nat, size: nat)
    requires size > 0
    ensures n % size == 0 ==> Ceil(n, size) == n / size && Ceil(n + 1, size) == n / size + 1
    ensures n % size != 0 ==> Ceil(n, size) == n / size + 1 == Ceil(n + 1, size)
    ensures n == n / size * size + n % size
  {
    var q, r := n / size, n % size;
    assert n == q * size + r;
    DivUnique(n + size, size, q + 1, r);
    if r == 0 {
      if size > 1 {
        DivUnique(n + size - 1, size, q, size - 1);
      } else {
        assert Ceil(n, size) == n;
      }
    } else {
      assert n + size - 1 == q * size + size + (r - 1);
      DivUnique(n + size - 1, size, q + 1, r - 1);
    }
  }

  /** One more document opens batch n / size when the last one is full and joins it when it is not. */
  lemma {:induction false} RegularNext(g: seq<Batch>, n: nat, size: nat, document: string)
    requires size > 0 && Regular(g, n, size)
    ensures n % size == 0 ==> |g| == n / size && Regular(g + [Batch(n / size, [document])], n + 1, size)
    ensures n % size != 0 ==>
              |g| == n / size + 1 &&
              Regular(g[..|g| - 1] + [Batch(n / size, g[|g| - 1].documents + [document])], n + 1, size)
  {
    CeilNext(n, size);
    if n % size == 0 && g != [] {
      assert g[|g| - 1].id == |g| - 1;
      MulNext(|g| - 1, |g|, size);
    }
  }

  lemma {:induction false} NumberedRowsGroupRegularly(documents: seq<string>, size: nat)
    requires size > 0
    ensures Regular(Groups(Number(documents, size)), |documents|, size)
  {
    if documents == [] {
      CeilBounds(0, size);
    } else {
      var n := |documents| - 1;
      var rows := Number(documents, size);
      assert rows[..n] == Number(documents[..n], size);
      NumberedRowsGroupRegularly(documents[..n], size);
      var g := Groups(rows[..n]);
      RegularNext(g, n, size, documents[n]);
      assert rows[n] == Numbered(n / size, documents[n]);
      assert g != [] ==> g[|g| - 1].id == |g| - 1;
    }
  }

  lemma {:induction false} RegularBatchesAreFull(batches: seq<Batch>, n: nat, size: nat)
    requires size > 0 && Regular(batches, n, size)
    ensures NoIdRecurs(batches) && AllButGreatestFull(Tallies(batches), size)
  {
    TallyKeys(batches);
    TallySizes(batches);
    forall id | id in Tallies(batches) && Tallies(batches)[id] != size
      ensures forall other | other in Tallies(batches) :: other <= id
    {
      var i :| 0 <= i < |batches| && batches[i].id == id;
      assert i == |batches| - 1;
    }
  }

  /** Completeness: rows numbered i div size pass the checks exactly when as many came back as were written. */
  lemma {:induction false} ChecksAreComplete(documents: seq<string>, size: nat, written: nat)
    requires size > 0
    ensures ChecksPass(Groups(Number(documents, size)), size, written) <==> |documents| == written
    ensures Documents(Groups(Number(documents, size))) == documents
  {
    var batches := Groups(Number(documents, size));
    NumberedRowsGroupRegularly(documents, size);
    RegularBatchesAreFull(batches, |documents|, size);
    GroupsKeepEverything(Number(documents, size));
    assert DocumentsOf(Number(documents, size)) == documents;
    TotalCountsExactly(batches);
  }

  // ---- the loop -------------------------------------------------------------------------------

  datatype Fault = ShortBatch | WrongBatchCount | LostBatch

  /** The batches closed so far and the one being filled, if it has any document. */
  function WithOpen(closed: seq<Batch>, id: int, documents: seq<string>): seq<Batch> {
    if documents == [] then closed else closed + [Batch(id, documents)]
  }

  lemma {:induction false} RowJoins(closed: seq<Batch>, id: int, documents: seq<string>, row: Numbered)
    requires documents == [] ==> closed == []
    ensures AddRow(WithOpen(closed, id, documents), row) ==
      if documents != [] && row.batch != id
      then WithOpen(closed + [Batch(id, documents)], row.batch, [] + [row.document])
      else WithOpen(closed, row.batch, documents + [row.document])
  {
    assert [] + [row.document] == [row.document];
    if documents != [] {
      assert (closed + [Batch(id, documents)])[..|closed|] == closed;
    }
  }

  predicate IsGrouping(batches: seq<Batch>, rows: seq<Numbered>) {
    batches == Groups(rows)
  }

  predicate HasShortBatch(batches: seq<Batch>, size: nat) {
    !AllButGreatestFull(Tallies(batches), size)
  }

  /** Groups, hands each closed batch to the writer, and checks. The result is the number of batches. */
  method EmitBatches(rows: seq<Numbered>, size: nat, written: nat)
    returns (r: Result<nat, Fault>, emitted: seq<Batch>)
    requires size > 0
    ensures IsGrouping(emitted, rows)
    ensures r.Ok? <==> ChecksPass(emitted, size, written)
    ensures r.Ok? ==> r.value == |emitted|
    ensures r.Ok? && |rows| == written ==> WellBatched(emitted, size)
    ensures r == Err(ShortBatch) <==> HasShortBatch(emitted, size)
    ensures r == Err(WrongBatchCount) <==> !HasShortBatch(emitted, size) && |emitted| != Ceil(written, size)
    ensures r == Err(LostBatch) <==> !HasShortBatch(emitted, size) && |emitted| == Ceil(written, size)
                                     && Total(Tallies(emitted)) != written
  {
    var batchCounters;
    emitted, batchCounters := GroupRows(rows);
    r := CheckBatches(emitted, batchCounters, size, written);
    if r.Ok? && |rows| == written {
      ChecksAreSound(rows, size);
    }
  }

  method GroupRows(rows: seq<Numbered>) returns (emitted: seq<Batch>, batchCounters: map<int, nat>)
    ensures emitted == Groups(rows) && batchCounters == Tallies(emitted)
  {
    emitted, batchCounters := [], map[];
    var currentBatch: seq<string> := [];
    var currentId := 0;
    for i := 0 to |rows|
      invariant Groups(rows[..i]) == WithOpen(emitted, currentId, currentBatch)
      invariant currentBatch == [] ==> emitted == []
      invariant batchCounters == Tallies(emitted)
    {
      assert rows[..i + 1][..i] == rows[..i];
      RowJoins(emitted, currentId, currentBatch, rows[i]);
      if rows[i].batch != currentId && currentBatch != [] {
        emitted, batchCounters := Close(emitted, batchCounters, currentId, currentBatch);
        currentBatch, currentId := [], rows[i].batch;
      }
      currentId := rows[i].batch;
      currentBatch := currentBatch + [rows[i].document];
    }
    assert rows[..|rows|] == rows;
    if currentBatch != [] {
      emitted, batchCounters := Close(emitted, batchCounters, currentId, currentBatch);
    }
  }

  /** The three checks, in their order. */
  method CheckBatches(emitted: seq<Batch>, batchCounters: map<int, nat>, size: nat,
      written: nat) returns (r: Result<nat, Fault>)
    requires size > 0 && batchCounters == Tallies(emitted)
    ensures r.Ok? <==> ChecksPass(emitted, size, written)
    ensures r.Ok? ==> r.value == |emitted|
    ensures r == Err(ShortBatch) <==> HasShortBatch(emitted, size)
    ensures r == Err(WrongBatchCount) <==> !HasShortBatch(emitted, size) && |emitted| != Ceil(written, size)
    ensures r == Err(LostBatch) <==> !HasShortBatch(emitted, size) && |emitted| == Ceil(written, size)
                                     && Total(Tallies(emitted)) != written
  {
    var short := ShortBatches(batchCounters, size);
    if short {
      return Err(ShortBatch);
    }
    if |emitted| != Ceil(written, size) {
      return Err(WrongBatchCount);
    }
    var batched := SumOf(batchCounters);
    if batched != written {
      return Err(LostBatch);
    }
    return Ok(|emitted|);
  }

  method Close(emitted: seq<Batch>, counters: map<int, nat>, id: int, documents: seq<string>)
    returns (emitted': seq<Batch>, counters': map<int, nat>)
    requires counters == Tallies(emitted)
    ensures emitted' == emitted + [Batch(id, documents)] && counters' == Tallies(emitted')
  {
    emitted' := emitted + [Batch(id, documents)];
    assert emitted'[..|emitted|] == emitted;
    counters' := counters[id := |documents|];
  }

  method ShortBatches(counters: map<int, nat>, size: nat) returns (short: bool)
    ensures short <==> !AllButGreatestFull(counters, size)
  {
    var ids := counters.Keys;
    short := exists id | id in ids :: counters[id] != size && exists other | other in ids :: id < other;
  }

  method SumOf(counters: map<int, nat>) returns (sum: nat)
    ensures sum == Total(counters)
  {
    sum := 0;
    var left := counters;
    while left != map[]
      invariant sum + Total(left) == Total(counters)
      decreases |left|
    {
      var id := AnyKey(left);
      TotalTakeOut(left, id);
      assert (left - {id}).Keys == left.Keys - {id};
      sum := sum + left[id];
      left := left - {id};
    }
  }
}
