/** One source row: rendered cell by cell with a delimiter, parsed back field by field. */
module Rows {
  import opened Wrappers
  import opened Money
  import Checksums
  import Digits
  import Text

  datatype Row = Row(acctId: string, custId: string, clientType: string, product: string,
                     currency: string, openDate: string, status: string, balance: string)

  const DELIMITER: char := '|'

  function Cells(row: Row): seq<string> {
    [row.acctId, row.custId, row.clientType, row.product, row.currency, row.openDate, row.status, row.balance]
  }

  function Render(row: Row): string {
    Text.Join(Cells(row), DELIMITER)
  }

  // ---- fields ---------------------------------------------------------------------------------

  datatype Value = String(text: string) | Decimal(amount: Dec) | Other(tag: string)

  /** `Typed` stands for the date and int readers. */
  datatype FieldType = StringType | DecimalType(scale: nat) | Typed(read: string -> Reading<Value>)

  datatype Field = Field(name: string, col: nat, fieldType: FieldType, required: bool)

  datatype Fault =
    | BadColumnCount(field: string)
    | BadValue(field: string)
    | MissingField(field: string)
    | Uncaught(field: string)

  function Strip(cell: string): string {
    Checksums.Trim(cell, Checksums.IsPythonSpace)
  }

  /** `_coerce` on a cell: blank is absent, whatever the type. */
  function Coerce(t: FieldType, cell: string): Reading<Option<Value>> {
    var text := Strip(cell);
    if text == "" then Read(None)
    else
      match t
      case StringType => Read(Some(String(text)))
      case DecimalType(scale) =>
        (match ReadDecimal(text, scale)
         case Read(d) => Read(Some(Decimal(d)))
         case Refused => Refused
         case Crashed => Crashed)
      case Typed(read) =>
        (match read(text)
         case Read(v) => Read(Some(v))
         case Refused => Refused
         case Crashed => Crashed)
  }

  function ReadField(f: Field, columns: seq<string>): Result<Option<Value>, Fault> {
    if f.col >= |columns| then Err(BadColumnCount(f.name))
    else
      match Coerce(f.fieldType, columns[f.col])
      case Refused => Err(BadValue(f.name))
      case Crashed => Err(Uncaught(f.name))
      case Read(v) => if f.required && v == None then Err(MissingField(f.name)) else Ok(v)
  }

  /** Why a field cannot be read: no such column, a value of another kind, or nothing where something is required. */
  lemma {:induction false} FieldFaultExactly(f: Field, columns: seq<string>)
    ensures ReadField(f, columns) == Err(BadColumnCount(f.name)) <==> f.col >= |columns|
    ensures f.col < |columns| ==>
              var text := Strip(columns[f.col]);
              var kind := match f.fieldType
                          case StringType => Read(String(text))
                          case DecimalType(scale) =>
                            (match ReadDecimal(text, scale)
                             case Read(d) => Read(Decimal(d)) case Refused => Refused case Crashed => Crashed)
                          case Typed(read) => read(text);
              && (ReadField(f, columns) == Err(MissingField(f.name)) <==> text == "" && f.required)
              && (ReadField(f, columns) == Ok(None) <==> text == "" && !f.required)
              && (ReadField(f, columns) == Err(BadValue(f.name)) <==> text != "" && kind == Refused)
              && (ReadField(f, columns) == Err(Uncaught(f.name)) <==> text != "" && kind == Crashed)
  {
  }

  /** The first field that cannot be read ends the record. */
  function ReadFields(fields: seq<Field>, columns: seq<string>): Result<map<string, Option<Value>>, Fault> {
    if fields == [] then Ok(map[])
    else
      match ReadFields(fields[..|fields| - 1], columns)
      case Err(fault) => Err(fault)
      case Ok(before) =>
        match ReadField(fields[|fields| - 1], columns)
        case Err(fault) => Err(fault)
        case Ok(v) => Ok(before[fields[|fields| - 1].name := v])
  }

  /** `raw.rstrip("\n")`. */
  function Chomp(raw: string): string {
    if raw != "" && raw[|raw| - 1] == '\n' then Chomp(raw[..|raw| - 1]) else raw
  }

  /** All line ends behind the text come off, and nothing else. */
  lemma {:induction false} ChompTakesOffLineEnds(raw: string)
    ensures Chomp(raw + "\n") == Chomp(raw)
    ensures Chomp(raw) <= raw && (Chomp(raw) == "" || Chomp(raw)[|Chomp(raw)| - 1] != '\n')
    ensures forall i | |Chomp(raw)| <= i < |raw| :: raw[i] == '\n'
  {
    assert (raw + "\n")[..|raw|] == raw;
    if raw != "" && raw[|raw| - 1] == '\n' {
      ChompTakesOffLineEnds(raw[..|raw| - 1]);
      assert forall i | 0 <= i < |raw| - 1 :: raw[..|raw| - 1][i] == raw[i];
    }
  }

  method Parse(raw: string, fields: seq<Field>) returns (result: Result<map<string, Option<Value>>, Fault>)
    ensures result == ReadFields(fields, Text.Split(Chomp(raw), DELIMITER))
  {
    var columns := Text.Split(Chomp(raw), DELIMITER);
    var out: map<string, Option<Value>> := map[];
    for i := 0 to |fields|
      invariant ReadFields(fields[..i], columns) == Ok(out)
    {
      assert fields[..i + 1][..i] == fields[..i];
      match ReadField(fields[i], columns) {
        case Err(fault) =>
          FaultStays(fields, columns, i + 1);
          return Err(fault);
        case Ok(v) =>
          out := out[fields[i].name := v];
      }
    }
    assert fields[..|fields|] == fields;
    return Ok(out);
  }

  lemma {:induction false} FaultStays(fields: seq<Field>, columns: seq<string>, n: nat)
    requires n <= |fields| && ReadFields(fields[..n], columns).Err?
    ensures ReadFields(fields, columns) == ReadFields(fields[..n], columns)
    decreases |fields|
  {
    if n == |fields| {
      assert fields[..n] == fields;
    } else {
      assert fields[..|fields| - 1][..n] == fields[..n];
      FaultStays(fields[..|fields| - 1], columns, n);
    }
  }

  /** Stripping takes spaces off both ends and stops at the first character that is none. */
  lemma {:induction false} TrimTakesOffSpaces(s: string, isTrimmed: char -> bool) returns (i: nat, j: nat)
    ensures i <= j <= |s| && Checksums.Trim(s, isTrimmed) == s[i..j]
    ensures forall k | 0 <= k < i || j <= k < |s| :: isTrimmed(s[k])
    ensures i < j ==> !isTrimmed(s[i]) && !isTrimmed(s[j - 1])
    decreases |s|
  {
    i, j := 0, |s|;
    if s != "" && isTrimmed(s[0]) {
      i, j := TrimTakesOffSpaces(s[1..], isTrimmed);
      assert s[1..][i..j] == s[i + 1..j + 1];
      assert forall k | 1 <= k < |s| :: s[k] == s[1..][k - 1];
      i, j := i + 1, j + 1;
    } else if s != "" && isTrimmed(s[|s| - 1]) {
      i, j := TrimTakesOffSpaces(s[..|s| - 1], isTrimmed);
      assert s[..|s| - 1][i..j] == s[i..j];
      assert forall k | 0 <= k < |s| - 1 :: s[k] == s[..|s| - 1][k];
    }
  }

  /** A string cell arrives as it is exactly when it neither begins nor ends in a space; a blank one never does. */
  lemma {:induction false} StringArrivesRawExactly(f: Field, columns: seq<string>)
    requires f.fieldType == StringType && f.col < |columns|
    ensures var cell := columns[f.col];
            ReadField(f, columns) == Ok(Some(String(cell))) <==>
              cell != "" && !Checksums.IsPythonSpace(cell[0]) && !Checksums.IsPythonSpace(cell[|cell| - 1])
  {
    var cell := columns[f.col];
    var i, j := TrimTakesOffSpaces(cell, Checksums.IsPythonSpace);
    assert Strip(cell) == cell ==> i == 0 && j == |cell|;
  }

  // ---- the round trip -------------------------------------------------------------------------

  predicate HasDistinctNames(fields: seq<Field>) {
    forall i, j | 0 <= i < j < |fields| :: fields[i].name != fields[j].name
  }

  predicate Holds(record: map<string, Option<Value>>, f: Field, columns: seq<string>) {
    f.name in record && ReadField(f, columns) == Ok(record[f.name])
  }

  lemma {:induction false} EveryFieldReads(fields: seq<Field>, columns: seq<string>)
    ensures ReadFields(fields, columns).Ok? <==> forall f | f in fields :: ReadField(f, columns).Ok?
  {
    if fields != [] {
      var others, last := fields[..|fields| - 1], fields[|fields| - 1];
      EveryFieldReads(others, columns);
      assert fields == others + [last];
    }
  }

  /** The record's fault is that of its first field that has one. */
  lemma {:induction false} FirstFaultExactly(fields: seq<Field>, columns: seq<string>, fault: Fault)
    ensures ReadFields(fields, columns) == Err(fault) <==>
              exists i :: 0 <= i < |fields| && ReadField(fields[i], columns) == Err(fault)
                          && forall j | 0 <= j < i :: ReadField(fields[j], columns).Ok?
  {
    if fields != [] {
      var n := |fields| - 1;
      FirstFaultExactly(fields[..n], columns, fault);
      EveryFieldReads(fields[..n], columns);
      assert forall j | 0 <= j < n :: fields[..n][j] == fields[j] && fields[j] in fields[..n];
    }
  }

  lemma {:induction false} EveryFieldIsHeld(fields: seq<Field>, columns: seq<string>, i: nat)
    requires HasDistinctNames(fields) && ReadFields(fields, columns).Ok? && i < |fields|
    ensures Holds(ReadFields(fields, columns).value, fields[i], columns)
    decreases |fields|
  {
    var n := |fields| - 1;
    if i < n {
      EveryFieldIsHeld(fields[..n], columns, i);
    }
  }

  /** A record comes out exactly when every field can be read, and then holds what each one reads. */
  lemma {:induction false} FieldByField(fields: seq<Field>, columns: seq<string>)
    requires HasDistinctNames(fields)
    ensures ReadFields(fields, columns).Ok? <==> forall f | f in fields :: ReadField(f, columns).Ok?
    ensures ReadFields(fields, columns).Ok? ==>
              forall f | f in fields :: Holds(ReadFields(fields, columns).value, f, columns)
  {
    EveryFieldReads(fields, columns);
    if ReadFields(fields, columns).Ok? {
      forall i | 0 <= i < |fields| ensures Holds(ReadFields(fields, columns).value, fields[i], columns) {
        EveryFieldIsHeld(fields, columns, i);
      }
    }
  }

  predicate IsClean(row: Row) {
    forall cell | cell in Cells(row) :: DELIMITER !in cell && '\n' !in cell
  }

  lemma {:induction false} JoinAvoids(cells: seq<string>, sep: char, c: char)
    requires c != sep && forall cell | cell in cells :: c !in cell
    ensures c !in Text.Join(cells, sep)
  {
    if |cells| > 1 {
      assert forall cell | cell in cells[1..] :: cell in cells;
      JoinAvoids(cells[1..], sep, c);
    }
  }

  lemma {:induction false} RenderedSplitsToCells(row: Row)
    requires IsClean(row)
    ensures Text.Split(Chomp(Render(row)), DELIMITER) == Cells(row)
  {
    JoinAvoids(Cells(row), DELIMITER, '\n');
    Text.SplitInvertsJoin(Cells(row), DELIMITER);
    assert Chomp(Render(row)) == Render(row);
  }

  /** A clean row parses exactly when each of its cells does, and each string field comes back stripped. */
  lemma {:induction false} RowReadsBack(row: Row, fields: seq<Field>)
    requires IsClean(row) && HasDistinctNames(fields) && forall f | f in fields :: f.col < 8
    ensures var parsed := ReadFields(fields, Text.Split(Chomp(Render(row)), DELIMITER));
            && (parsed.Ok? <==> forall f | f in fields :: ReadField(f, Cells(row)).Ok?)
            && (parsed.Ok? ==> forall f | f in fields && f.fieldType == StringType ::
                  && f.name in parsed.value
                  && var text := Strip(Cells(row)[f.col]);
                     parsed.value[f.name] == if text == "" then None else Some(String(text)))
  {
    RenderedSplitsToCells(row);
    FieldByField(fields, Cells(row));
  }

  /** The account layout: eight columns in order, all required. */
  function AccountFields(openDate: string -> Reading<Value>): seq<Field> {
    [Field("ACCT_ID", 0, StringType, true), Field("CUST_ID", 1, StringType, true),
     Field("CLIENT_TYPE", 2, StringType, true), Field("PRODUCT_CODE", 3, StringType, true),
     Field("CURRENCY", 4, StringType, true), Field("OPEN_DATE", 5, Typed(openDate), true),
     Field("STATUS", 6, StringType, true), Field("BALANCE", 7, DecimalType(2), true)]
  }

  lemma {:induction false} BalanceIsNotStripped(cents: int)
    ensures Strip(FmtBalance(cents)) == FmtBalance(cents) != ""
  {
    var text := FmtBalance(cents);
    var ones := TwoDigits(Abs(cents) % 100)[1];
    assert text[0] in {'-', '+'} && text[|text| - 1] == ones && Digits.IsDigit(ones);
  }

  /** Whatever else is in the row, the balance reaches the target as the canonical text of the source's amount. */
  lemma {:induction false} AccountBalanceArrives(row: Row, cents: int, openDate: string -> Reading<Value>)
    requires IsClean(row) && row.balance == FmtBalance(cents) && Abs(cents) < LIMIT
    ensures var parsed := ReadFields(AccountFields(openDate), Text.Split(Chomp(Render(row)), DELIMITER));
            parsed.Ok? ==>
              && "BALANCE" in parsed.value && parsed.value["BALANCE"].Some? && parsed.value["BALANCE"].value.Decimal?
              && ToDecimal(parsed.value["BALANCE"].value.amount, 2) == Read(Canonical(cents))
  {
    var fields := AccountFields(openDate);
    RenderedSplitsToCells(row);
    FieldByField(fields, Cells(row));
    assert fields[7] in fields;
    BalanceIsNotStripped(cents);
    BalanceRoundTrip(cents);
  }

  /** In the record of an account row every field has its own cell's text, under the name the layout gives it. */
  lemma {:induction false} AccountRowSays(row: Row, openDate: string -> Reading<Value>)
    requires IsClean(row)
    ensures var parsed := ReadFields(AccountFields(openDate), Text.Split(Chomp(Render(row)), DELIMITER));
            parsed.Ok? ==>
              && "ACCT_ID" in parsed.value && parsed.value["ACCT_ID"] == Some(String(Strip(row.acctId)))
              && "CUST_ID" in parsed.value && parsed.value["CUST_ID"] == Some(String(Strip(row.custId)))
              && "CLIENT_TYPE" in parsed.value && parsed.value["CLIENT_TYPE"] == Some(String(Strip(row.clientType)))
              && "PRODUCT_CODE" in parsed.value && parsed.value["PRODUCT_CODE"] == Some(String(Strip(row.product)))
              && "CURRENCY" in parsed.value && parsed.value["CURRENCY"] == Some(String(Strip(row.currency)))
              && "STATUS" in parsed.value && parsed.value["STATUS"] == Some(String(Strip(row.status)))
  {
    var fields := AccountFields(openDate);
    RenderedSplitsToCells(row);
    NamesAreDistinct(openDate);
    FieldByField(fields, Cells(row));
    if ReadFields(fields, Cells(row)).Ok? {
      var record := ReadFields(fields, Cells(row)).value;
      forall k | 0 <= k < 8 ensures Holds(record, fields[k], Cells(row)) {
        assert fields[k] in fields;
      }
      assert Holds(record, fields[0], Cells(row)) && Holds(record, fields[1], Cells(row));
      assert Holds(record, fields[2], Cells(row)) && Holds(record, fields[3], Cells(row));
      assert Holds(record, fields[4], Cells(row)) && Holds(record, fields[6], Cells(row));
    }
  }

  predicate HasNoBlank(row: Row) {
    forall k | 0 <= k < 8 :: Strip(Cells(row)[k]) != ""
  }

  lemma {:induction false} FieldIsReadExactly(row: Row, cents: int, openDate: string -> Reading<Value>, k: nat)
    requires k < 8 && row.balance == FmtBalance(cents) && Abs(cents) < LIMIT
    ensures ReadField(AccountFields(openDate)[k], Cells(row)).Ok? <==>
              Strip(Cells(row)[k]) != "" && (k == 5 ==> openDate(Strip(row.openDate)).Read?)
  {
    if k == 7 {
      BalanceIsNotStripped(cents);
      BalanceRoundTrip(cents);
    }
  }

  /** The only rows refused are those with a blank cell or an unreadable date. */
  lemma {:induction false} AccountRowIsReadExactly(row: Row, cents: int, openDate: string -> Reading<Value>)
    requires IsClean(row) && row.balance == FmtBalance(cents) && Abs(cents) < LIMIT
    ensures ReadFields(AccountFields(openDate), Text.Split(Chomp(Render(row)), DELIMITER)).Ok? <==>
              HasNoBlank(row) && openDate(Strip(row.openDate)).Read?
  {
    var fields, cells := AccountFields(openDate), Cells(row);
    RenderedSplitsToCells(row);
    NamesAreDistinct(openDate);
    FieldByField(fields, cells);
    forall k | 0 <= k < 8
      ensures ReadField(fields[k], cells).Ok? <==>
                Strip(cells[k]) != "" && (k == 5 ==> openDate(Strip(row.openDate)).Read?)
    {
      FieldIsReadExactly(row, cents, openDate, k);
    }
    EachFieldByIndex(fields, cells);
    assert cells[5] == row.openDate && fields[5] in fields;
  }

  lemma {:induction false} NamesAreDistinct(openDate: string -> Reading<Value>)
    ensures HasDistinctNames(AccountFields(openDate)) && |AccountFields(openDate)| == 8
  {
  }

  lemma {:induction false} EachFieldByIndex(fields: seq<Field>, columns: seq<string>)
    ensures (forall f | f in fields :: ReadField(f, columns).Ok?) <==>
              forall k | 0 <= k < |fields| :: ReadField(fields[k], columns).Ok?
  {
    if forall f | f in fields :: ReadField(f, columns).Ok? {
      assert forall k | 0 <= k < |fields| :: fields[k] in fields;
    }
  }

  // ---- the header -----------------------------------------------------------------------------

  function StripAll(cells: seq<string>): (stripped: seq<string>)
    ensures |stripped| == |cells|
  {
    seq(|cells|, i requires 0 <= i < |cells| => Strip(cells[i]))
  }

  /** `is_header`: recognised by content, the column names in front. */
  predicate IsHeader(raw: string, names: seq<string>) {
    names <= StripAll(Text.Split(Chomp(raw), DELIMITER))
  }

  /** A data row is taken for the header exactly when its cells are the column names. */
  lemma {:induction false} RowIsHeaderExactly(row: Row, names: seq<string>)
    requires IsClean(row) && |names| == 8
    ensures IsHeader(Render(row), names) <==> forall k | 0 <= k < 8 :: Strip(Cells(row)[k]) == names[k]
  {
    RenderedSplitsToCells(row);
    var stripped := StripAll(Cells(row));
    assert forall k | 0 <= k < 8 :: stripped[k] == Strip(Cells(row)[k]);
  }
}
