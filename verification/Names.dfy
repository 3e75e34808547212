/** Sorting names as Python sorts strings, and the names of the sequenced data files. */
module Names {
  import opened Collections
  import opened Digits

  /** Code point by code point; a proper prefix comes first. */
  predicate Less(a: string, b: string)
    decreases |a|
  {
    if b == "" then false
    else if a == "" then true
    else a[0] < b[0] || (a[0] == b[0] && Less(a[1..], b[1..]))
  }

  lemma {:induction false} LessIsIrreflexive(a: string)
    ensures !Less(a, a)
  {
    if a != "" {
      LessIsIrreflexive(a[1..]);
    }
  }

  lemma {:induction false} LessIsTransitive(a: string, b: string, c: string)
    requires Less(a, b) && Less(b, c)
    ensures Less(a, c)
    decreases |a|
  {
    if a != "" && a[0] == b[0] == c[0] {
      LessIsTransitive(a[1..], b[1..], c[1..]);
    }
  }

  lemma {:induction false} LessIsTotal(a: string, b: string)
    requires a != b
    ensures Less(a, b) || Less(b, a)
    decreases |a|
  {
    if a != "" && b != "" && a[0] == b[0] {
      assert a == [a[0]] + a[1..] && b == [b[0]] + b[1..];
      LessIsTotal(a[1..], b[1..]);
    }
  }

  predicate IsSorted(names: seq<string>) {
    forall i, j | 0 <= i < j < |names| :: Less(names[i], names[j])
  }

  lemma {:induction false} SortedIsDistinct(names: seq<string>)
    requires IsSorted(names)
    ensures Distinct(names)
  {
    forall i, j | 0 <= i < j < |names| ensures names[i] != names[j] {
      LessIsIrreflexive(names[i]);
    }
  }

  /** There is one sorted order of a set of names. */
  lemma {:induction false} SortedIsUnique(a: seq<string>, b: seq<string>)
    requires IsSorted(a) && IsSorted(b) && Elements(a) == Elements(b)
    ensures a == b
    decreases |a|
  {
    SortedIsDistinct(a);
    SortedIsDistinct(b);
    DistinctExactly(a);
    DistinctExactly(b);
    if a != [] {
      HeadIsLeast(a, b);
      HeadIsLeast(b, a);
      assert a[0] == b[0] by {
        if a[0] != b[0] {
          LessIsTransitive(a[0], b[0], a[0]);
          LessIsIrreflexive(a[0]);
        }
      }
      TailsAgree(a, b);
      SortedIsUnique(a[1..], b[1..]);
      assert a == [a[0]] + a[1..] && b == [b[0]] + b[1..];
    }
  }

  lemma {:induction false} HeadIsLeast(a: seq<string>, b: seq<string>)
    requires IsSorted(a) && a != [] && b != [] && Elements(a) == Elements(b)
    ensures a[0] == b[0] || Less(a[0], b[0])
  {
    assert b[0] in Elements(a);
    var i :| 0 <= i < |a| && a[i] == b[0];
  }

  lemma {:induction false} TailsAgree(a: seq<string>, b: seq<string>)
    requires Distinct(a) && Distinct(b) && a != [] && b != [] && a[0] == b[0] && Elements(a) == Elements(b)
    ensures Elements(a[1..]) == Elements(b[1..])
  {
    assert Elements(a[1..]) == Elements(a) - {a[0]} by {
      assert a == [a[0]] + a[1..];
      assert forall i | 0 <= i < |a[1..]| :: a[1..][i] == a[i + 1];
    }
    assert Elements(b[1..]) == Elements(b) - {b[0]} by {
      assert b == [b[0]] + b[1..];
      assert forall i | 0 <= i < |b[1..]| :: b[1..][i] == b[i + 1];
    }
  }

  /** `sorted` over a set of names. */
  method Sort(names: set<string>) returns (sorted: seq<string>)
    ensures IsSorted(sorted) && Elements(sorted) == names
  {
    sorted := [];
    var left := names;
    while left != {}
      invariant left <= names && IsSorted(sorted) && Elements(sorted) == names - left
    {
      var name :| name in left;
      assert name !in Elements(sorted);
      sorted := Insert(sorted, name);
      left := left - {name};
    }
  }

  method Insert(sorted: seq<string>, name: string) returns (longer: seq<string>)
    requires IsSorted(sorted) && name !in sorted
    ensures IsSorted(longer) && Elements(longer) == Elements(sorted) + {name}
  {
    var k := 0;
    while k < |sorted| && Less(sorted[k], name)
      invariant k <= |sorted| && forall i | 0 <= i < k :: Less(sorted[i], name)
    {
      k := k + 1;
    }
    longer := sorted[..k] + [name] + sorted[k..];
    forall i | k <= i < |sorted| ensures Less(name, sorted[i]) {
      LessIsTotal(sorted[k], name);
      if k < i {
        LessIsTransitive(name, sorted[k], sorted[i]);
      }
    }
    InsertedAt(sorted, name, k);
  }

  lemma {:induction false} InsertedAt(sorted: seq<string>, name: string, k: nat)
    requires IsSorted(sorted) && k <= |sorted|
    requires forall i | 0 <= i < k :: Less(sorted[i], name)
    requires forall i | k <= i < |sorted| :: Less(name, sorted[i])
    ensures var longer := sorted[..k] + [name] + sorted[k..];
            IsSorted(longer) && Elements(longer) == Elements(sorted) + {name}
  {
    assert sorted == sorted[..k] + sorted[k..];
  }

  // ---- the names of the data files ------------------------------------------------------------

  const SEQUENCE_WIDTH: nat := 3

  /** The sequence number is zero-padded to the width, and longer where it does not fit. */
  function DatName(record: string, sequence: nat): string {
    record + "." + RightJustify(Print(sequence), SEQUENCE_WIDTH) + ".DAT"
  }

  /** The names of n files in sequence, from one on. */
  function DatNames(record: string, n: nat): (names: seq<string>)
    ensures |names| == n
  {
    seq(n, i requires 0 <= i < n => DatName(record, i + 1))
  }

  lemma {:induction false} LessBehind(prefix: string, a: string, b: string)
    ensures Less(prefix + a, prefix + b) <==> Less(a, b)
  {
    if prefix == "" {
      assert prefix + a == a && prefix + b == b;
    } else {
      assert (prefix + a)[1..] == prefix[1..] + a && (prefix + b)[1..] == prefix[1..] + b;
      LessBehind(prefix[1..], a, b);
    }
  }

  lemma {:induction false} LessBefore(a: string, b: string, rest: string, more: string)
    requires |a| == |b| && Less(a, b)
    ensures Less(a + rest, b + more)
    decreases |a|
  {
    if a[0] == b[0] {
      assert (a + rest)[1..] == a[1..] + rest && (b + more)[1..] == b[1..] + more;
      LessBefore(a[1..], b[1..], rest, more);
    }
  }

  /** Numerals of equal length are in the order of their values. */
  lemma {:induction false} NumeralsInOrder(a: string, b: string)
    requires AllDigits(a) && AllDigits(b) && |a| == |b| && ValueOf(a) < ValueOf(b)
    ensures Less(a, b)
    decreases |a|
  {
    var a', b' := a[..|a| - 1], b[..|b| - 1];
    var x, y := a[|a| - 1], b[|b| - 1];
    assert a == a' + [x] && b == b' + [y];
    if a' == b' {
      LessBehind(a', [x], [y]);
      assert IsDigit(x) && IsDigit(y);
    } else {
      if ValueOf(a') >= ValueOf(b') {
        EqualValues(a', b');
      }
      NumeralsInOrder(a', b');
      LessBefore(a', b', [x], [y]);
    }
  }

  lemma {:induction false} EqualValues(a: string, b: string)
    requires AllDigits(a) && AllDigits(b) && |a| == |b|
    ensures ValueOf(a) == ValueOf(b) <==> a == b
    decreases |a|
  {
    if a != "" {
      EqualValues(a[..|a| - 1], b[..|b| - 1]);
      assert a == a[..|a| - 1] + [a[|a| - 1]] && b == b[..|b| - 1] + [b[|b| - 1]];
    }
  }

  lemma {:induction false} PaddedKeepsValue(n: nat)
    ensures var s := RightJustify(Print(n), SEQUENCE_WIDTH); AllDigits(s) && ValueOf(s) == n
    ensures n <= 999 ==> |RightJustify(Print(n), SEQUENCE_WIDTH)| == SEQUENCE_WIDTH
  {
    ValueInvertsPrint(n);
    LeadingZerosAreWorthless(Print(n), if |Print(n)| < SEQUENCE_WIDTH then SEQUENCE_WIDTH - |Print(n)| else 0);
    if 10 <= n <= 999 {
      assert |Print(n)| == |Print(n / 10)| + 1;
      assert n >= 100 ==> |Print(n / 10)| == |Print(n / 10 / 10)| + 1;
    }
  }

  lemma {:induction false} NamesSay(record: string)
    ensures DatName(record, 1) == record + ".001.DAT" && DatName(record, 42) == record + ".042.DAT"
  {
    assert Print(42) == Print(4) + "2" && Print(4) == "4" && Print(1) == "1";
    assert Zeros(2) == "00" && Zeros(1) == "0";
    assert record + "." + "001" + ".DAT" == record + ".001.DAT";
    assert record + "." + "042" + ".DAT" == record + ".042.DAT";
  }

  /** No two sequence numbers give the same name, whether they fit the width or not. */
  lemma {:induction false} NamesDiffer(record: string, m: nat, n: nat)
    ensures DatName(record, m) == DatName(record, n) <==> m == n
  {
    PaddedKeepsValue(m);
    PaddedKeepsValue(n);
    var a, b := RightJustify(Print(m), SEQUENCE_WIDTH), RightJustify(Print(n), SEQUENCE_WIDTH);
    var name, other := DatName(record, m), DatName(record, n);
    assert name[|record| + 1..|name| - 4] == a && other[|record| + 1..|other| - 4] == b;
  }

  lemma {:induction false} NamesInOrder(record: string, m: nat, n: nat)
    requires m < n <= 999
    ensures Less(DatName(record, m), DatName(record, n))
  {
    PaddedKeepsValue(m);
    PaddedKeepsValue(n);
    var a, b := RightJustify(Print(m), SEQUENCE_WIDTH), RightJustify(Print(n), SEQUENCE_WIDTH);
    NumeralsInOrder(a, b);
    LessBefore(a, b, ".DAT", ".DAT");
    LessBehind(record + ".", a + ".DAT", b + ".DAT");
    assert DatName(record, m) == record + "." + (a + ".DAT") && DatName(record, n) == record + "." + (b + ".DAT");
  }

  lemma {:induction false} ThousandComesBefore101(record: string)
    ensures !Less(DatName(record, 101), DatName(record, 1000))
  {
    assert Print(101) == Print(10) + "1" && Print(10) == "10" && Print(100) == Print(10) + "0";
    assert Print(1000) == Print(100) + "0";
    var rest101, rest1000 := "1.DAT", "00.DAT";
    assert !Less(rest101, rest1000);
    LessBehind("10", rest101, rest1000);
    LessBehind(record + ".", "10" + rest101, "10" + rest1000);
    assert Zeros(0) == "";
    assert DatName(record, 101) == record + "." + ("10" + rest101);
    assert DatName(record, 1000) == record + "." + ("10" + rest1000);
  }

  /** Sorting keeps the sequence exactly as long as every sequence number fits the width. */
  lemma {:induction false} SequenceIsSortedExactly(record: string, n: nat)
    ensures IsSorted(DatNames(record, n)) <==> n <= 999
  {
    var names := DatNames(record, n);
    if n <= 999 {
      forall i, j | 0 <= i < j < n ensures Less(names[i], names[j]) {
        NamesInOrder(record, i + 1, j + 1);
      }
    } else {
      ThousandComesBefore101(record);
      assert !Less(names[100], names[999]);
    }
  }
}
