/** Small facts about sets and sequences that more than one module needs. */
module Collections {
  lemma {:induction false} Associative<T>(a: seq<T>, b: seq<T>, c: seq<T>)
    ensures a + b + c == a + (b + c)
  {
  }

  function Flatten<T>(s: seq<seq<T>>): seq<T> {
    if s == [] then [] else Flatten(s[..|s| - 1]) + s[|s| - 1]
  }

  lemma {:induction false} FlattenNext<T>(s: seq<seq<T>>, i: nat)
    requires i < |s|
    ensures Flatten(s[..i + 1]) == Flatten(s[..i]) + s[i]
  {
    assert s[..i + 1][..i] == s[..i];
  }

  lemma {:induction false} FlattenAppend<T>(s: seq<seq<T>>, t: seq<seq<T>>)
    ensures Flatten(s + t) == Flatten(s) + Flatten(t)
    decreases |t|
  {
    if t == [] {
      assert s + t == s;
    } else {
      var most, last := t[..|t| - 1], t[|t| - 1];
      assert (s + t)[..|s + t| - 1] == s + most && (s + t)[|s + t| - 1] == last;
      FlattenAppend(s, most);
      Associative(Flatten(s), Flatten(most), last);
    }
  }

  function Elements<T(==)>(s: seq<T>): set<T> {
    set x | x in s
  }

  lemma {:induction false} ElementsNext<T>(s: seq<T>, x: T)
    ensures Elements(s + [x]) == Elements(s) + {x}
  {
  }

  predicate Distinct<T(==)>(s: seq<T>) {
    forall i, j | 0 <= i < j < |s| :: s[i] != s[j]
  }

  lemma {:induction false} SubsetSize<T>(a: set<T>, b: set<T>)
    requires a <= b
    ensures |a| <= |b|
    ensures |a| == |b| ==> a == b
  {
    assert b == a + (b - a);
  }

  lemma {:induction false} SizeOfUnion<T>(a: set<T>, b: set<T>)
    ensures |a + b| + |a * b| == |a| + |b|
  {
    assert a + b == a + (b - a) && b == a * b + (b - a);
  }

  /** A sequence is as long as its set of elements exactly when nothing in it repeats. */
  lemma {:induction false} DistinctExactly<T>(s: seq<T>)
    ensures |Elements(s)| <= |s|
    ensures |Elements(s)| == |s| <==> Distinct(s)
  {
    if s != [] {
      var n := |s| - 1;
      DistinctExactly(s[..n]);
      assert s == s[..n] + [s[n]];
      ElementsNext(s[..n], s[n]);
      if s[n] in s[..n] {
        assert Elements(s) == Elements(s[..n]);
      }
    }
  }

  lemma {:induction false} DistinctIsItsSet<T>(s: seq<T>)
    requires Distinct(s)
    ensures multiset(s) == multiset(Elements(s))
  {
    if s != [] {
      var n := |s| - 1;
      DistinctIsItsSet(s[..n]);
      assert s == s[..n] + [s[n]];
      ElementsNext(s[..n], s[n]);
      assert s[n] !in Elements(s[..n]);
    }
  }

  lemma {:induction false} FirstDifference<T>(a: seq<T>, b: seq<T>) returns (k: nat)
    requires |a| == |b| && a != b
    ensures k < |a| && a[..k] == b[..k] && a[k] != b[k]
  {
    if a[0] != b[0] {
      k := 0;
    } else {
      assert a == [a[0]] + a[1..] && b == [b[0]] + b[1..];
      var j := FirstDifference(a[1..], b[1..]);
      k := j + 1;
      assert a[..k] == [a[0]] + a[1..][..j] && b[..k] == [b[0]] + b[1..][..j];
    }
  }

  lemma {:induction false} FlattenSplits<T>(s: seq<seq<T>>, k: nat)
    requires k <= |s|
    ensures Flatten(s) == Flatten(s[..k]) + Flatten(s[k..])
  {
    FlattenAppend(s[..k], s[k..]);
    assert s[..k] + s[k..] == s;
  }

  /** Where the k-th part begins in the whole. */
  lemma {:induction false} FlattenAt<T>(s: seq<seq<T>>, k: nat)
    requires k < |s| && s[k] != []
    ensures |Flatten(s[..k])| < |Flatten(s)| && Flatten(s)[|Flatten(s[..k])|] == s[k][0]
  {
    assert s[k..] == [s[k]] + s[k + 1..];
    FlattenSplits(s, k);
    FlattenAppend([s[k]], s[k + 1..]);
    assert [s[k]][..0] == [];
    assert Flatten([s[k]]) == [] + s[k] == s[k];
  }

  lemma {:induction false} FlattenGrows<T>(s: seq<seq<T>>, j: nat, k: nat)
    requires j < k <= |s| && s[j] != []
    ensures |Flatten(s[..j])| < |Flatten(s[..k])|
  {
    FlattenNext(s, j);
    assert s[..k] == s[..j + 1] + s[j + 1..k];
    FlattenAppend(s[..j + 1], s[j + 1..k]);
  }

  function Without<T>(s: seq<T>, i: nat): seq<T>
    requires i < |s|
  {
    s[..i] + s[i + 1..]
  }

  lemma {:induction false} TakeOut<T>(s: seq<T>, i: nat)
    requires i < |s|
    ensures multiset(s) == multiset(Without(s, i)) + multiset{s[i]}
  {
    assert s == s[..i] + [s[i]] + s[i + 1..];
  }

  /** Two sequences that are permutations of each other stay so when an equal element leaves both. */
  lemma {:induction false} TakeOutBoth<T>(a: seq<T>, i: nat, b: seq<T>, j: nat)
    requires i < |a| && j < |b| && a[i] == b[j] && multiset(a) == multiset(b)
    ensures multiset(Without(a, i)) == multiset(Without(b, j))
  {
    TakeOut(a, i);
    TakeOut(b, j);
    assert multiset(Without(a, i)) == multiset(a) - multiset{a[i]};
    assert multiset(Without(b, j)) == multiset(b) - multiset{a[i]};
  }

  /** Some key of a map that has any. */
  method AnyKey<K(==), V>(m: map<K, V>) returns (k: K)
    requires m != map[]
    ensures k in m
  {
    assert m.Keys == {} ==> m == map[];
    k :| k in m.Keys;
  }

  ghost function SomeKey<K, V>(m: map<K, V>): (k: K)
    requires m != map[]
    ensures k in m
  {
    assert m.Keys == {} ==> m == map[];
    var k :| k in m.Keys;
    k
  }

  ghost function Total<K>(m: map<K, nat>): nat {
    if m == map[] then 0
    else
      var k := SomeKey(m);
      m[k] + Total(m - {k})
  }

  lemma {:induction false} TotalTakeOut<K>(m: map<K, nat>, k: K)
    requires k in m
    ensures Total(m) == m[k] + Total(m - {k})
    decreases |m|
  {
    var j :| j in m && Total(m) == m[j] + Total(m - {j});
    if j != k {
      assert (m - {j}).Keys == m.Keys - {j} && (m - {k}).Keys == m.Keys - {k};
      TotalTakeOut(m - {j}, k);
      TotalTakeOut(m - {k}, j);
      assert m - {j} - {k} == m - {k} - {j};
    }
  }

  lemma {:induction false} TotalNext<K>(m: map<K, nat>, k: K, n: nat)
    ensures Total(m[k := n]) == n + Total(m) - (if k in m then m[k] else 0)
  {
    TotalTakeOut(m[k := n], k);
    if k in m {
      TotalTakeOut(m, k);
      assert m[k := n] - {k} == m - {k};
    } else {
      assert m[k := n] - {k} == m;
    }
  }
}
