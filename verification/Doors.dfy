/** The two doors, the counters behind the balancing equation, and how counters are merged. */
module Doors {
  import opened Collections

  datatype Door = Written | Rejected(reason: string)

  /** What a Counters object holds. */
  datatype Tally = Tally(srcRead: nat, written: nat, rejected: nat, byReason: map<string, nat>)

  const ZERO := Tally(0, 0, 0, map[])

  function Count(m: map<string, nat>, reason: string): nat {
    if reason in m then m[reason] else 0
  }

  /** One record read and let out through its door. */
  function Step(t: Tally, door: Door): Tally {
    match door
    case Written => t.(srcRead := t.srcRead + 1, written := t.written + 1)
    case Rejected(reason) =>
      t.(srcRead := t.srcRead + 1, rejected := t.rejected + 1,
         byReason := t.byReason[reason := Count(t.byReason, reason) + 1])
  }

  function TallyOf(doors: seq<Door>): Tally {
    if doors == [] then ZERO else Step(TallyOf(doors[..|doors| - 1]), doors[|doors| - 1])
  }

  /** The equation, and the breakdown behind the rejected door adding up to it. */
  ghost predicate Sound(t: Tally) {
    t.srcRead == t.written + t.rejected && Total(t.byReason) == t.rejected
  }

  lemma {:induction false} TallyIsSound(doors: seq<Door>)
    ensures Sound(TallyOf(doors)) && TallyOf(doors).srcRead == |doors|
    ensures TallyOf(doors).written + TallyOf(doors).rejected == |doors|
    ensures Total(TallyOf(doors).byReason) == TallyOf(doors).rejected
  {
    if doors != [] {
      TallyIsSound(doors[..|doors| - 1]);
      var t := TallyOf(doors[..|doors| - 1]);
      match doors[|doors| - 1]
      case Written =>
      case Rejected(reason) => TotalNext(t.byReason, reason, Count(t.byReason, reason) + 1);
    }
  }

  /** Each number counts the doors it stands for, reason by reason; a reason nobody was refused for is not listed. */
  lemma {:induction false} TallyCountsExactly(doors: seq<Door>, reason: string)
    ensures var t := TallyOf(doors);
            && t.written == multiset(doors)[Written] && t.rejected == |doors| - multiset(doors)[Written]
            && (reason in t.byReason <==> Rejected(reason) in doors)
            && (reason in t.byReason ==> t.byReason[reason] == multiset(doors)[Rejected(reason)])
  {
    if doors != [] {
      var n := |doors| - 1;
      TallyCountsExactly(doors[..n], reason);
      assert doors == doors[..n] + [doors[n]];
    }
  }

  function AddReasons(a: map<string, nat>, b: map<string, nat>): (m: map<string, nat>)
    ensures forall k :: Count(m, k) == Count(a, k) + Count(b, k)
    ensures m.Keys == a.Keys + b.Keys
  {
    map k | k in a.Keys + b.Keys :: Count(a, k) + Count(b, k)
  }

  function Merge(a: Tally, b: Tally): Tally {
    Tally(a.srcRead + b.srcRead, a.written + b.written, a.rejected + b.rejected, AddReasons(a.byReason, b.byReason))
  }

  function MergeAll(tallies: seq<Tally>): Tally {
    if tallies == [] then ZERO else Merge(MergeAll(tallies[..|tallies| - 1]), tallies[|tallies| - 1])
  }

  lemma {:induction false} MergeStep(a: Tally, b: Tally, door: Door)
    ensures Merge(a, Step(b, door)) == Step(Merge(a, b), door)
  {
    match door
    case Written =>
    case Rejected(reason) =>
      var m := AddReasons(a.byReason, Step(b, door).byReason);
      var n := Step(Merge(a, b), door).byReason;
      assert m.Keys == n.Keys;
      forall k | k in m ensures m[k] == n[k] {
        assert Count(m, k) == Count(a.byReason, k) + Count(Step(b, door).byReason, k);
        assert Count(AddReasons(a.byReason, b.byReason), k) == Count(a.byReason, k) + Count(b.byReason, k);
      }
      assert m == n;
  }

  lemma {:induction false} MergeZero(a: Tally)
    ensures Merge(a, ZERO) == a
  {
    var m := AddReasons(a.byReason, map[]);
    forall k | k in m ensures m[k] == a.byReason[k] {
      assert Count(m, k) == Count(a.byReason, k);
    }
    assert m == a.byReason;
  }

  /** Merging the counters of two stretches counts the two stretches together. */
  lemma {:induction false} MergeCountsTogether(a: seq<Door>, b: seq<Door>)
    ensures Merge(TallyOf(a), TallyOf(b)) == TallyOf(a + b)
    decreases |b|
  {
    if b == [] {
      assert a + b == a;
      MergeZero(TallyOf(a));
    } else {
      assert (a + b)[..|a + b| - 1] == a + b[..|b| - 1];
      MergeCountsTogether(a, b[..|b| - 1]);
      MergeStep(TallyOf(a), TallyOf(b[..|b| - 1]), b[|b| - 1]);
    }
  }

  class Counters {
    var srcRead: nat
    var written: nat
    var rejected: nat
    var byReason: map<string, nat>

    constructor ()
      ensures Value() == ZERO
    {
      srcRead, written, rejected, byReason := 0, 0, 0, map[];
    }

    function Value(): Tally
      reads this
    {
      Tally(srcRead, written, rejected, byReason)
    }

    /** Reading a record and counting the door it leaves through. */
    method Record(door: Door, ghost doors: seq<Door>)
      requires Value() == TallyOf(doors)
      modifies this
      ensures Value() == TallyOf(doors + [door])
    {
      assert (doors + [door])[..|doors|] == doors;
      srcRead := srcRead + 1;
      match door {
        case Written => written := written + 1;
        case Rejected(reason) =>
          rejected := rejected + 1;
          byReason := byReason[reason := Count(byReason, reason) + 1];
      }
    }

    /** `other` may be this tally itself, which then counts double. */
    method MergeFrom(other: Counters)
      modifies this
      ensures Value() == Merge(old(Value()), old(other.Value()))
    {
      ghost var theirs, before := other.Value(), byReason;
      srcRead := srcRead + other.srcRead;
      written := written + other.written;
      rejected := rejected + other.rejected;
      var left := other.byReason.Keys;
      while left != {}
        invariant left <= theirs.byReason.Keys
        invariant forall k | k in left :: k in other.byReason && other.byReason[k] == theirs.byReason[k]
        invariant srcRead == old(srcRead) + theirs.srcRead && written == old(written) + theirs.written
        invariant rejected == old(rejected) + theirs.rejected
        invariant byReason.Keys == before.Keys + (theirs.byReason.Keys - left)
        invariant forall k | k in byReason ::
                    byReason[k] == Count(before, k) + (if k in left then 0 else Count(theirs.byReason, k))
      {
        var reason :| reason in left;
        byReason := byReason[reason := Count(byReason, reason) + other.byReason[reason]];
        left := left - {reason};
      }
      assert byReason == AddReasons(before, theirs.byReason);
    }
  }
}
