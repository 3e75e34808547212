/**
 * The settle set-difference: what became of every published key, given everything Target System
 * said about any key.
 */
module Settlement {
  import opened Collections

  datatype LoadError = LoadError(accountId: string, status: int, reason: string, raw: string)

  datatype Tally = Tally(published: nat, accepted: nat, duplicates: nat, unsettled: int, retries: nat,
                         errors: seq<LoadError>)

  datatype Fate = WasRejected | WasDuplicate | WasAccepted | Unsettled

  /** A rejection outranks a duplicate, a duplicate outranks a creation. */
  function FateOf(key: string, confirmed: set<string>, duplicates: set<string>, rejected: set<string>): Fate {
    if key in rejected then WasRejected
    else if key in duplicates then WasDuplicate
    else if key in confirmed then WasAccepted
    else Unsettled
  }

  function Those(published: set<string>, confirmed: set<string>, duplicates: set<string>, rejected: set<string>,
                 fate: Fate): set<string> {
    set key | key in published && FateOf(key, confirmed, duplicates, rejected) == fate
  }

  lemma {:induction false} EveryKeyHasOneFate(published: set<string>, confirmed: set<string>,
      duplicates: set<string>, rejected: set<string>)
    ensures |Those(published, confirmed, duplicates, rejected, WasRejected)|
          + |Those(published, confirmed, duplicates, rejected, WasDuplicate)|
          + |Those(published, confirmed, duplicates, rejected, WasAccepted)|
          + |Those(published, confirmed, duplicates, rejected, Unsettled)| == |published|
  {
    var r := Those(published, confirmed, duplicates, rejected, WasRejected);
    var d := Those(published, confirmed, duplicates, rejected, WasDuplicate);
    var a := Those(published, confirmed, duplicates, rejected, WasAccepted);
    var u := Those(published, confirmed, duplicates, rejected, Unsettled);
    assert published == r + d + a + u;
    assert |r + d| == |r| + |d|;
    assert |r + d + a| == |r + d| + |a|;
  }

  /** Hearing more never turns a settled key back into an unsettled one. */
  lemma {:induction false} MoreVerdictsNeverUnsettle(published: set<string>, confirmed: set<string>,
      duplicates: set<string>,
                                  rejected: set<string>, confirmed': set<string>, duplicates': set<string>,
                                  rejected': set<string>)
    requires confirmed <= confirmed' && duplicates <= duplicates' && rejected <= rejected'
    ensures |Those(published, confirmed', duplicates', rejected', Unsettled)|
         <= |Those(published, confirmed, duplicates, rejected, Unsettled)|
  {
    SubsetSize(Those(published, confirmed', duplicates', rejected', Unsettled),
               Those(published, confirmed, duplicates, rejected, Unsettled));
  }

  /** Only what was said about published keys matters. */
  lemma {:induction false} ForeignKeysChangeNothing(published: set<string>, confirmed: set<string>,
      duplicates: set<string>,
                                 rejected: set<string>, confirmed': set<string>, duplicates': set<string>,
                                 rejected': set<string>)
    requires confirmed * published == confirmed' * published
    requires duplicates * published == duplicates' * published
    requires rejected * published == rejected' * published
    ensures forall fate :: Those(published, confirmed, duplicates, rejected, fate)
                        == Those(published, confirmed', duplicates', rejected', fate)
  {
    forall key | key in published
      ensures FateOf(key, confirmed, duplicates, rejected) == FateOf(key, confirmed', duplicates', rejected')
    {
      assert key in confirmed <==> key in confirmed * published;
      assert key in confirmed' <==> key in confirmed' * published;
      assert key in duplicates <==> key in duplicates * published;
      assert key in duplicates' <==> key in duplicates' * published;
      assert key in rejected <==> key in rejected * published;
      assert key in rejected' <==> key in rejected' * published;
    }
  }

  function GetOr(m: map<string, string>, key: string, default: string): string {
    if key in m then m[key] else default
  }

  function ErrorFor(key: string, reason: string, accountIdByKey: map<string, string>,
                    rawByKey: map<string, string>): LoadError {
    LoadError(GetOr(accountIdByKey, key, "<unidentified>"), 0, "rejected by target system: " + reason,
              GetOr(rawByKey, key, ""))
  }

  predicate Lists(order: seq<string>, errors: seq<LoadError>, rejected: map<string, string>,
                  accountIdByKey: map<string, string>, rawByKey: map<string, string>) {
    && Distinct(order) && |order| == |errors|
    && forall i | 0 <= i < |order| ::
         order[i] in rejected && errors[i] == ErrorFor(order[i], rejected[order[i]], accountIdByKey, rawByKey)
  }

  /** `errors` holds one entry per key of `keys`, in some order. */
  ghost predicate OneErrorEach(errors: seq<LoadError>, keys: set<string>, rejected: map<string, string>,
                               accountIdByKey: map<string, string>, rawByKey: map<string, string>) {
    exists order: seq<string> ::
      Lists(order, errors, rejected, accountIdByKey, rawByKey) && Elements(order) == keys
  }

  lemma {:induction false} ErrorsListKeys(order: seq<string>, errors: seq<LoadError>, rejected: map<string, string>,
                                          accountIdByKey: map<string, string>, rawByKey: map<string, string>,
                                          e: LoadError)
    requires Lists(order, errors, rejected, accountIdByKey, rawByKey)
    ensures e in errors <==>
              exists key :: key in order && key in rejected
                            && e == ErrorFor(key, rejected[key], accountIdByKey, rawByKey)
  {
    if e in errors {
      var i :| 0 <= i < |errors| && errors[i] == e;
      assert order[i] in order;
    }
    if key :| key in order && key in rejected && e == ErrorFor(key, rejected[key], accountIdByKey, rawByKey) {
      var i :| 0 <= i < |order| && order[i] == key;
      assert errors[i] == e;
    }
  }

  /** One row per key, with its account and payload where they are known, and Target System's reason. */
  lemma {:induction false} ErrorsSayExactly(errors: seq<LoadError>, keys: set<string>, rejected: map<string, string>,
                                            accountIdByKey: map<string, string>, rawByKey: map<string, string>,
                                            e: LoadError)
    requires OneErrorEach(errors, keys, rejected, accountIdByKey, rawByKey)
    ensures |errors| == |keys|
    ensures e in errors <==>
              exists key :: key in keys && key in rejected && e == LoadError(
                if key in accountIdByKey then accountIdByKey[key] else "<unidentified>", 0,
                "rejected by target system: " + rejected[key], if key in rawByKey then rawByKey[key] else "")
  {
    var order: seq<string> :| Lists(order, errors, rejected, accountIdByKey, rawByKey) && Elements(order) == keys;
    DistinctExactly(order);
    ErrorsListKeys(order, errors, rejected, accountIdByKey, rawByKey, e);
    assert forall key :: key in order <==> key in keys;
  }

  method ErrorsFor(rejected: map<string, string>, accountIdByKey: map<string, string>, rawByKey: map<string, string>)
    returns (errors: seq<LoadError>)
    ensures |errors| == |rejected|
    ensures OneErrorEach(errors, rejected.Keys, rejected, accountIdByKey, rawByKey)
  {
    errors := [];
    var left := rejected.Keys;
    ghost var order: seq<string> := [];
    while left != {}
      invariant left <= rejected.Keys && |errors| + |left| == |rejected|
      invariant Lists(order, errors, rejected, accountIdByKey, rawByKey)
      invariant Elements(order) == rejected.Keys - left
    {
      var key :| key in left;
      errors := errors + [LoadError(GetOr(accountIdByKey, key, "<unidentified>"), 0,
                                    "rejected by target system: " + rejected[key],
                                    GetOr(rawByKey, key, ""))];
      assert key !in order;
      ElementsNext(order, key);
      order := order + [key];
      left := left - {key};
    }
  }

  /** What the set edits of the settlement come to, for the rejected keys that were published. */
  lemma {:induction false} EditsPickFates(published: set<string>, confirmed: set<string>, duplicates: set<string>,
      rejected: set<string>)
    ensures var r := rejected * published;
            var d := duplicates * published - r;
            var c := confirmed * published - r - d;
            && r == Those(published, confirmed, duplicates, rejected, WasRejected)
            && d == Those(published, confirmed, duplicates, rejected, WasDuplicate)
            && c == Those(published, confirmed, duplicates, rejected, WasAccepted)
            && published - confirmed - duplicates - rejected
                == Those(published, confirmed, duplicates, rejected, Unsettled)
            && |published| == |c| + |d| + |r| + |published - confirmed - duplicates - rejected|
  {
    EveryKeyHasOneFate(published, confirmed, duplicates, rejected);
    assert rejected * published == Those(published, confirmed, duplicates, rejected, WasRejected);
    assert duplicates * published - rejected * published
        == Those(published, confirmed, duplicates, rejected, WasDuplicate);
    assert confirmed * published - rejected * published - (duplicates * published - rejected * published)
        == Those(published, confirmed, duplicates, rejected, WasAccepted);
    assert published - confirmed - duplicates - rejected
        == Those(published, confirmed, duplicates, rejected, Unsettled);
  }

  /** `retainAll` on the keys of a map. */
  function Retain(m: map<string, string>, keys: set<string>): (r: map<string, string>)
    ensures r.Keys == m.Keys * keys && forall key | key in r :: r[key] == m[key]
  {
    map key | key in m && key in keys :: m[key]
  }

  /** The edits of the set copies, in their order, and what is left over. */
  method Restrict(published: set<string>, confirmed: set<string>, duplicates: set<string>, rejected: map<string,
      string>)
    returns (confirmedKeys: set<string>, duplicateKeys: set<string>, rejectedKeys: map<string, string>, unsettled: int)
    ensures rejectedKeys == Retain(rejected, published)
    ensures confirmedKeys == Those(published, confirmed, duplicates, rejected.Keys, WasAccepted)
    ensures duplicateKeys == Those(published, confirmed, duplicates, rejected.Keys, WasDuplicate)
    ensures unsettled == |published - confirmed - duplicates - rejected.Keys|
    ensures |published| == |confirmedKeys| + |duplicateKeys| + |rejectedKeys| + unsettled
  {
    confirmedKeys, duplicateKeys, rejectedKeys := confirmed, duplicates, rejected;
    confirmedKeys := confirmedKeys * published;
    duplicateKeys := duplicateKeys * published;
    rejectedKeys := Retain(rejectedKeys, published);
    confirmedKeys := confirmedKeys - rejectedKeys.Keys;
    duplicateKeys := duplicateKeys - rejectedKeys.Keys;
    confirmedKeys := confirmedKeys - duplicateKeys;
    EditsPickFates(published, confirmed, duplicates, rejected.Keys);
    unsettled := |published| - |confirmedKeys| - |duplicateKeys| - |rejectedKeys|;
  }

  method SettleAgainst(published: set<string>, confirmed: set<string>, duplicates: set<string>,
                       rejected: map<string, string>, accountIdByKey: map<string, string>,
                       rawByKey: map<string, string>)
    returns (t: Tally)
    ensures t.published == |published| && t.retries == 0
    ensures t.accepted == |Those(published, confirmed, duplicates, rejected.Keys, WasAccepted)|
    ensures t.duplicates == |Those(published, confirmed, duplicates, rejected.Keys, WasDuplicate)|
    ensures t.unsettled == |published - confirmed - duplicates - rejected.Keys|
    ensures OneErrorEach(t.errors, rejected.Keys * published, Retain(rejected, published), accountIdByKey, rawByKey)
    ensures t.published == t.accepted + t.duplicates + |t.errors| + t.unsettled
  {
    var confirmedKeys, duplicateKeys, rejectedKeys, unsettled := Restrict(published, confirmed, duplicates, rejected);
    var errors := ErrorsFor(rejectedKeys, accountIdByKey, rawByKey);
    t := Tally(|published|, |confirmedKeys|, |duplicateKeys|, unsettled, 0, errors);
  }
}
