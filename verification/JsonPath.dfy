/**
 * Writing to and reading from a JSON document at a dotted path. Writing creates the objects it
 * needs on the way down, replacing whatever is not an object.
 */
module JsonPath {
  import opened Wrappers
  import Text

  datatype Json =
    | Null
    | Bool(value: bool)
    | Number(digits: string)
    | Str(text: string)
    | Array(items: seq<Json>)
    | Object(fields: map<string, Json>)

  type Fields = map<string, Json>

  function NonEmpty(pieces: seq<string>): seq<string> {
    if pieces == [] then []
    else (if pieces[0] == "" then [] else [pieces[0]]) + NonEmpty(pieces[1..])
  }

  /** The steps of `$.a.b`; the first character, the dollar, is not looked at here. */
  function Parts(path: string): seq<string> {
    NonEmpty(Text.Split(if path == "" then "" else path[1..], '.'))
  }

  function FieldsOf(j: Json): Fields {
    if j.Object? then j.fields else map[]
  }

  function Child(doc: Fields, part: string): Fields {
    if part in doc then FieldsOf(doc[part]) else map[]
  }

  function Put(doc: Fields, parts: seq<string>, value: Json): Fields
    requires parts != []
    decreases parts
  {
    if |parts| == 1 then doc[parts[0] := value]
    else doc[parts[0] := Object(Put(Child(doc, parts[0]), parts[1..], value))]
  }

  /** `None` is the MISSING marker. */
  function Get(doc: Json, parts: seq<string>): Option<Json> {
    if parts == [] then Some(doc)
    else if doc.Object? && parts[0] in doc.fields then Get(doc.fields[parts[0]], parts[1..])
    else None
  }

  lemma {:induction false} NonEmptyNext(pieces: seq<string>, i: nat)
    requires i < |pieces|
    ensures pieces[i] == "" ==> NonEmpty(pieces[i..]) == NonEmpty(pieces[i + 1..])
    ensures pieces[i] != "" ==> NonEmpty(pieces[i..]) != [] && NonEmpty(pieces[i..])[0] == pieces[i]
                                && NonEmpty(pieces[i..])[1..] == NonEmpty(pieces[i + 1..])
  {
    assert pieces[i..][1..] == pieces[i + 1..] && pieces[i..][0] == pieces[i];
  }

  lemma {:induction false} NonEmptyBoth(a: seq<string>, b: seq<string>)
    ensures NonEmpty(a + b) == NonEmpty(a) + NonEmpty(b)
  {
    if a == [] {
      assert a + b == b;
    } else {
      assert (a + b)[1..] == a[1..] + b;
      NonEmptyBoth(a[1..], b);
    }
  }

  /** The steps of two paths put one behind the other, with a dot between, are those of both. */
  lemma {:induction false} PartsOfBoth(a: string, b: string)
    ensures Parts("$" + a + "." + b) == Parts("$" + a) + Parts("$" + b)
  {
    assert ("$" + a + "." + b)[1..] == a + ['.'] + b && ("$" + a)[1..] == a && ("$" + b)[1..] == b;
    Text.SplitBoth(a, b, '.');
    NonEmptyBoth(Text.Split(a, '.'), Text.Split(b, '.'));
  }

  /** A step is what stands between two dots, if anything does. With the law above this is all of them. */
  lemma {:induction false} PartsOfOne(step: string)
    requires '.' !in step
    ensures Parts("$" + step) == if step == "" then [] else [step]
  {
    assert ("$" + step)[1..] == step;
    Text.SplitOnePiece(step, '.');
    assert [step][1..] == [] && NonEmpty([]) == [];
  }

  /** So `$.a.b` is the steps a and b, whatever their names. */
  lemma {:induction false} PartsReadBack(steps: seq<string>)
    requires forall step | step in steps :: step != "" && '.' !in step
    ensures Parts("$." + Text.Join(steps, '.')) == steps
  {
    assert "$" + "" + "." + Text.Join(steps, '.') == "$." + Text.Join(steps, '.') && "$" + "" == "$";
    PartsOfBoth("", Text.Join(steps, '.'));
    PartsOfOne("");
    JoinedParts(steps);
  }

  lemma {:induction false} JoinedParts(steps: seq<string>)
    requires forall step | step in steps :: step != "" && '.' !in step
    ensures Parts("$" + Text.Join(steps, '.')) == steps
  {
    if steps == [] {
      PartsOfOne("");
    } else {
      PartsOfOne(steps[0]);
      if |steps| > 1 {
        JoinedParts(steps[1..]);
        PartsOfBoth(steps[0], Text.Join(steps[1..], '.'));
        assert "$" + (steps[0] + ['.'] + Text.Join(steps[1..], '.'))
            == "$" + steps[0] + "." + Text.Join(steps[1..], '.');
      }
    }
  }

  method ResolvePath(doc: Json, path: string) returns (r: Result<Option<Json>, string>)
    ensures r.Err? <==> path == "" || path[0] != '$'
    ensures r.Ok? ==> r.value == Get(doc, Parts(path))
  {
    if path == "" || path[0] != '$' {
      return Err("path must start with '$'");
    }
    var pieces := Text.Split(path[1..], '.');
    var cur := doc;
    for i := 0 to |pieces|
      invariant Get(doc, Parts(path)) == Get(cur, NonEmpty(pieces[i..]))
    {
      NonEmptyNext(pieces, i);
      if pieces[i] == "" {
        continue;
      }
      if !cur.Object? || pieces[i] !in cur.fields {
        return Ok(None);
      }
      cur := cur.fields[pieces[i]];
    }
    return Ok(Some(cur));
  }

  // ---- the laws -------------------------------------------------------------------------------

  predicate Apart(p: seq<string>, q: seq<string>) {
    !(p <= q) && !(q <= p)
  }

  /** Below the path written, one reads into the value written; at the path itself, the value. */
  lemma {:induction false} GetAfterPut(doc: Fields, p: seq<string>, value: Json, q: seq<string>)
    requires p != []
    ensures Get(Object(Put(doc, p, value)), p) == Some(value)
    ensures Get(Object(Put(doc, p, value)), p + q) == Get(value, q)
    decreases p
  {
    assert (p + q)[1..] == p[1..] + q;
    if |p| == 1 {
      assert p[1..] + q == q;
    } else {
      GetAfterPut(Child(doc, p[0]), p[1..], value, q);
    }
  }

  /** Above the path written there is now an object at every step. */
  lemma {:induction false} PutMakesObjects(doc: Fields, p: seq<string>, value: Json, n: nat)
    requires n < |p|
    ensures var at := Get(Object(Put(doc, p, value)), p[..n]); at.Some? && at.value.Object?
    decreases p
  {
    if n > 0 {
      assert p[..n][1..] == p[1..][..n - 1];
      PutMakesObjects(Child(doc, p[0]), p[1..], value, n - 1);
    }
  }

  /** Anywhere else one reads what was there before, also where a non-object gave way to an object. */
  lemma {:induction false} PutElsewhereUnseen(doc: Fields, p: seq<string>, value: Json, q: seq<string>)
    requires p != [] && Apart(p, q)
    ensures Get(Object(Put(doc, p, value)), q) == Get(Object(doc), q)
    decreases p
  {
    assert q != [];
    if p[0] == q[0] {
      var child := Child(doc, p[0]);
      PutElsewhereUnseen(child, p[1..], value, q[1..]);
      assert q[1..] != [];
      if p[0] in doc && doc[p[0]].Object? {
        assert doc[p[0]] == Object(child);
      }
    }
  }

  lemma {:induction false} LastPutWins(doc: Fields, p: seq<string>, first: Json, second: Json)
    requires p != []
    ensures Put(Put(doc, p, first), p, second) == Put(doc, p, second)
    decreases p
  {
    if |p| > 1 {
      LastPutWins(Child(doc, p[0]), p[1..], first, second);
    }
  }

  lemma {:induction false} PutsApartCommute(doc: Fields, p: seq<string>, a: Json, q: seq<string>, b: Json)
    requires p != [] && q != [] && Apart(p, q)
    ensures Put(Put(doc, p, a), q, b) == Put(Put(doc, q, b), p, a)
    decreases p
  {
    if p[0] == q[0] {
      PutsApartCommute(Child(doc, p[0]), p[1..], a, q[1..], b);
      PutBelowTwice(doc, p, a, q, b);
      PutBelowTwice(doc, q, b, p, a);
    } else {
      PutsUnderTwoHeads(doc, p, a, q, b);
      PutsUnderTwoHeads(doc, q, b, p, a);
    }
  }

  function Top(doc: Fields, p: seq<string>, value: Json): Json
    requires p != []
  {
    if |p| == 1 then value else Object(Put(Child(doc, p[0]), p[1..], value))
  }

  lemma {:induction false} PutsUnderTwoHeads(doc: Fields, p: seq<string>, a: Json, q: seq<string>, b: Json)
    requires p != [] && q != [] && p[0] != q[0]
    ensures Put(Put(doc, p, a), q, b) == doc[p[0] := Top(doc, p, a)][q[0] := Top(doc, q, b)]
    ensures doc[p[0] := Top(doc, p, a)][q[0] := Top(doc, q, b)] == doc[q[0] := Top(doc, q, b)][p[0] := Top(doc, p, a)]
  {
    assert Child(Put(doc, p, a), q[0]) == Child(doc, q[0]);
  }

  lemma {:induction false} PutBelowTwice(doc: Fields, p: seq<string>, a: Json, q: seq<string>, b: Json)
    requires |p| > 1 && |q| > 1 && p[0] == q[0]
    ensures Put(Put(doc, p, a), q, b) == doc[p[0] := Object(Put(Put(Child(doc, p[0]), p[1..], a), q[1..], b))]
  {
    assert Child(Put(doc, p, a), q[0]) == Put(Child(doc, p[0]), p[1..], a);
  }

  // ---- a document assembled from many writes --------------------------------------------------

  datatype Write = Write(parts: seq<string>, value: Json)

  predicate HavePaths(writes: seq<Write>) {
    forall w | w in writes :: w.parts != []
  }

  function Assemble(writes: seq<Write>): Fields
    requires HavePaths(writes)
  {
    if writes == [] then map[]
    else
      var w := writes[|writes| - 1];
      Put(Assemble(writes[..|writes| - 1]), w.parts, w.value)
  }

  predicate SameOrApart(writes: seq<Write>) {
    forall i, j | 0 <= i < |writes| && 0 <= j < |writes| ::
      writes[i].parts == writes[j].parts || Apart(writes[i].parts, writes[j].parts)
  }

  /** The last write to a path is what the document holds there. */
  lemma {:induction false} AssembledHoldsLast(writes: seq<Write>, i: nat)
    requires HavePaths(writes) && SameOrApart(writes)
    requires i < |writes| && forall j | i < j < |writes| :: writes[j].parts != writes[i].parts
    ensures Get(Object(Assemble(writes)), writes[i].parts) == Some(writes[i].value)
  {
    var n := |writes| - 1;
    var before := Assemble(writes[..n]);
    if i == n {
      GetAfterPut(before, writes[n].parts, writes[n].value, []);
    } else {
      assert writes[..n][i] == writes[i];
      AssembledHoldsLast(writes[..n], i);
      PutElsewhereUnseen(before, writes[n].parts, writes[n].value, writes[i].parts);
    }
  }

  /** And it holds nothing that no write is responsible for. */
  lemma {:induction false} AssembledHoldsNothingElse(writes: seq<Write>, q: seq<string>)
    requires HavePaths(writes)
    requires q != [] && forall w | w in writes :: Apart(w.parts, q)
    ensures Get(Object(Assemble(writes)), q) == None
  {
    if writes != [] {
      var n := |writes| - 1;
      assert writes[n] in writes;
      AssembledHoldsNothingElse(writes[..n], q);
      PutElsewhereUnseen(Assemble(writes[..n]), writes[n].parts, writes[n].value, q);
    }
  }

  lemma {:induction false} AssembleNext(writes: seq<Write>, w: Write)
    requires HavePaths(writes) && w.parts != []
    ensures HavePaths(writes + [w]) && Assemble(writes + [w]) == Put(Assemble(writes), w.parts, w.value)
  {
    assert (writes + [w])[..|writes|] == writes;
  }

  /** Three writes to paths apart, after whatever was written before, all stand; elsewhere nothing has changed. */
  lemma {:induction false} LastThreeStand(writes: seq<Write>, a: Write, b: Write, c: Write)
    requires HavePaths(writes) && a.parts != [] && b.parts != [] && c.parts != []
    ensures HavePaths(writes + [a, b, c])
    ensures var doc, before := Object(Assemble(writes + [a, b, c])), Object(Assemble(writes));
            && (Apart(a.parts, b.parts) && Apart(a.parts, c.parts) && Apart(b.parts, c.parts) ==>
                  && Get(doc, a.parts) == Some(a.value) && Get(doc, b.parts) == Some(b.value)
                  && Get(doc, c.parts) == Some(c.value))
            && forall q | Apart(a.parts, q) && Apart(b.parts, q) && Apart(c.parts, q) :: Get(doc, q) == Get(before, q)
  {
    AssembleNext(writes, a);
    AssembleNext(writes + [a], b);
    AssembleNext(writes + [a] + [b], c);
    assert writes + [a, b, c] == writes + [a] + [b] + [c];
    var zero := Assemble(writes);
    var one := Put(zero, a.parts, a.value);
    var two := Put(one, b.parts, b.value);
    GetAfterPut(zero, a.parts, a.value, []);
    GetAfterPut(one, b.parts, b.value, []);
    GetAfterPut(two, c.parts, c.value, []);
    if Apart(a.parts, b.parts) && Apart(a.parts, c.parts) && Apart(b.parts, c.parts) {
      PutElsewhereUnseen(one, b.parts, b.value, a.parts);
      PutElsewhereUnseen(two, c.parts, c.value, a.parts);
      PutElsewhereUnseen(two, c.parts, c.value, b.parts);
    }
    forall q | Apart(a.parts, q) && Apart(b.parts, q) && Apart(c.parts, q)
      ensures Get(Object(Assemble(writes + [a, b, c])), q) == Get(Object(zero), q)
    {
      PutElsewhereUnseen(zero, a.parts, a.value, q);
      PutElsewhereUnseen(one, b.parts, b.value, q);
      PutElsewhereUnseen(two, c.parts, c.value, q);
    }
  }
}
