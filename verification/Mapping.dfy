/**
 * The transformation engine: one target document from one source record, rule by rule, then the
 * provenance every document carries, then the check that nothing required is missing.
 */
module Mapping {
  import opened Wrappers
  import opened JsonPath
  import opened JsonObjects

  datatype Fault = Fault(reason: string, detail: string)

  /** `apply` is the transform with the rule's own settings; `needsSource` is false for concat and const. */
  datatype Rule = Rule(target: string, source: Option<string>, needsSource: bool,
                       apply: (Json, Fields) -> Result<Json, Fault>)

  datatype Engine = Engine(
    rules: seq<Rule>,
    targetPaths: map<string, string>,
    required: set<string>,
    sourceKey: Fields -> string,
    accountKey: Fields -> string)

  function PathOf(e: Engine, target: string): seq<string>
    requires target in e.targetPaths
  {
    Parts(e.targetPaths[target])
  }

  /** What the code relies on: provenance targets exist and no target path is the document itself. */
  predicate IsUsable(e: Engine) {
    && "runId" in e.targetPaths && "sourceKey" in e.targetPaths && "dedupKey" in e.targetPaths
    && (forall name | name in e.targetPaths :: PathOf(e, name) != [])
  }

  // ---- what a record maps to ------------------------------------------------------------------

  /** No write when an absent value is not required; a fault ends the record. */
  function RuleWrites(e: Engine, rule: Rule, fields: Fields): Result<seq<Write>, Fault> {
    if rule.needsSource && rule.source.None? then Err(Fault("MAP_TYPE_ERROR", rule.target + ": no `from` field"))
    else
      var raw := if rule.needsSource && rule.source.value in fields then fields[rule.source.value] else Null;
      match rule.apply(raw, fields)
      case Err(fault) => Err(fault)
      case Ok(value) =>
        if rule.target !in e.targetPaths
        then Err(Fault("MAP_TYPE_ERROR", rule.target + " is not defined in the TARGET TDS"))
        else if value == Null && rule.target !in e.required then Ok([])
        else Ok([Write(PathOf(e, rule.target), value)])
  }

  function AllRuleWrites(e: Engine, rules: seq<Rule>, fields: Fields): Result<seq<Write>, Fault> {
    if rules == [] then Ok([])
    else
      match AllRuleWrites(e, rules[..|rules| - 1], fields)
      case Err(fault) => Err(fault)
      case Ok(before) =>
        match RuleWrites(e, rules[|rules| - 1], fields)
        case Err(fault) => Err(fault)
        case Ok(more) => Ok(before + more)
  }

  function Provenance(e: Engine, fields: Fields, run: string): seq<Write>
    requires IsUsable(e)
  {
    [Write(PathOf(e, "runId"), Str(run)),
     Write(PathOf(e, "sourceKey"), Str(e.sourceKey(fields))),
     Write(PathOf(e, "dedupKey"), Str(e.accountKey(fields)))]
  }

  /** Every write goes to the path of some target. */
  ghost predicate ToTargets(e: Engine, writes: seq<Write>) {
    forall w | w in writes :: exists name :: name in e.targetPaths && PathOf(e, name) == w.parts
  }

  lemma {:induction false} ToTargetsHavePaths(e: Engine, writes: seq<Write>)
    requires IsUsable(e) && ToTargets(e, writes)
    ensures HavePaths(writes)
  {
  }

  lemma {:induction false} RulesWriteToTargets(e: Engine, rules: seq<Rule>, fields: Fields)
    requires AllRuleWrites(e, rules, fields).Ok?
    ensures ToTargets(e, AllRuleWrites(e, rules, fields).value)
  {
    if rules != [] {
      RulesWriteToTargets(e, rules[..|rules| - 1], fields);
    }
  }

  lemma {:induction false} ProvenanceGoesToTargets(e: Engine, fields: Fields, run: string)
    requires IsUsable(e)
    ensures ToTargets(e, Provenance(e, fields, run))
  {
  }

  /** Everything a record that meets no fault writes: what the rules say, then the provenance. */
  function AllWrites(e: Engine, fields: Fields, run: string): (writes: seq<Write>)
    requires IsUsable(e) && AllRuleWrites(e, e.rules, fields).Ok?
    ensures ToTargets(e, writes) && HavePaths(writes)
  {
    RulesWriteToTargets(e, e.rules, fields);
    ProvenanceGoesToTargets(e, fields, run);
    ToTargetsHavePaths(e, AllRuleWrites(e, e.rules, fields).value);
    ToTargetsHavePaths(e, Provenance(e, fields, run));
    AllRuleWrites(e, e.rules, fields).value + Provenance(e, fields, run)
  }

  /** The document, before the check that nothing required is missing. */
  function Document(e: Engine, fields: Fields, run: string): Fields
    requires IsUsable(e) && AllRuleWrites(e, e.rules, fields).Ok?
  {
    Assemble(AllWrites(e, fields, run))
  }

  /** `resolve_path` raises on any other path, also where `set_path` has written to it. */
  predicate IsRooted(path: string) {
    path != "" && path[0] == '$'
  }

  predicate IsChecked(e: Engine, name: string) {
    name in e.required && name in e.targetPaths
  }

  predicate Lacks(e: Engine, doc: Fields, name: string) {
    IsChecked(e, name) && IsRooted(e.targetPaths[name]) && !Filled(Get(Object(doc), PathOf(e, name)))
  }

  predicate Raises(e: Engine, name: string) {
    IsChecked(e, name) && !IsRooted(e.targetPaths[name])
  }

  /** What the check lets pass: a path from the root with something there, not null and not the empty string. */
  lemma {:induction false} FilledExactly(e: Engine, doc: Fields, name: string)
    requires name in e.required && name in e.targetPaths
    ensures var path := e.targetPaths[name];
            var found := Get(Object(doc), Parts(path));
            !Lacks(e, doc, name) && !Raises(e, name) <==>
              path != "" && path[0] == '$' && found != None && found != Some(Null) && found != Some(Str(""))
  {
  }

  /** Two targets never write into each other's place. */
  predicate TargetsAreApart(e: Engine) {
    forall a, b | a in e.targetPaths && b in e.targetPaths ::
      PathOf(e, a) == PathOf(e, b) || Apart(PathOf(e, a), PathOf(e, b))
  }

  /**
   * When no target path leads through another, the document holds at every path written the value
   * written there last, its provenance, and nothing else.
   */
  lemma {:induction false} DocumentHoldsExactly(e: Engine, fields: Fields, run: string)
    requires IsUsable(e) && AllRuleWrites(e, e.rules, fields).Ok? && TargetsAreApart(e)
    ensures var ws, doc := AllWrites(e, fields, run), Object(Document(e, fields, run));
            && (forall i: nat | i < |ws| && (forall j | i < j < |ws| :: ws[j].parts != ws[i].parts) ::
                  Get(doc, ws[i].parts) == Some(ws[i].value))
            && (forall q | q != [] && (forall w | w in ws :: Apart(w.parts, q)) :: Get(doc, q) == None)
  {
    var ws := AllWrites(e, fields, run);
    forall i, j | 0 <= i < |ws| && 0 <= j < |ws|
      ensures ws[i].parts == ws[j].parts || Apart(ws[i].parts, ws[j].parts)
    {
      assert ws[i] in ws && ws[j] in ws;
    }
    forall i: nat | i < |ws| && (forall j | i < j < |ws| :: ws[j].parts != ws[i].parts)
      ensures Get(Object(Assemble(ws)), ws[i].parts) == Some(ws[i].value)
    {
      AssembledHoldsLast(ws, i);
    }
    forall q | q != [] && (forall w | w in ws :: Apart(w.parts, q))
      ensures Get(Object(Assemble(ws)), q) == None
    {
      AssembledHoldsNothingElse(ws, q);
    }
  }

  // ---- the values, named --------------------------------------------------------------------

  predicate ProvenanceIsApart(e: Engine)
    requires IsUsable(e)
  {
    var run, source, dedup := PathOf(e, "runId"), PathOf(e, "sourceKey"), PathOf(e, "dedupKey");
    Apart(run, source) && Apart(run, dedup) && Apart(source, dedup)
  }

  lemma {:induction false} ProvenanceComesLast(e: Engine, fields: Fields, run: string)
    requires IsUsable(e) && AllRuleWrites(e, e.rules, fields).Ok?
    ensures var ruled, p := AllRuleWrites(e, e.rules, fields).value, Provenance(e, fields, run);
            && HavePaths(ruled) && HavePaths(p) && AllWrites(e, fields, run) == ruled + [p[0], p[1], p[2]]
  {
    var p := Provenance(e, fields, run);
    RulesWriteToTargets(e, e.rules, fields);
    ToTargetsHavePaths(e, AllRuleWrites(e, e.rules, fields).value);
    ProvenanceGoesToTargets(e, fields, run);
    ToTargetsHavePaths(e, p);
    assert p == [p[0], p[1], p[2]];
  }

  /** Whatever the rules wrote there: the run, the key of the source record, and the key the load goes by. */
  lemma {:induction false} ProvenanceStands(e: Engine, fields: Fields, run: string)
    requires IsUsable(e) && AllRuleWrites(e, e.rules, fields).Ok? && ProvenanceIsApart(e)
    ensures var doc, paths := Object(Document(e, fields, run)), e.targetPaths;
            && Get(doc, Parts(paths["runId"])) == Some(Str(run))
            && Get(doc, Parts(paths["sourceKey"])) == Some(Str(e.sourceKey(fields)))
            && Get(doc, Parts(paths["dedupKey"])) == Some(Str(e.accountKey(fields)))
  {
    var p := Provenance(e, fields, run);
    ProvenanceComesLast(e, fields, run);
    assert p[0] in p && p[1] in p && p[2] in p;
    LastThreeStand(AllRuleWrites(e, e.rules, fields).value, p[0], p[1], p[2]);
  }

  /** The rule has this value for the path: its transform gives it from the field it names, if it names one. */
  predicate Gives(e: Engine, rule: Rule, fields: Fields, path: seq<string>, value: Json) {
    && rule.target in e.targetPaths && Parts(e.targetPaths[rule.target]) == path
    && (rule.needsSource ==> rule.source.Some?)
    && rule.apply(if rule.needsSource && rule.source.value in fields then fields[rule.source.value] else Null, fields)
       == Ok(value)
  }

  /** The rule leaves the path alone: it is about another, or what it gives is absent and not required. */
  predicate LeavesAlone(e: Engine, rule: Rule, fields: Fields, path: seq<string>) {
    || (rule.target in e.targetPaths && Parts(e.targetPaths[rule.target]) != path)
    || (Gives(e, rule, fields, path, Null) && rule.target !in e.required)
  }

  predicate IsValueOf(e: Engine, rules: seq<Rule>, fields: Fields, path: seq<string>, value: Json, i: nat) {
    && i < |rules| && Gives(e, rules[i], fields, path, value) && (value != Null || rules[i].target in e.required)
    && forall j | i < j < |rules| :: LeavesAlone(e, rules[j], fields, path)
  }

  /** What the last rule has for the path that does not leave it alone; nothing when they all do. */
  ghost predicate IsLastValue(e: Engine, rules: seq<Rule>, fields: Fields, path: seq<string>, found: Option<Json>) {
    match found
    case None => forall j | 0 <= j < |rules| :: LeavesAlone(e, rules[j], fields, path)
    case Some(value) => exists i :: IsValueOf(e, rules, fields, path, value, i)
  }

  lemma {:induction false} LastValueNext(e: Engine, rules: seq<Rule>, fields: Fields, path: seq<string>,
                                         found: Option<Json>)
    requires rules != [] && IsLastValue(e, rules[..|rules| - 1], fields, path, found)
    requires LeavesAlone(e, rules[|rules| - 1], fields, path)
    ensures IsLastValue(e, rules, fields, path, found)
  {
    var n := |rules| - 1;
    assert forall j | 0 <= j < n :: rules[j] == rules[..n][j];
    if found.Some? {
      var i :| IsValueOf(e, rules[..n], fields, path, found.value, i);
      assert IsValueOf(e, rules, fields, path, found.value, i);
    }
  }

  /** What a rule writes: nothing or one value, for its own path. */
  lemma {:induction false} RuleWritesSay(e: Engine, rule: Rule, fields: Fields, path: seq<string>)
    requires TargetsAreApart(e) && RuleWrites(e, rule, fields).Ok?
    requires exists name :: name in e.targetPaths && PathOf(e, name) == path
    ensures var ws := RuleWrites(e, rule, fields).value;
            && |ws| <= 1
            && (ws == [] || ws[0].parts != path ==> LeavesAlone(e, rule, fields, path))
            && (ws != [] && ws[0].parts != path ==> Apart(ws[0].parts, path))
            && (ws != [] && ws[0].parts == path ==>
                  Gives(e, rule, fields, path, ws[0].value) && (ws[0].value != Null || rule.target in e.required))
  {
  }

  lemma {:induction false} RulesLeaveLastValue(e: Engine, rules: seq<Rule>, fields: Fields, path: seq<string>)
    requires IsUsable(e) && TargetsAreApart(e) && AllRuleWrites(e, rules, fields).Ok?
    requires path != [] && exists name :: name in e.targetPaths && PathOf(e, name) == path
    ensures HavePaths(AllRuleWrites(e, rules, fields).value)
    ensures IsLastValue(e, rules, fields, path, Get(Object(Assemble(AllRuleWrites(e, rules, fields).value)), path))
  {
    RulesWriteToTargets(e, rules, fields);
    ToTargetsHavePaths(e, AllRuleWrites(e, rules, fields).value);
    if rules != [] {
      var n := |rules| - 1;
      RulesLeaveLastValue(e, rules[..n], fields, path);
      OneRuleMore(e, rules, fields, path);
    }
  }

  lemma {:induction false} OneRuleMore(e: Engine, rules: seq<Rule>, fields: Fields, path: seq<string>)
    requires path != [] && TargetsAreApart(e) && rules != [] && AllRuleWrites(e, rules, fields).Ok?
    requires exists name :: name in e.targetPaths && PathOf(e, name) == path
    requires HavePaths(AllRuleWrites(e, rules[..|rules| - 1], fields).value)
    requires HavePaths(AllRuleWrites(e, rules, fields).value)
    requires IsLastValue(e, rules[..|rules| - 1], fields, path,
                         Get(Object(Assemble(AllRuleWrites(e, rules[..|rules| - 1], fields).value)), path))
    ensures IsLastValue(e, rules, fields, path, Get(Object(Assemble(AllRuleWrites(e, rules, fields).value)), path))
  {
    var n := |rules| - 1;
    var before, more := AllRuleWrites(e, rules[..n], fields).value, RuleWrites(e, rules[n], fields).value;
    RuleWritesSay(e, rules[n], fields, path);
    if more == [] {
      assert before + more == before;
      LastValueNext(e, rules, fields, path, Get(Object(Assemble(before)), path));
    } else {
      var w := more[0];
      assert more == [w] && w in before + more;
      AssembleNext(before, w);
      if w.parts == path {
        GetAfterPut(Assemble(before), path, w.value, []);
        assert IsValueOf(e, rules, fields, path, w.value, n);
      } else {
        PutElsewhereUnseen(Assemble(before), w.parts, w.value, path);
        LastValueNext(e, rules, fields, path, Get(Object(Assemble(before)), path));
      }
    }
  }

  /** At a target path apart from the provenance the document has what the rules leave there, and no more. */
  lemma {:induction false} RuleValuesStand(e: Engine, fields: Fields, run: string, name: string)
    requires IsUsable(e) && TargetsAreApart(e) && AllRuleWrites(e, e.rules, fields).Ok? && name in e.targetPaths
    requires Apart(PathOf(e, "runId"), PathOf(e, name)) && Apart(PathOf(e, "sourceKey"), PathOf(e, name))
    requires Apart(PathOf(e, "dedupKey"), PathOf(e, name))
    ensures IsLastValue(e, e.rules, fields, Parts(e.targetPaths[name]),
                        Get(Object(Document(e, fields, run)), Parts(e.targetPaths[name])))
  {
    var p := Provenance(e, fields, run);
    RulesLeaveLastValue(e, e.rules, fields, PathOf(e, name));
    ProvenanceComesLast(e, fields, run);
    assert p[0] in p && p[1] in p && p[2] in p;
    LastThreeStand(AllRuleWrites(e, e.rules, fields).value, p[0], p[1], p[2]);
  }

  /** The fault a rule meets: no field to read, what its transform objects to, or a target nobody knows. */
  predicate Meets(e: Engine, rule: Rule, fields: Fields, fault: Fault) {
    if rule.needsSource && rule.source.None? then
      fault == Fault("MAP_TYPE_ERROR", rule.target + ": no `from` field")
    else
      var raw := if rule.needsSource && rule.source.value in fields then fields[rule.source.value] else Null;
      || rule.apply(raw, fields) == Err(fault)
      || (rule.apply(raw, fields).Ok? && rule.target !in e.targetPaths
          && fault == Fault("MAP_TYPE_ERROR", rule.target + " is not defined in the TARGET TDS"))
  }

  /** The rules fail with a fault exactly when the first of them to meet any meets that one. */
  lemma {:induction false} FirstFaultExactly(e: Engine, rules: seq<Rule>, fields: Fields, fault: Fault)
    ensures AllRuleWrites(e, rules, fields) == Err(fault) <==>
              exists i :: 0 <= i < |rules| && Meets(e, rules[i], fields, fault)
                          && forall j, other | 0 <= j < i :: !Meets(e, rules[j], fields, other)
    ensures AllRuleWrites(e, rules, fields).Ok? <==>
              forall j, other | 0 <= j < |rules| :: !Meets(e, rules[j], fields, other)
  {
    if rules != [] {
      var n := |rules| - 1;
      FirstFaultExactly(e, rules[..n], fields, fault);
      assert forall j | 0 <= j < n :: rules[..n][j] == rules[j];
      assert RuleWrites(e, rules[n], fields) == Err(fault) <==> Meets(e, rules[n], fields, fault);
      if RuleWrites(e, rules[n], fields).Err? {
        assert Meets(e, rules[n], fields, RuleWrites(e, rules[n], fields).error);
      }
    }
  }

  // ---- map_record -----------------------------------------------------------------------------

  method Store(doc: JsonObject, parts: seq<string>, json: Json, ghost writes: seq<Write>)
    requires doc.Valid() && parts != [] && HavePaths(writes)
    requires doc.Contents() == Assemble(writes)
    modifies doc.Repr
    ensures doc.Valid() && fresh(doc.Repr - old(doc.Repr))
    ensures HavePaths(writes + [Write(parts, json)])
    ensures doc.Contents() == Assemble(writes + [Write(parts, json)])
  {
    ghost var foot;
    var value;
    value, foot := Copy(json);
    doc.SetPath(parts, value, json, foot);
    assert (writes + [Write(parts, json)])[..|writes|] == writes;
  }

  lemma {:induction false} OneWriteAtMost(e: Engine, rule: Rule, fields: Fields)
    requires IsUsable(e) && RuleWrites(e, rule, fields).Ok?
    ensures var ws := RuleWrites(e, rule, fields).value; |ws| <= 1 && HavePaths(ws)
  {
    if RuleWrites(e, rule, fields).value != [] {
      assert PathOf(e, rule.target) != [];
    }
  }

  lemma {:induction false} OneMoreRule(e: Engine, i: nat, fields: Fields, writes: seq<Write>)
    requires IsUsable(e) && i < |e.rules| && RuleWrites(e, e.rules[i], fields).Ok?
    requires AllRuleWrites(e, e.rules[..i], fields) == Ok(writes)
    ensures HavePaths(RuleWrites(e, e.rules[i], fields).value)
    ensures AllRuleWrites(e, e.rules[..i + 1], fields) == Ok(writes + RuleWrites(e, e.rules[i], fields).value)
  {
    assert e.rules[..i + 1][..i] == e.rules[..i];
    OneWriteAtMost(e, e.rules[i], fields);
  }

  method ApplyRules(e: Engine, fields: Fields, doc: JsonObject) returns (fault: Option<Fault>)
    requires IsUsable(e) && doc.Valid() && doc.Contents() == map[]
    modifies doc.Repr
    ensures fault.Some? ==> AllRuleWrites(e, e.rules, fields) == Err(fault.value)
    ensures fault.None? ==>
              var ws := AllRuleWrites(e, e.rules, fields);
              ws.Ok? && HavePaths(ws.value) && doc.Valid() && fresh(doc.Repr - old(doc.Repr))
              && doc.Contents() == Assemble(ws.value)
  {
    ghost var writes: seq<Write> := [];
    for i := 0 to |e.rules|
      invariant AllRuleWrites(e, e.rules[..i], fields) == Ok(writes) && HavePaths(writes)
      invariant doc.Valid() && fresh(doc.Repr - old(doc.Repr)) && doc.Contents() == Assemble(writes)
    {
      var more := RuleWrites(e, e.rules[i], fields);
      if more.Err? {
        FaultEndsRecord(e, e.rules, i, fields);
        return Some(more.error);
      }
      OneMoreRule(e, i, fields, writes);
      StoreAll(doc, more.value, writes);
      writes := writes + more.value;
    }
    assert e.rules[..|e.rules|] == e.rules;
    return None;
  }

  /** The three provenance calls of set_path, in turn. */
  method AddProvenance(e: Engine, fields: Fields, run: string, doc: JsonObject, ghost writes: seq<Write>)
    requires IsUsable(e) && doc.Valid() && HavePaths(writes) && doc.Contents() == Assemble(writes)
    modifies doc.Repr
    ensures doc.Valid() && fresh(doc.Repr - old(doc.Repr))
    ensures HavePaths(writes + Provenance(e, fields, run))
    ensures doc.Contents() == Assemble(writes + Provenance(e, fields, run))
  {
    ProvenanceGoesToTargets(e, fields, run);
    ToTargetsHavePaths(e, Provenance(e, fields, run));
    StoreAll(doc, Provenance(e, fields, run), writes);
  }

  method StoreAll(doc: JsonObject, more: seq<Write>, ghost writes: seq<Write>)
    requires doc.Valid() && HavePaths(writes) && HavePaths(more) && doc.Contents() == Assemble(writes)
    modifies doc.Repr
    ensures doc.Valid() && fresh(doc.Repr - old(doc.Repr))
    ensures HavePaths(writes + more) && doc.Contents() == Assemble(writes + more)
  {
    ghost var done := writes;
    for i := 0 to |more|
      invariant done == writes + more[..i] && HavePaths(done)
      invariant doc.Valid() && fresh(doc.Repr - old(doc.Repr)) && doc.Contents() == Assemble(done)
    {
      assert more[i] in more;
      Store(doc, more[i].parts, more[i].value, done);
      done := done + [Write(more[i].parts, more[i].value)];
      assert Write(more[i].parts, more[i].value) == more[i];
    }
    assert done == writes + more;
  }

  datatype Check = Complete | Lacking(name: string) | Unrooted(name: string)

  /** The first required target found empty or unresolvable, in whatever order the set is gone through. */
  method CheckRequired(e: Engine, doc: JsonObject, ghost document: Fields) returns (check: Check)
    requires doc.Valid() && doc.Contents() == document
    ensures check.Lacking? ==> Lacks(e, document, check.name)
    ensures check.Unrooted? ==> Raises(e, check.name)
    ensures check.Complete? ==> forall name :: !Lacks(e, document, name) && !Raises(e, name)
    ensures doc.Valid() && doc.Contents() == document
  {
    var left := e.required;
    while left != {}
      invariant left <= e.required
      invariant forall name | name in e.required && name !in left :: !Lacks(e, document, name) && !Raises(e, name)
    {
      var name :| name in left;
      if name in e.targetPaths {
        if !IsRooted(e.targetPaths[name]) {
          return Unrooted(name);
        }
        var filled := doc.IsFilled(PathOf(e, name));
        if !filled {
          return Lacking(name);
        }
      }
      left := left - {name};
    }
    return Complete;
  }

  /** A record is mapped, refused for a fault, or meets the exception nobody catches. */
  datatype Mapped = Mapped(doc: JsonObject) | Refused(fault: Fault) | Raised(name: string)

  /**
   * A fault of any rule, taken in order, is the record's; otherwise the record maps exactly when no
   * required target is left empty or has a path that cannot be resolved, and then to the document
   * described above.
   */
  method MapRecord(e: Engine, fields: Fields, run: string) returns (r: Mapped)
    requires IsUsable(e)
    ensures AllRuleWrites(e, e.rules, fields).Err? ==> r == Refused(AllRuleWrites(e, e.rules, fields).error)
    ensures AllRuleWrites(e, e.rules, fields).Ok? ==>
              (r.Mapped? <==> forall name :: !Lacks(e, Document(e, fields, run), name) && !Raises(e, name))
    ensures AllRuleWrites(e, e.rules, fields).Ok? && r.Refused? ==>
              r.fault.reason == "MAP_MISSING_REQUIRED" && Lacks(e, Document(e, fields, run), r.fault.detail)
    ensures r.Raised? ==> Raises(e, r.name)
    ensures r.Mapped? ==> r.doc.Valid() && fresh(r.doc.Repr) && r.doc.Contents() == Document(e, fields, run)
  {
    var assembled := AssembleDocument(e, fields, run);
    if assembled.Err? {
      return Refused(assembled.error);
    }
    var check := CheckRequired(e, assembled.value, Document(e, fields, run));
    match check {
      case Complete => return Mapped(assembled.value);
      case Lacking(name) => return Refused(Fault("MAP_MISSING_REQUIRED", name));
      case Unrooted(name) => return Raised(name);
    }
  }

  method AssembleDocument(e: Engine, fields: Fields, run: string) returns (r: Result<JsonObject, Fault>)
    requires IsUsable(e)
    ensures r.Err? ==> AllRuleWrites(e, e.rules, fields) == Err(r.error)
    ensures r.Ok? ==>
              && AllRuleWrites(e, e.rules, fields).Ok?
              && r.value.Valid() && fresh(r.value.Repr) && r.value.Contents() == Document(e, fields, run)
  {
    var doc := new JsonObject();
    var fault := ApplyRules(e, fields, doc);
    if fault.Some? {
      return Err(fault.value);
    }
    AddProvenance(e, fields, run, doc, AllRuleWrites(e, e.rules, fields).value);
    return Ok(doc);
  }

  lemma {:induction false} FaultEndsRecord(e: Engine, rules: seq<Rule>, i: nat, fields: Fields)
    requires i < |rules| && AllRuleWrites(e, rules[..i], fields).Ok? && RuleWrites(e, rules[i], fields).Err?
    ensures AllRuleWrites(e, rules, fields) == Err(RuleWrites(e, rules[i], fields).error)
    decreases |rules|
  {
    var n := |rules| - 1;
    if i < n {
      assert rules[..n][..i] == rules[..i];
      FaultEndsRecord(e, rules[..n], i, fields);
    }
  }
}
