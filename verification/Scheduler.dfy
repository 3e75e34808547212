/**
 * The order in which the Dataform actions run: a depth-first topological sort whose `visiting`,
 * `done` and `ordered` are shared by every level of the recursion. A dependency that is not itself
 * an action, a declaration, is skipped.
 */
module Scheduler {
  import opened Wrappers
  import opened Collections

  datatype Action = Action(name: string, dependencies: seq<string>, query: string)

  type Graph = map<string, Action>

  /** From an action to another action it depends on. */
  predicate Edge(g: Graph, a: string, b: string) {
    a in g && b in g && b in g[a].dependencies
  }

  predicate Walk(g: Graph, p: seq<string>) {
    && (forall i | 0 <= i < |p| :: p[i] in g)
    && (forall i | 0 <= i < |p| - 1 :: Edge(g, p[i], p[i + 1]))
  }

  predicate CycleThrough(g: Graph, p: seq<string>, name: string) {
    |p| >= 2 && Walk(g, p) && p[0] == name == p[|p| - 1]
  }

  ghost predicate OnCycle(g: Graph, name: string) {
    exists p :: CycleThrough(g, p, name)
  }

  predicate Mentions(ordered: seq<Action>, name: string) {
    exists i :: 0 <= i < |ordered| && ordered[i].name == name
  }

  /** Only actions of the graph, none twice, each after everything it depends on. */
  predicate InOrder(g: Graph, ordered: seq<Action>) {
    && (forall i | 0 <= i < |ordered| :: ordered[i].name in g && g[ordered[i].name] == ordered[i])
    && (forall i, j | 0 <= i < j < |ordered| :: ordered[i].name != ordered[j].name)
    && (forall i, b | 0 <= i < |ordered| && b in ordered[i].dependencies && b in g :: Mentions(ordered[..i], b))
  }

  ghost predicate IsTopologicalSort(g: Graph, ordered: seq<Action>) {
    InOrder(g, ordered) && |ordered| == |g| && forall name | name in g :: Mentions(ordered, name)
  }

  predicate IsNamed(g: Graph) {
    forall name | name in g :: g[name].name == name
  }

  // ---- an order leaves no room for a cycle ----------------------------------------------------

  /** Along a walk from an ordered action every action met is ordered, each strictly before the last. */
  lemma {:induction false} WalkGoesBack(g: Graph, ordered: seq<Action>, p: seq<string>, i: nat)
    requires InOrder(g, ordered) && Walk(g, p) && |p| >= 2
    requires i < |ordered| && ordered[i].name == p[0]
    ensures exists j :: 0 <= j < i && ordered[j].name == p[|p| - 1]
  {
    assert Edge(g, p[0], p[1]);
    assert Mentions(ordered[..i], p[1]);
    var j :| 0 <= j < i && ordered[..i][j].name == p[1];
    if |p| > 2 {
      var rest := p[1..];
      forall k | 0 <= k < |rest| - 1 ensures Edge(g, rest[k], rest[k + 1]) {
        assert rest[k] == p[k + 1] && Edge(g, p[k + 1], p[k + 1 + 1]);
      }
      WalkGoesBack(g, ordered, rest, j);
    } else {
      assert ordered[j].name == p[1];
    }
  }

  lemma {:induction false} SortedMeansNoCycle(g: Graph, ordered: seq<Action>, name: string)
    requires IsTopologicalSort(g, ordered) && name in g
    ensures !OnCycle(g, name)
  {
    if OnCycle(g, name) {
      var p :| CycleThrough(g, p, name);
      var i :| 0 <= i < |ordered| && ordered[i].name == name;
      WalkGoesBack(g, ordered, p, i);
      assert false;
    }
  }

  // ---- the sort -------------------------------------------------------------------------------

  class Sorter {
    const byName: Graph
    var visiting: set<string>
    var done: set<string>
    var ordered: seq<Action>

    constructor (byName: Graph)
      requires IsNamed(byName)
      ensures this.byName == byName && Valid() && visiting == {} && ordered == []
    {
      this.byName := byName;
      visiting, done, ordered := {}, {}, [];
    }

    ghost predicate Valid()
      reads this
    {
      && IsNamed(byName) && InOrder(byName, ordered)
      && visiting <= byName.Keys && done <= byName.Keys && visiting !! done
      && (forall name :: name in done <==> Mentions(ordered, name))
    }

    /** The names being visited, outermost first, each depending on the next. */
    ghost predicate IsStack(stack: seq<string>)
      reads this
    {
      Walk(byName, stack) && Elements(stack) == visiting
    }

    /**
     * Returns the name a cycle was noticed at, or nothing: then `name` is done and whatever was
     * being visited still is.
     */
    method Visit(name: string, ghost stack: seq<string>) returns (cycle: Option<string>)
      requires Valid() && name in byName && IsStack(stack)
      requires stack != [] ==> Edge(byName, stack[|stack| - 1], name)
      modifies this
      decreases byName.Keys - visiting
      ensures cycle.None? ==> Valid() && visiting == old(visiting) && old(done) <= done && name in done
      ensures cycle.Some? ==> cycle.value in byName && OnCycle(byName, cycle.value)
    {
      if name in done {
        return None;
      }
      if name in visiting {
        CycleFound(byName, stack, name);
        return Some(name);
      }
      ghost var entered := visiting;
      visiting := visiting + {name};
      ElementsNext(stack, name);
      var deps := byName[name].dependencies;
      for i := 0 to |deps|
        invariant Valid() && visiting == entered + {name} && name !in entered
        invariant old(done) <= done
        invariant forall j | 0 <= j < i && deps[j] in byName :: deps[j] in done
      {
        if deps[i] in byName {
          assert Edge(byName, name, deps[i]);
          cycle := Visit(deps[i], stack + [name]);
          if cycle.Some? {
            return;
          }
        }
      }
      visiting := visiting - {name};
      AppendKeepsOrder(byName, ordered, name);
      done := done + {name};
      ordered := ordered + [byName[name]];
      return None;
    }
  }

  lemma {:induction false} CycleFound(g: Graph, stack: seq<string>, name: string)
    requires Walk(g, stack) && name in stack && Edge(g, stack[|stack| - 1], name)
    ensures OnCycle(g, name)
  {
    var i :| 0 <= i < |stack| && stack[i] == name;
    var p := stack[i..] + [name];
    forall k | 0 <= k < |p| - 1 ensures Edge(g, p[k], p[k + 1]) {
      if k < |p| - 2 {
        assert Edge(g, stack[i + k], stack[i + k + 1]);
      }
    }
    assert CycleThrough(g, p, name);
  }

  lemma {:induction false} AppendKeepsOrder(g: Graph, ordered: seq<Action>, name: string)
    requires InOrder(g, ordered) && IsNamed(g) && name in g && !Mentions(ordered, name)
    requires forall b | b in g[name].dependencies && b in g :: Mentions(ordered, b)
    ensures InOrder(g, ordered + [g[name]])
    ensures forall b :: Mentions(ordered + [g[name]], b) <==> Mentions(ordered, b) || b == name
  {
    var after := ordered + [g[name]];
    forall b ensures Mentions(after, b) <==> Mentions(ordered, b) || b == name {
      if Mentions(ordered, b) {
        var i :| 0 <= i < |ordered| && ordered[i].name == b;
        assert after[i].name == b;
      }
      if b == name {
        assert after[|ordered|].name == b;
      }
    }
    forall i, b | 0 <= i < |after| && b in after[i].dependencies && b in g ensures Mentions(after[..i], b) {
      if i < |ordered| {
        assert after[..i] == ordered[..i];
      } else {
        assert after[..i] == ordered;
      }
    }
  }

  // ---- order_actions --------------------------------------------------------------------------

  /** The dict of actions: a later action with the same name replaces an earlier one. */
  function ByName(tables: seq<Action>): (g: Graph)
    ensures IsNamed(g)
    ensures forall name :: name in g <==> exists i :: 0 <= i < |tables| && tables[i].name == name
  {
    if tables == [] then map[]
    else
      var last := tables[|tables| - 1];
      assert forall i | 0 <= i < |tables| - 1 :: tables[..|tables| - 1][i] == tables[i];
      ByName(tables[..|tables| - 1])[last.name := last]
  }

  /** The action is listed, and none of its name is listed after it. */
  predicate IsCurrent(tables: seq<Action>, a: Action) {
    exists i :: 0 <= i < |tables| && tables[i] == a && forall j | i < j < |tables| :: tables[j].name != a.name
  }

  lemma {:induction false} CurrentNext(tables: seq<Action>, a: Action)
    requires tables != []
    ensures var n := |tables| - 1;
            IsCurrent(tables, a) <==> a == tables[n] || (a.name != tables[n].name && IsCurrent(tables[..n], a))
  {
    var n := |tables| - 1;
    if IsCurrent(tables, a) && a != tables[n] {
      var i :| 0 <= i < |tables| && tables[i] == a && forall j | i < j < |tables| :: tables[j].name != a.name;
      assert tables[..n][i] == a && tables[n].name != a.name;
    }
    if a.name != tables[n].name && IsCurrent(tables[..n], a) {
      var i :| 0 <= i < n && tables[..n][i] == a && forall j | i < j < n :: tables[..n][j].name != a.name;
      assert tables[i] == a && forall j | i < j < n :: tables[j] == tables[..n][j];
    }
  }

  /** Each name stands for the action last listed under it, as it is listed. */
  lemma {:induction false} CurrentExactly(tables: seq<Action>, a: Action)
    ensures a.name in ByName(tables) && ByName(tables)[a.name] == a <==> IsCurrent(tables, a)
  {
    if tables != [] {
      CurrentExactly(tables[..|tables| - 1], a);
      CurrentNext(tables, a);
    }
  }

  /** The current action of the first name has the second among its dependencies. */
  ghost predicate Needs(tables: seq<Action>, a: string, b: string) {
    exists action :: IsCurrent(tables, action) && action.name == a && b in action.dependencies
  }

  /** Round and back to the name: each name listed, each needing the next. */
  ghost predicate IsRound(tables: seq<Action>, p: seq<string>, name: string) {
    && |p| >= 2 && p[0] == name == p[|p| - 1]
    && forall k | 0 <= k < |p| - 1 :: Needs(tables, p[k], p[k + 1])
  }

  lemma {:induction false} NeedsIsEdge(tables: seq<Action>, a: string, b: string)
    ensures Edge(ByName(tables), a, b) <==> Needs(tables, a, b) && b in ByName(tables)
  {
    if a in ByName(tables) {
      CurrentExactly(tables, ByName(tables)[a]);
    }
    forall action | IsCurrent(tables, action) && action.name == a
      ensures a in ByName(tables) && ByName(tables)[a] == action
    {
      CurrentExactly(tables, action);
    }
  }

  lemma {:induction false} RoundIsCycle(tables: seq<Action>, p: seq<string>, name: string)
    ensures CycleThrough(ByName(tables), p, name) <==> IsRound(tables, p, name)
  {
    if |p| >= 2 && p[0] == name == p[|p| - 1] {
      var g := ByName(tables);
      forall k | 0 <= k < |p| - 1 ensures Edge(g, p[k], p[k + 1]) <==> Needs(tables, p[k], p[k + 1]) && p[k + 1] in g {
        NeedsIsEdge(tables, p[k], p[k + 1]);
      }
      if IsRound(tables, p, name) {
        forall k | 0 <= k < |p| ensures p[k] in g {
          var m := if k == |p| - 1 then 0 else k;
          assert Needs(tables, p[m], p[m + 1]) && p[m] == p[k];
        }
      }
    }
  }

  lemma {:induction false} CyclesAreRounds(tables: seq<Action>, name: string)
    ensures OnCycle(ByName(tables), name) <==> exists p :: IsRound(tables, p, name)
  {
    forall p ensures CycleThrough(ByName(tables), p, name) <==> IsRound(tables, p, name) {
      RoundIsCycle(tables, p, name);
    }
  }

  /** Said of the list itself: what runs are the current actions, each once, after all the listed ones they need. */
  predicate IsOrderOf(tables: seq<Action>, ordered: seq<Action>) {
    && (forall k | 0 <= k < |ordered| :: IsCurrent(tables, ordered[k]))
    && (forall i | 0 <= i < |tables| :: exists k :: 0 <= k < |ordered| && ordered[k].name == tables[i].name)
    && (forall k, m | 0 <= k < m < |ordered| :: ordered[k].name != ordered[m].name)
    && forall k, i | 0 <= k < |ordered| && 0 <= i < |tables| && tables[i].name in ordered[k].dependencies ::
         exists m :: 0 <= m < k && ordered[m].name == tables[i].name
  }

  lemma {:induction false} SortedIsOrderOf(tables: seq<Action>, ordered: seq<Action>)
    requires IsTopologicalSort(ByName(tables), ordered)
    ensures IsOrderOf(tables, ordered)
  {
    forall k | 0 <= k < |ordered| ensures IsCurrent(tables, ordered[k]) {
      CurrentExactly(tables, ordered[k]);
    }
    forall i | 0 <= i < |tables| ensures exists k :: 0 <= k < |ordered| && ordered[k].name == tables[i].name {
      assert Mentions(ordered, tables[i].name);
    }
    forall k, i | 0 <= k < |ordered| && 0 <= i < |tables| && tables[i].name in ordered[k].dependencies
      ensures exists m :: 0 <= m < k && ordered[m].name == tables[i].name
    {
      RunsEarlier(tables, ordered, k, i);
    }
  }

  lemma {:induction false} RunsEarlier(tables: seq<Action>, ordered: seq<Action>, k: nat, i: nat)
    requires InOrder(ByName(tables), ordered)
    requires k < |ordered| && i < |tables| && tables[i].name in ordered[k].dependencies
    ensures exists m :: 0 <= m < k && ordered[m].name == tables[i].name
  {
    var name := tables[i].name;
    assert name in ByName(tables);
    assert Mentions(ordered[..k], name);
    var m :| 0 <= m < k && ordered[..k][m].name == tables[i].name;
    assert ordered[m].name == tables[i].name;
  }

  /**
   * Sorts exactly when no listed action comes round to itself along the dependencies listed;
   * otherwise names one that does.
   */
  method OrderActions(tables: seq<Action>) returns (r: Result<seq<Action>, string>)
    ensures r.Ok? ==> IsTopologicalSort(ByName(tables), r.value) && IsOrderOf(tables, r.value)
    ensures r.Err? ==> exists p :: IsRound(tables, p, r.error)
    ensures r.Ok? <==> forall name, p :: !IsRound(tables, p, name)
  {
    var byName: Graph := map[];
    var names: seq<string> := [];
    for i := 0 to |tables|
      invariant byName == ByName(tables[..i]) && Distinct(names) && Elements(names) == byName.Keys
    {
      assert tables[..i + 1][..i] == tables[..i];
      if tables[i].name !in byName {
        ElementsNext(names, tables[i].name);
        names := names + [tables[i].name];
      }
      byName := byName[tables[i].name := tables[i]];
    }
    assert tables[..|tables|] == tables;

    var sorter := new Sorter(byName);
    for i := 0 to |names|
      invariant sorter.Valid() && sorter.byName == byName && sorter.visiting == {}
      invariant forall j | 0 <= j < i :: names[j] in sorter.done
    {
      assert names[i] in Elements(names);
      var cycle := sorter.Visit(names[i], []);
      if cycle.Some? {
        CyclesAreRounds(tables, cycle.value);
        return Err(cycle.value);
      }
    }
    forall name | name in byName ensures Mentions(sorter.ordered, name) {
      assert name in Elements(names);
    }
    EveryNameOnce(byName, sorter.ordered);
    forall name, p ensures !IsRound(tables, p, name) {
      RoundIsCycle(tables, p, name);
      if name in byName {
        SortedMeansNoCycle(byName, sorter.ordered, name);
      }
    }
    SortedIsOrderOf(tables, sorter.ordered);
    return Ok(sorter.ordered);
  }

  lemma {:induction false} EveryNameOnce(g: Graph, ordered: seq<Action>)
    requires InOrder(g, ordered) && forall name | name in g :: Mentions(ordered, name)
    ensures |ordered| == |g|
  {
    var names := seq(|ordered|, i requires 0 <= i < |ordered| => ordered[i].name);
    assert Distinct(names);
    DistinctExactly(names);
    forall name ensures name in Elements(names) <==> name in g.Keys {
      if name in g {
        var i :| 0 <= i < |ordered| && ordered[i].name == name;
        assert names[i] == name;
      }
    }
    assert Elements(names) == g.Keys;
  }
}
