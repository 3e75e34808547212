/**
 * Documents as they are in memory: dictionaries holding dictionaries, written in place. This is
 * where writing at a path is seen to change the one document and nothing beside it.
 */
module JsonObjects {
  import opened Wrappers
  import opened JsonPath

  /** A value in a dictionary: another dictionary, or anything that is not one. */
  datatype Value = Plain(json: Json) | Dict(dict: JsonObject)

  class JsonObject {
    var fields: map<string, Value>
    ghost var Repr: set<JsonObject>

    constructor ()
      ensures Valid() && fresh(Repr) && fields == map[] && Contents() == map[]
    {
      fields := map[];
      Repr := {this};
    }

    predicate IsDict(key: string)
      reads this
    {
      key in fields && fields[key].Dict?
    }

    /** A tree: no dictionary is reachable along two ways. */
    ghost predicate Valid()
      reads this, Repr
      decreases Repr
    {
      && this in Repr
      && (forall k | k in fields && fields[k].Plain? :: !fields[k].json.Object?)
      && (forall k | IsDict(k) ::
            && fields[k].dict in Repr && fields[k].dict.Repr <= Repr && this !in fields[k].dict.Repr
            && fields[k].dict.Valid())
      && (forall k, l | IsDict(k) && IsDict(l) && k != l :: fields[k].dict.Repr !! fields[l].dict.Repr)
    }

    ghost function Shown(key: string): Json
      requires Valid() && key in fields
      reads this, Repr
      decreases Repr, 0
    {
      if IsDict(key) then Object(fields[key].dict.Contents()) else fields[key].json
    }

    ghost function Contents(): Fields
      requires Valid()
      reads this, Repr
      decreases Repr, 1
    {
      map k | k in fields :: Shown(k)
    }

    /** `value` is `json`, in dictionaries of its own that make up `foot`. */
    ghost predicate Stands(value: Value, json: Json, foot: set<JsonObject>)
      reads if value.Dict? then {value.dict} + value.dict.Repr else {}
    {
      match value
      case Plain(j) => !j.Object? && json == j && foot == {}
      case Dict(d) => d.Valid() && json == Object(d.Contents()) && foot == d.Repr
    }

    /** `cur[key] = value` for a value sharing nothing with this dictionary. */
    method Assign(key: string, value: Value, ghost json: Json, ghost foot: set<JsonObject>)
      requires Valid() && Stands(value, json, foot) && foot !! Repr
      modifies this
      ensures Valid() && Repr == old(Repr) + foot
      ensures fields == old(fields)[key := value]
      ensures Contents() == old(Contents())[key := json]
    {
      fields := fields[key := value];
      Repr := Repr + foot;
      assert Valid();
      OnlyKeyChanged(key, value, json, foot);
    }

    twostate lemma {:induction false} OnlyKeyChanged(new key: string, new value: Value, new json: Json,
        new foot: set<JsonObject>)
      requires old(Valid()) && Valid() && fields == old(fields)[key := value] && Stands(value, json, foot)
      requires forall o: JsonObject | o in old(Repr) && o != this :: unchanged(o)
      ensures Contents() == old(Contents())[key := json]
    {
      forall k | k in fields && k != key ensures Shown(k) == old(Shown(k)) {
        assert IsDict(k) <==> old(IsDict(k));
      }
      assert Shown(key) == json;
    }

    /** `cur.get(part)`, or a new dictionary put there when that is not one. */
    method Descend(part: string)
      requires Valid()
      modifies this
      ensures Valid() && fresh(Repr - old(Repr)) && old(Repr) <= Repr
      ensures IsDict(part) && Contents() == old(Contents())[part := Object(Child(old(Contents()), part))]
    {
      if !IsDict(part) {
        var nxt := new JsonObject();
        Assign(part, Dict(nxt), Object(map[]), nxt.Repr);
      }
    }

    /** The tree around one child that changed within its own footprint, or grew by new dictionaries. */
    twostate lemma {:induction false} ChildChanged(part: string, new grown: set<JsonObject>)
      requires old(Valid()) && old(IsDict(part)) && fields == old(fields)
      requires var c := fields[part].dict;
               && c.Valid() && c.Repr <= old(c.Repr) + grown && grown !! old(Repr)
               && Repr == old(Repr) + c.Repr
               && forall o: JsonObject | o in old(Repr) && o !in old(c.Repr) && o != this :: unchanged(o)
      ensures Valid()
      ensures Contents() == old(Contents())[part := Object(fields[part].dict.Contents())]
    {
      forall k | IsDict(k) && k != part
        ensures fields[k].dict.Valid() && fields[k].dict.Repr == old(fields[k].dict.Repr)
        ensures fields[k].dict.Contents() == old(fields[k].dict.Contents())
      {
        assert old(IsDict(k));
      }
      forall k | k in fields && k != part ensures Shown(k) == old(Shown(k)) {
        assert IsDict(k) <==> old(IsDict(k));
      }
    }

    /**
     * `set_path`, the step of its loop to the next dictionary being the recursive call. The value
     * must not share a dictionary with the document; it becomes part of it.
     */
    method SetPath(parts: seq<string>, value: Value, ghost json: Json, ghost foot: set<JsonObject>)
      requires Valid() && parts != []
      requires Stands(value, json, foot) && foot !! Repr
      modifies Repr
      decreases |parts|, 1
      ensures Valid() && old(Repr) <= Repr && fresh(Repr - old(Repr) - foot)
      ensures Contents() == Put(old(Contents()), parts, json)
    {
      if |parts| == 1 {
        Assign(parts[0], value, json, foot);
        return;
      }
      Descend(parts[0]);
      SetBelow(parts, value, json, foot);
    }

    /** The rest of the way, from the dictionary now standing at the first step. */
    method SetBelow(parts: seq<string>, value: Value, ghost json: Json, ghost foot: set<JsonObject>)
      requires Valid() && |parts| > 1 && IsDict(parts[0])
      requires Stands(value, json, foot) && foot !! Repr
      modifies Repr
      decreases |parts|, 0
      ensures Valid() && old(Repr) <= Repr && fresh(Repr - old(Repr) - foot)
      ensures Contents() == old(Contents())[parts[0] := Object(Put(Child(old(Contents()), parts[0]), parts[1..], json))]
    {
      var nxt := fields[parts[0]].dict;
      assert nxt.Repr <= Repr && this !in nxt.Repr && nxt.Valid();
      ghost var inner := nxt.Contents();
      assert Shown(parts[0]) == Object(inner) && inner == Child(Contents(), parts[0]);
      nxt.SetPath(parts[1..], value, json, foot);
      ghost var below := nxt.Contents();
      assert below == Put(inner, parts[1..], json);
      Repr := Repr + nxt.Repr;
      ChildChanged(parts[0], nxt.Repr - old(nxt.Repr));
    }

    /** Whether something stands at the path: `resolve_path`, then not missing, not null, not the empty string. */
    method IsFilled(parts: seq<string>) returns (filled: bool)
      requires Valid()
      decreases |parts|
      ensures filled <==> Filled(Get(Object(Contents()), parts))
    {
      if parts == [] {
        return true;
      }
      if parts[0] !in fields {
        return false;
      }
      assert Contents()[parts[0]] == Shown(parts[0]);
      if IsDict(parts[0]) {
        filled := fields[parts[0]].dict.IsFilled(parts[1..]);
      } else {
        var json := fields[parts[0]].json;
        filled := |parts| == 1 && json != Null && json != Str("");
      }
    }
  }

  predicate Filled(found: Option<Json>) {
    found.Some? && found.value != Null && found.value != Str("")
  }

  /** A copy of a value in dictionaries of its own. */
  method Copy(json: Json) returns (value: Value, ghost foot: set<JsonObject>)
    decreases json
    ensures fresh(foot)
    ensures (match value case Plain(_) => foot == {} case Dict(d) => fresh(d) && foot == d.Repr)
    ensures value.Dict? ==> value.dict.Valid() && json == Object(value.dict.Contents())
    ensures value.Plain? ==> json == value.json && !json.Object?
  {
    if !json.Object? {
      return Plain(json), {};
    }
    var dict := new JsonObject();
    var left := json.fields.Keys;
    while left != {}
      invariant left <= json.fields.Keys
      invariant dict.Valid() && fresh(dict) && fresh(dict.Repr)
      invariant dict.Contents() == map k | k in json.fields && k !in left :: json.fields[k]
    {
      var key :| key in left;
      ghost var sub;
      var item;
      item, sub := Copy(json.fields[key]);
      dict.Assign(key, item, json.fields[key], sub);
      left := left - {key};
    }
    assert dict.Contents() == json.fields;
    return Dict(dict), dict.Repr;
  }
}
