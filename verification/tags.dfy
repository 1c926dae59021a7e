/**
 The custom-field key -> name map and the tag string that joins a virtual
 machine's custom values into `name=value;` pairs (main.go:140-143 and the
 tag loops of the snapshot and of the event handler).
 */
module Tags {
  import opened Inventory

  /** Definition `i` is the last one in `defs` that carries its key. */
  ghost predicate LastDefinition(defs: seq<FieldDef>, i: int)
    requires 0 <= i < |defs|
  {
    forall j :: i < j < |defs| ==> defs[j].key != defs[i].key
  }

  /**
   `fields` is the map built from `defs`: it holds exactly the keys that are
   defined, and each key is mapped to the name of its last definition.
   */
  ghost predicate IsFieldMap(defs: seq<FieldDef>, fields: map<int32, string>) {
    && fields.Keys == (set i | 0 <= i < |defs| :: defs[i].key)
    && forall i :: 0 <= i < |defs| && LastDefinition(defs, i) ==> fields[defs[i].key] == defs[i].name
  }

  /** Adding one more definition to the map built so far gives the map of the longer list. */
  lemma FieldMapExtend(defs: seq<FieldDef>, d: FieldDef, fields: map<int32, string>)
    requires IsFieldMap(defs, fields)
    ensures IsFieldMap(defs + [d], fields[d.key := d.name])
  {
    var all, updated := defs + [d], fields[d.key := d.name];
    assert all[|defs|] == d;
    forall i | 0 <= i < |all| && LastDefinition(all, i)
      ensures updated[all[i].key] == all[i].name
    {
      if i < |defs| {
        assert all[i] == defs[i] && d.key != defs[i].key;
        assert LastDefinition(defs, i) by {
          forall j | i < j < |defs| ensures defs[j].key != defs[i].key {
            assert all[j] == defs[j];
          }
        }
      }
    }
    var before, after := (set i | 0 <= i < |defs| :: defs[i].key), (set i | 0 <= i < |all| :: all[i].key);
    forall k ensures k in after <==> k in before + {d.key} {
      if k in after {
        var i :| 0 <= i < |all| && all[i].key == k;
        if i < |defs| { assert defs[i].key == k; }
      }
      if k in before {
        var i :| 0 <= i < |defs| && defs[i].key == k;
        assert all[i].key == k;
      }
    }
    assert after == before + {d.key};
  }

  /** Fills the field map one definition at a time; a later definition overwrites an earlier one. */
  method BuildFieldMap(defs: seq<FieldDef>) returns (fields: map<int32, string>)
    ensures IsFieldMap(defs, fields)
  {
    fields := map[];
    for n := 0 to |defs|
      invariant IsFieldMap(defs[..n], fields)
    {
      FieldMapExtend(defs[..n], defs[n], fields);
      assert defs[..n + 1] == defs[..n] + [defs[n]];
      fields := fields[defs[n].key := defs[n].name];
    }
    assert defs[..|defs|] == defs;
  }

  /** The index of the last definition of `key` in `defs`, or -1 when there is none. */
  function LastIndex(defs: seq<FieldDef>, key: int32): (i: int)
    ensures -1 <= i < |defs|
    ensures 0 <= i ==> defs[i].key == key && LastDefinition(defs, i)
    ensures i == -1 ==> forall j :: 0 <= j < |defs| ==> defs[j].key != key
  {
    if |defs| == 0 then -1
    else if defs[|defs| - 1].key == key then |defs| - 1
    else LastIndex(defs[..|defs| - 1], key)
  }

  /** The field map is fully determined by the definitions: two maps that both satisfy IsFieldMap are equal. */
  lemma FieldMapIsUnique(defs: seq<FieldDef>, f: map<int32, string>, g: map<int32, string>)
    requires IsFieldMap(defs, f) && IsFieldMap(defs, g)
    ensures f == g
  {
    forall k | k in f
      ensures f[k] == g[k]
    {
      var i := LastIndex(defs, k);
      assert i >= 0 by {
        var j :| 0 <= j < |defs| && defs[j].key == k;
      }
    }
  }

  /** The last definition of a key wins: with an earlier definition of the same key first in the list, the map holds the last one's name. */
  lemma LaterDefinitionWins(defs: seq<FieldDef>, fields: map<int32, string>, key: int32, first: string, second: string)
    requires IsFieldMap([FieldDef(key, first)] + defs + [FieldDef(key, second)], fields)
    ensures key in fields && fields[key] == second
  {
    var all := [FieldDef(key, first)] + defs + [FieldDef(key, second)];
    assert all[|all| - 1].key == key;
    assert LastDefinition(all, |all| - 1);
  }

  /** `fields[key]` in Go: the zero value "" for a key that the map does not hold. */
  function FieldName(fields: map<int32, string>, key: int32): string {
    if key in fields then fields[key] else ""
  }

  /** One `name=value` pair, without its terminating ';'. */
  function Pair(fields: map<int32, string>, cv: CustomValue): string {
    FieldName(fields, cv.key) + "=" + cv.value
  }

  /** One pair with its terminating ';'. */
  function PairText(fields: map<int32, string>, cv: CustomValue): string {
    Pair(fields, cv) + ";"
  }

  /** The tag column: every custom value in order, each as `name=value;`. */
  function TagString(fields: map<int32, string>, values: seq<CustomValue>): string {
    if values == [] then ""
    else TagString(fields, values[..|values| - 1]) + PairText(fields, values[|values| - 1])
  }

  /** The tag string is empty exactly when there are no custom values; otherwise every pair, the last included, ends with ';'. */
  lemma TagStringTerminated(fields: map<int32, string>, values: seq<CustomValue>)
    ensures TagString(fields, values) == "" <==> values == []
    ensures values != [] ==> TagString(fields, values)[|TagString(fields, values)| - 1] == ';'
  {
    if values != [] {
      var tags := TagString(fields, values);
      var pair := Pair(fields, values[|values| - 1]);
      assert tags == TagString(fields, values[..|values| - 1]) + (pair + ";");
      assert |tags| > 0 && tags[|tags| - 1] == ';';
    }
  }

  /** The tag loop: writes each pair and its ';' into a buffer, as the snapshot loop and the event handler do. */
  method FormatTags(fields: map<int32, string>, values: seq<CustomValue>) returns (tags: string)
    ensures tags == TagString(fields, values)
  {
    tags := "";
    if |values| > 0 {
      for n := 0 to |values|
        invariant tags == TagString(fields, values[..n])
      {
        assert values[..n + 1][..n] == values[..n];
        ConcatAssociative(tags, Pair(fields, values[n]), ";");
        tags := tags + Pair(fields, values[n]);
        tags := tags + ";";
      }
      assert values[..|values|] == values;
    }
  }

  /** The tag string of a concatenation is the concatenation of the tag strings. */
  lemma {:induction false} TagStringAppend(fields: map<int32, string>, a: seq<CustomValue>, b: seq<CustomValue>)
    ensures TagString(fields, a + b) == TagString(fields, a) + TagString(fields, b)
    decreases |b|
  {
    if b == [] {
      assert a + b == a;
    } else {
      var front, last := b[..|b| - 1], b[|b| - 1];
      assert (a + b)[..|a + b| - 1] == a + front;
      assert (a + b)[|a + b| - 1] == last;
      TagStringAppend(fields, a, front);
      ConcatAssociative(TagString(fields, a), TagString(fields, front), PairText(fields, last));
    }
  }

  /** A step the solver needs spelled out: string concatenation regroups freely. */
  lemma ConcatAssociative(x: string, y: string, z: string)
    ensures (x + y) + z == x + (y + z)
  {
  }

  /** Read from the front: the first custom value's pair and ';', then the rest in order. */
  lemma TagStringCons(fields: map<int32, string>, cv: CustomValue, rest: seq<CustomValue>)
    ensures TagString(fields, [cv] + rest) == Pair(fields, cv) + ";" + TagString(fields, rest)
  {
    TagStringAppend(fields, [cv], rest);
    assert [cv][..0] == [];
  }

  /** A custom value whose key has no definition is still emitted, with an empty name. */
  lemma UnknownFieldHasEmptyName(fields: map<int32, string>, cv: CustomValue, rest: seq<CustomValue>)
    requires cv.key !in fields
    ensures TagString(fields, [cv] + rest) == "=" + cv.value + ";" + TagString(fields, rest)
  {
    TagStringCons(fields, cv, rest);
  }

  /** The tag string depends on the order in which vCenter returns the custom values. */
  lemma TagStringDependsOnOrder()
    ensures var fields := map[1 := "env", 2 := "tier"];
            var env, tier := CustomValue(1, "prod"), CustomValue(2, "web");
            TagString(fields, [env, tier]) == "env=prod;tier=web;" &&
            TagString(fields, [tier, env]) == "tier=web;env=prod;"
  {
    var fields: map<int32, string> := map[1 := "env", 2 := "tier"];
    var env, tier := CustomValue(1, "prod"), CustomValue(2, "web");
    assert Pair(fields, env) == "env=prod";
    assert Pair(fields, tier) == "tier=web";
    assert [env, tier][..1] == [env] && [tier, env][..1] == [tier];
    assert [env][..0] == [] && [tier][..0] == [];
    assert TagString(fields, [env]) == "env=prod;";
    assert TagString(fields, [tier]) == "tier=web;";
  }
}
