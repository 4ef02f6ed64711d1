/** The generated save and load code in the form it runs: a visited set, a list
    of collected objects, a registry and the arenas, all updated in place. Each
    method is tied to the functions the theorems of `RoundTrip` are about. */
module Serializer {
  import opened Common
  import opened JsonTree
  import opened Ids
  import opened Schemas
  import opened Saving
  import opened Loading
  import SavedForm
  import Documents
  import DocumentLoading
  import RoundTrip

  class Saver {
    const schema: Schema
    const resource: Resource
    var ids: map<Ref, string>
    var visited: set<string>

    ghost predicate Valid()
      reads this
    {
      && ValidSchema(schema) && WellTyped(schema, resource)
      && ids.Keys == AllRefs(resource)
      && forall x :: x in ids ==> ids[x] == IdOf(schema, x)
    }

    /** The ids visited so far are those of `refs`. */
    ghost predicate HasVisited(refs: set<Ref>)
      reads this
    {
      && refs <= AllRefs(resource) && |resource| <= |schema.classes|
      && forall id :: id in visited <==> exists x :: x in refs && IdOf(schema, x) == id
    }

    constructor (schema: Schema, resource: Resource)
      requires ValidSchema(schema) && WellTyped(schema, resource)
      ensures this.schema == schema && this.resource == resource
      ensures Valid() && HasVisited({})
    {
      this.schema := schema;
      this.resource := resource;
      ids := map[];
      visited := {};
      new;
      AssignInstanceIds();
    }

    /** Numbers every arena in insertion order. */
    method AssignInstanceIds()
      requires ValidSchema(schema) && WellTyped(schema, resource) && ids == map[]
      modifies this`ids
      ensures Valid()
    {
      for c := 0 to |resource|
        invariant forall x :: x in ids <==> Schemas.Valid(resource, x) && x.cls < c
        invariant forall x :: x in ids ==> ids[x] == IdOf(schema, x)
      {
        for i := 0 to |resource[c]|
          invariant forall x :: x in ids <==> Schemas.Valid(resource, x) && (x.cls < c || (x.cls == c && x.idx < i))
          invariant forall x :: x in ids ==> ids[x] == IdOf(schema, x)
        {
          ids := ids[Ref(c, i) := InstanceId(schema.classes[c].single, i)];
        }
      }
      forall x ensures x in ids.Keys <==> x in AllRefs(resource) {
      }
    }

    /** Whether a child was written already, asked by its id. */
    method WasVisited(x: Ref, ghost refs: set<Ref>) returns (seen: bool)
      requires Valid() && HasVisited(refs) && Schemas.Valid(resource, x)
      ensures seen <==> x in refs
    {
      assert x in AllRefs(resource);
      seen := ids[x] in visited;
      if seen {
        ghost var y :| y in refs && IdOf(schema, y) == ids[x];
        assert y in AllRefs(resource);
        IdOfInjective(schema, resource, x, y);
      }
    }

    method MarkVisited(x: Ref, ghost refs: set<Ref>)
      requires Valid() && HasVisited(refs) && Schemas.Valid(resource, x)
      modifies this`visited
      ensures Valid() && HasVisited(refs + {x})
    {
      assert x in AllRefs(resource);
      visited := visited + {ids[x]};
    }

    method ObjectToJson(x: Ref, ghost before: set<Ref>) returns (j: Json, ghost after: set<Ref>)
      requires Valid() && HasVisited(before) && Schemas.Valid(resource, x) && x !in before
      modifies this`visited
      ensures (j, after) == SaveObject(schema, resource, x, before)
      ensures Valid() && HasVisited(after)
      decreases AllRefs(resource) - before, 0, 0
    {
      assert x in AllRefs(resource);
      MarkVisited(x, before);
      var header := map[KEY_TYPE := Str(schema.classes[x.cls].name), KEY_ID := Str(ids[x])];
      var members;
      members, after := FeaturesToJson(x, header, before + {x});
      j := Obj(members);
    }

    method FeaturesToJson(x: Ref, header: map<string, Json>, ghost before: set<Ref>)
      returns (members: map<string, Json>, ghost after: set<Ref>)
      requires Valid() && HasVisited(before) && Schemas.Valid(resource, x)
      modifies this`visited
      ensures (members, after) == SaveFeatures(schema, resource, x, 0, header, before)
      ensures Valid() && HasVisited(after)
      decreases AllRefs(resource) - before, 1, 1
    {
      hide HasVisited, SavedForm.FeatureSaved, Put, SaveFeatures;
      members, after := header, before;
      var features := schema.classes[x.cls].features;
      ghost var goal := SaveFeatures(schema, resource, x, 0, header, before);
      for f := 0 to |features|
        invariant Valid() && HasVisited(after) && before <= after
        invariant goal == SaveFeatures(schema, resource, x, f, members, after)
      {
        ghost var v := after;
        var values;
        values, after := FeatureToJson(x, f, v);
        assert goal == SaveFeatures(schema, resource, x, f + 1,
                                    if IsSaved(features[f]) then Put(members, features[f], values) else members, after) by {
          SavedForm.SaveFeaturesStep(schema, resource, x, f, members, v, values, after);
        }
        members := if IsSaved(features[f]) then Put(members, features[f], values) else members;
      }
      SavedForm.SaveFeaturesEnd(schema, resource, x, members, after);
    }

    /** The values one feature is written as; containments may write objects inline. */
    method FeatureToJson(x: Ref, f: nat, ghost before: set<Ref>) returns (values: seq<Json>, ghost after: set<Ref>)
      requires Valid() && HasVisited(before) && Schemas.Valid(resource, x) && f < |schema.classes[x.cls].features|
      modifies this`visited
      ensures SavedForm.FeatureSaved(schema, resource, x, f, before, values, after)
      ensures Valid() && HasVisited(after) && before <= after
      decreases AllRefs(resource) - before, 1, 0
    {
      var feature := schema.classes[x.cls].features[f];
      var slot := resource[x.cls][x.idx][f];
      assert ValidFeature(schema, feature) && SlotFits(resource, feature, slot);
      values, after := [], before;
      if !feature.derived {
        match feature.kind
        case Attribute => values := SaveScalars(slot.values);
        case CrossReference => values := RefObjects(schema, feature.target, slot.keys);
        case Containment => values, after := ChildrenToJson(feature.target, slot.keys, before);
        case Container =>
      }
    }

    /** A contained object: a link if it was written already, else inline. */
    method ChildToJson(x: Ref, ghost before: set<Ref>) returns (item: Json, ghost after: set<Ref>)
      requires Valid() && HasVisited(before) && Schemas.Valid(resource, x)
      modifies this`visited
      ensures (item, after) == SavedForm.SaveChild(schema, resource, x, before)
      ensures Valid() && HasVisited(after)
      decreases AllRefs(resource) - before, 0, 1
    {
      assert x in AllRefs(resource);
      item, after := RefObject(ids[x]), before;
      var seen := WasVisited(x, before);
      if !seen {
        item, after := ObjectToJson(x, before);
      }
    }

    method ChildrenToJson(t: nat, keys: seq<nat>, ghost before: set<Ref>) returns (items: seq<Json>, ghost after: set<Ref>)
      requires Valid() && HasVisited(before) && t < |schema.classes|
      requires forall k :: 0 <= k < |keys| ==> Schemas.Valid(resource, Ref(t, keys[k]))
      modifies this`visited
      ensures (items, after) == SaveChildren(schema, resource, t, keys, before)
      ensures Valid() && HasVisited(after) && before <= after
      decreases AllRefs(resource) - before, 0, |keys| + 2
    {
      hide HasVisited, SavedForm.SaveChild, SaveChildren;
      items, after := [], before;
      assert keys[0..] == keys;
      ghost var (goal, end) := SaveChildren(schema, resource, t, keys, before);
      for k := 0 to |keys|
        invariant Valid() && HasVisited(after) && before <= after
        invariant goal == items + SaveChildren(schema, resource, t, keys[k..], after).0
        invariant end == SaveChildren(schema, resource, t, keys[k..], after).1
      {
        SavedForm.SaveChildrenStep(schema, resource, t, keys, k, after);
        var item;
        item, after := ChildToJson(Ref(t, keys[k]), after);
        ghost var rest := SaveChildren(schema, resource, t, keys[k + 1..], after).0;
        assert items + ([item] + rest) == items + [item] + rest;
        items := items + [item];
      }
      SavedForm.SaveChildrenEnd(schema, resource, t, keys, after);
      assert items == goal;
    }

    /** The objects of one class that are not inline already. */
    method ClassToJson(c: nat, ghost before: set<Ref>) returns (objects: seq<Json>, ghost after: set<Ref>)
      requires Valid() && HasVisited(before) && c < |resource|
      modifies this`visited
      ensures Valid() && HasVisited(after)
      ensures SaveRoots(schema, resource, c, 0, before).0 == objects + SaveRoots(schema, resource, c + 1, 0, after).0
    {
      hide HasVisited, SaveObject;
      objects, after := [], before;
      for i := 0 to |resource[c]|
        invariant Valid() && HasVisited(after)
        invariant SaveRoots(schema, resource, c, 0, before).0 == objects + SaveRoots(schema, resource, c, i, after).0
      {
        var seen := WasVisited(Ref(c, i), after);
        if !seen {
          var item;
          item, after := ObjectToJson(Ref(c, i), after);
          objects := objects + [item];
        }
      }
    }

    method ToInstanceJson() returns (j: Json)
      requires Valid() && HasVisited({})
      modifies this`visited
      ensures j == SaveDocument(schema, resource)
    {
      var objects := [];
      ghost var after := {};
      for c := 0 to |resource|
        invariant Valid() && HasVisited(after)
        invariant SaveRoots(schema, resource, 0, 0, {}).0 == objects + SaveRoots(schema, resource, c, 0, after).0
      {
        var ofClass;
        ofClass, after := ClassToJson(c, after);
        objects := objects + ofClass;
      }
      assert objects == SaveRoots(schema, resource, 0, 0, {}).0;
      j := Obj(map[
        KEY_TYPE := Str(INSTANCE_TYPE),
        "formatVersion" := Num(FORMAT_VERSION),
        "model" := Str(schema.model),
        "objects" := Arr(objects)]);
    }
  }

  class Loader {
    const schema: Schema
    const ord: set<string> -> seq<string>
    var collected: seq<Json>
    var registry: Registry
    var resource: Resource

    ghost predicate Valid()
      reads this
    {
      ValidSchema(schema) && KeyOrder(ord) && Tables(schema, registry, resource)
    }

    constructor (schema: Schema, ord: set<string> -> seq<string>)
      requires ValidSchema(schema) && KeyOrder(ord)
      ensures Valid() && this.schema == schema && this.ord == ord
      ensures collected == [] && registry == EmptyRegistry(schema) && resource == EmptyResource(schema)
    {
      this.schema := schema;
      this.ord := ord;
      collected := [];
      registry := EmptyRegistry(schema);
      resource := EmptyResource(schema);
    }

    /** Appends an object and everything embedded in it. */
    method Collect(c: nat, j: Json)
      requires ValidSchema(schema) && c < |schema.classes|
      modifies this`collected
      ensures collected == old(collected) + CollectObject(schema, c, j)
      decreases j, 1
    {
      hide CollectMember;
      collected := collected + [j];
      var features := schema.classes[c].features;
      for f := 0 to |features|
        invariant collected + CollectFeatures(schema, c, f, j) == old(collected) + CollectObject(schema, c, j)
      {
        assert ValidFeature(schema, features[f]);
        CollectFeature(features[f], j);
      }
    }

    /** Descends into a containment; entries without a `$type` are links. */
    method CollectFeature(feature: Feature, j: Json)
      requires ValidSchema(schema) && ValidFeature(schema, feature)
      modifies this`collected
      ensures collected == old(collected) + CollectMember(schema, feature, j)
      decreases j, 0
    {
      hide CollectItems, CollectObject;
      if feature.kind.Containment? {
        var member := Get(j, feature.name);
        if member.Some? {
          if feature.many && member.value.Arr? {
            CollectArray(feature.target, member.value.items);
          } else if !feature.many && Get(member.value, KEY_TYPE).Some? {
            Collect(feature.target, member.value);
          }
        }
      }
    }

    method CollectArray(t: nat, items: seq<Json>)
      requires ValidSchema(schema) && t < |schema.classes|
      modifies this`collected
      ensures collected == old(collected) + CollectItems(schema, t, items)
      decreases items
    {
      for k := 0 to |items|
        invariant collected + CollectItems(schema, t, items[k..]) == old(collected) + CollectItems(schema, t, items)
      {
        assert items[k..][1..] == items[k + 1..];
        if Get(items[k], KEY_TYPE).Some? {
          Collect(t, items[k]);
        }
      }
    }

    /** Registers the collected objects in order; the first error stops it. */
    method RegisterCollected() returns (failure: Option<LoadError>)
      requires Valid()
      modifies this`registry, this`resource
      ensures Valid()
      ensures match failure
              case None => RegisterAll(schema, collected, old(registry), old(resource)) == Ok((registry, resource))
              case Some(e) => RegisterAll(schema, collected, old(registry), old(resource)) == Err(e)
    {
      for k := 0 to |collected|
        invariant Valid()
        invariant RegisterAll(schema, collected[k..], registry, resource)
               == RegisterAll(schema, collected, old(registry), old(resource))
      {
        assert collected[k..][1..] == collected[k + 1..];
        match RegisterObject(schema, collected[k], registry, resource)
        case Err(e) => return Some(e);
        case Ok((reg, st)) => registry, resource := reg, st;
      }
      failure := None;
    }

    method FillCollected() returns (failure: Option<LoadError>)
      requires Valid()
      modifies this`resource
      ensures match failure
              case None => FillAll(schema, collected, registry, old(resource), ord) == Ok(resource)
              case Some(e) => FillAll(schema, collected, registry, old(resource), ord) == Err(e)
    {
      for k := 0 to |collected|
        invariant FillAll(schema, collected[k..], registry, resource, ord)
               == FillAll(schema, collected, registry, old(resource), ord)
      {
        assert collected[k..][1..] == collected[k + 1..];
        failure := Fill(collected[k]);
        if failure.Some? {
          return;
        }
      }
      failure := None;
    }

    /** Assigns the members of one object, in the order the document is walked. */
    method Fill(j: Json) returns (failure: Option<LoadError>)
      requires ValidSchema(schema) && KeyOrder(ord) && |registry| == |schema.classes|
      modifies this`resource
      ensures match failure
              case None => FillObject(schema, j, registry, old(resource), ord) == Ok(resource)
              case Some(e) => FillObject(schema, j, registry, old(resource), ord) == Err(e)
    {
      match ClassOf(schema, j)
      case Err(e) => return Some(e);
      case Ok(c) =>
        var id := GetStr(j, KEY_ID);
        if id.None? {
          return Some(MissingId);
        }
        if id.value !in registry[c] {
          return Some(NeverRegistered);
        }
        var i, keys := registry[c][id.value], ord(j.members.Keys);
        for k := 0 to |keys|
          invariant forall key :: key in keys ==> key in j.members
          invariant FillMembers(schema, registry, resource, c, i, j.members, keys[k..])
                 == FillMembers(schema, registry, old(resource), c, i, j.members, keys)
        {
          assert keys[k..][1..] == keys[k + 1..];
          match FillMember(schema, registry, resource, c, i, keys[k], j.members[keys[k]])
          case Err(e) => return Some(e);
          case Ok(st) => resource := st;
        }
        failure := None;
    }

    /** Flattens the top-level objects; the first error stops it. */
    method CollectAll(objects: seq<Json>) returns (failure: Option<LoadError>)
      requires ValidSchema(schema) && collected == []
      modifies this`collected
      ensures match failure
              case None => CollectRoots(schema, objects) == Ok(collected)
              case Some(e) => CollectRoots(schema, objects) == Err(e)
    {
      hide CollectObject, ClassOf;
      assert objects[0..] == objects;
      for k := 0 to |objects|
        invariant CollectRoots(schema, objects[k..]).Err? ==> CollectRoots(schema, objects) == CollectRoots(schema, objects[k..])
        invariant CollectRoots(schema, objects[k..]).Ok? ==>
                    CollectRoots(schema, objects).Ok?
                    && collected + CollectRoots(schema, objects[k..]).value == CollectRoots(schema, objects).value
      {
        assert objects[k..][1..] == objects[k + 1..];
        match ClassOf(schema, objects[k])
        case Err(e) => return Some(e);
        case Ok(c) => Collect(c, objects[k]);
      }
      assert collected == CollectRoots(schema, objects).value;
      failure := None;
    }

    method FromInstanceJson(j: Json) returns (out: Result<Resource, LoadError>)
      requires Valid() && collected == []
      requires registry == EmptyRegistry(schema) && resource == EmptyResource(schema)
      modifies this
      ensures out == LoadDocument(schema, j, ord)
      ensures out.Ok? <==> Documents.Acceptable(schema, j)
      ensures out.Ok? ==> exists at :: Documents.Says(schema, j, at, out.value)
    {
      DocumentLoading.AcceptsExactly(schema, j, ord);
      match Header(schema, j)
      case Err(e) => return Err(e);
      case Ok(objects) =>
        var failure := CollectAll(objects);
        if failure.None? {
          collected := SortByKey(collected);
          failure := RegisterCollected();
        }
        if failure.None? {
          failure := FillCollected();
        }
        out := match failure case None => Ok(resource) case Some(e) => Err(e);
    }
  }

  /** Saving and loading with the generated code: the identity exactly for the
      faithful resources. */
  method SaveThenLoad(schema: Schema, resource: Resource, ord: set<string> -> seq<string>)
    returns (out: Result<Resource, LoadError>)
    requires ValidSchema(schema) && WellTyped(schema, resource) && KeyOrder(ord)
    ensures out == Ok(resource) <==> RoundTrip.Faithful(schema, resource)
  {
    var saver := new Saver(schema, resource);
    var document := saver.ToInstanceJson();
    var loader := new Loader(schema, ord);
    out := loader.FromInstanceJson(document);
    RoundTrip.RoundTripExactly(schema, resource, ord);
  }
}
