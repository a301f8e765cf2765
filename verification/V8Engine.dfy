/** The converter from `base::Value` to JavaScript, allocating in a mutable heap. */
module V8Engine {
  import opened Wrappers
  import opened BaseValues
  import opened V8Heap
  import opened V8FromValue
  import opened V8Represents
  import opened V8RoundTrip
  import V8ValueConverter

  class Engine {
    var objects: Heap
    var nextId: Id

    ghost predicate Valid()
      reads this
    {
      && HeapOk(objects)
      && forall id :: id in objects ==> id < nextId
    }

    /** Everything allocated before is still there, untouched. */
    twostate predicate Extends()
      reads this
    {
      && old(nextId) <= nextId
      && forall id :: id in old(objects) ==> id in objects && objects[id] == old(objects)[id]
    }

    /** `j` is a copy of `v` made only of objects allocated since. */
    twostate predicate FreshCopy(j: JsValue, v: Value)
      reads this
    {
      && InHeap(objects, j) && Represents(objects, j, v)
      && forall x :: x in Footprint(objects, j, v) ==> x in objects && old(nextId) <= x
    }

    constructor ()
      ensures Valid() && objects == map[]
    {
      objects, nextId := map[], 0;
    }

    method Allocate(o: JsObject) returns (id: Id)
      requires Valid() && ObjectOk(objects, o)
      modifies this
      ensures Valid() && id == old(nextId) && nextId == id + 1
      ensures objects == old(objects)[id := o]
    {
      id := nextId;
      objects, nextId := objects[id := o], nextId + 1;
    }

    /** Adds a property; the engine decides where the new name is listed. */
    method Set(id: Id, key: string, value: JsValue)
      requires Valid() && id in objects && objects[id].Object? && key !in objects[id].props
      requires InHeap(objects, value)
      modifies this`objects
      ensures Valid() && objects.Keys == old(objects.Keys) && objects[id].Object?
      ensures objects == old(objects)[id := Object(old(objects[id].kind), objects[id].names,
                                                   old(objects[id].props)[key := Property(value, false)])]
    {
      var Object(kind, names, props) := objects[id];
      assert ObjectOk(objects, objects[id]);
      var place :| 0 <= place <= |names|;
      objects := objects[id := Object(kind, names[..place] + [key] + names[place..],
                                      props[key := Property(value, false)])];
    }

    method SetElement(id: Id, i: nat, value: JsValue)
      requires Valid() && id in objects && objects[id].Array? && i < |objects[id].elements|
      requires InHeap(objects, value)
      modifies this`objects
      ensures Valid()
      ensures objects == old(objects)[id := Array(old(objects[id].elements)[i := Some(value)])]
    {
      assert ObjectOk(objects, objects[id]);
      objects := objects[id := Array(objects[id].elements[i := Some(value)])];
    }

    method ToV8Value(v: Value) returns (j: JsValue)
      requires Valid()
      modifies this
      ensures Valid() && Extends() && FreshCopy(j, v)
      decreases v, 2
    {
      match v
      case Null => j := JsNull;
      case Boolean(b) => j := JsBoolean(b);
      case Integer(i) => j := JsNumber(Finite(i as real));
      case Double(d) => j := JsNumber(d);
      case String(s) => j := JsString(s);
      case List(items) => j := ToV8Array(v, items);
      case Dictionary(m) => j := ToV8Object(v, m);
      case Binary => j := JsNull;
    }

    method ToV8Array(ghost v: Value, items: seq<Value>) returns (j: JsValue)
      requires Valid() && v == List(items)
      modifies this
      ensures Valid() && Extends() && FreshCopy(j, v)
      decreases v, 0
    {
      var id := Allocate(Array(seq(|items|, i => None)));
      j := JsRef(id);
      for i := 0 to |items|
        invariant Valid() && id < nextId && Extends()
        invariant CopiedItems(objects, id, v, i)
      {
        ghost var before := objects;
        var child := ToV8Value(items[i]);
        CopyItem(before, objects, id, v, i, child);
        SetElement(id, i, child);
      }
      AllItemsCopied(objects, id, v);
    }

    method ToV8Object(ghost v: Value, m: map<string, Value>) returns (j: JsValue)
      requires Valid() && v == Dictionary(m)
      modifies this
      ensures Valid() && Extends() && FreshCopy(j, v)
      decreases v, 1
    {
      var id := Allocate(Object(Plain, [], map[]));
      j := JsRef(id);
      var rest := m.Keys;
      while rest != {}
        invariant rest <= m.Keys
        invariant Valid() && id < nextId && Extends()
        invariant CopiedEntries(objects, id, v, m.Keys - rest)
        decreases rest
      {
        var key :| key in rest;
        ToV8Property(v, m, id, key, m.Keys - rest);
        assert m.Keys - (rest - {key}) == m.Keys - rest + {key};
        rest := rest - {key};
      }
      assert m.Keys - rest == m.Keys;
      AllEntriesCopied(objects, id, v);
    }

    /** One turn of the loop: only the object itself and new objects change. */
    method ToV8Property(ghost v: Value, m: map<string, Value>, id: Id, key: string, ghost keys: set<string>)
      requires Valid() && v == Dictionary(m) && key in m && key !in keys && CopiedEntries(objects, id, v, keys)
      modifies this
      ensures Valid() && old(nextId) <= nextId
      ensures forall x :: x in old(objects) && x != id ==> x in objects && objects[x] == old(objects)[x]
      ensures CopiedEntries(objects, id, v, keys + {key})
      decreases v, 0
    {
      ghost var before := objects;
      var child := ToV8Value(m[key]);
      ghost var middle := objects;
      Set(id, key, child);
      CopyEntry(before, middle, id, v, keys, key, child, objects[id].names);
    }
  }

  /** Any well-formed tree, sent to JavaScript and read back with default options, for any identity hash. */
  method RoundTrip(engine: Engine, v: Value, hash: Id -> int) returns (r: Option<Value>)
    requires engine.Valid() && WellFormed(v)
    modifies engine
    ensures engine.Valid()
    ensures r == Truncate(v, 20)
    ensures r == Some(v) <==> FitsLevels(v, 20) && JsonLike(v)
  {
    var j := engine.ToV8Value(v);
    var converter := new V8ValueConverter.Converter(DEFAULT_OPTIONS);
    FromCopy(engine.objects, j, v, MAX_RECURSION_DEPTH, {});
    r := converter.FromV8Value(engine.objects, j, hash);
    TruncateIsIdentity(v, MAX_RECURSION_DEPTH);
  }
}
