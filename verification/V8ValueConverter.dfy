/** The converter from JavaScript to `base::Value`, in the source's own steps. */
module V8ValueConverter {
  import opened Wrappers
  import opened BaseValues
  import opened V8Heap
  import opened V8FromValue
  import opened V8FromValueLemmas

  /** The state of one call: the remaining depth and the index of visited objects, bucketed by identity hash. */
  class FromV8ValueState {
    const hash: Id -> int
    var uniqueMap: map<int, seq<Id>>
    var maxRecursionDepth: int

    /** Every object is filed under its own hash. */
    ghost predicate Valid()
      reads this
    {
      forall b, i :: b in uniqueMap && 0 <= i < |uniqueMap[b]| ==> hash(uniqueMap[b][i]) == b
    }

    ghost function Visited(): set<Id>
      reads this
    {
      set b, i | b in uniqueMap && 0 <= i < |uniqueMap[b]| :: uniqueMap[b][i]
    }

    constructor (hash: Id -> int)
      ensures Valid() && Visited() == {} && maxRecursionDepth == 20
      ensures this.hash == hash
    {
      this.hash := hash;
      uniqueMap := map[];
      maxRecursionDepth := MAX_RECURSION_DEPTH;
    }

    /** Whatever the hash function and its collisions, the bucket scan decides set membership. */
    method UpdateAndCheckUniqueness(id: Id) returns (unique: bool)
      requires Valid()
      modifies this`uniqueMap
      ensures Valid()
      ensures unique <==> id !in old(Visited())
      ensures Visited() == old(Visited()) + {id}
    {
      var key := hash(id);
      var bucket := if key in uniqueMap then uniqueMap[key] else [];
      for i := 0 to |bucket|
        invariant id !in bucket[..i]
      {
        if bucket[i] == id {
          assert uniqueMap[key][i] == id;
          return false;
        }
      }
      assert id !in Visited();
      uniqueMap := uniqueMap[key := bucket + [id]];
      assert uniqueMap[key][|bucket|] == id;
      assert forall x :: x in old(Visited()) ==> x in Visited() by {
        forall x | x in old(Visited()) ensures x in Visited() {
          var b, i :| b in old(uniqueMap) && 0 <= i < |old(uniqueMap)[b]| && old(uniqueMap)[b][i] == x;
          assert uniqueMap[b][i] == x;
        }
      }
      return true;
    }
  }

  class Converter {
    const options: Options

    constructor (options: Options)
      ensures this.options == options
    {
      this.options := options;
    }

    /** On any heap, cyclic or shared: a tree within the depth limit, with no more lists and dictionaries than
        the heap has objects. */
    method FromV8Value(h: Heap, v: JsValue, hash: Id -> int) returns (r: Option<Value>)
      requires HeapOk(h) && InHeap(h, v)
      ensures r == FromValue(options, h, v, MAX_RECURSION_DEPTH, {}).value
      ensures r.Some? ==> FitsLevels(r.value, 20) && Containers(r.value) <= |h|
    {
      BoundedByHeap(options, h, v);
      var state := new FromV8ValueState(hash);
      r := FromV8ValueImpl(state, h, v);
    }

    method FromV8ValueImpl(state: FromV8ValueState, h: Heap, v: JsValue) returns (r: Option<Value>)
      requires state.Valid() && state.maxRecursionDepth >= 0
      requires HeapOk(h) && InHeap(h, v)
      modifies state
      ensures state.Valid() && state.maxRecursionDepth == old(state.maxRecursionDepth)
      ensures Converted(r, state.Visited())
           == FromValue(options, h, v, old(state.maxRecursionDepth), old(state.Visited()))
      decreases state.maxRecursionDepth, 0
    {
      state.maxRecursionDepth := state.maxRecursionDepth - 1;
      if state.maxRecursionDepth < 0 {
        r := None;
      } else {
        match v
        case Undefined => r := None;
        case JsNull => r := Some(Null);
        case JsBoolean(b) => r := Some(Boolean(b));
        case JsNumber(n) =>
          if IsInt32(n) {
            r := Some(Integer(n.r.Floor));
          } else {
            r := Some(Double(n));
          }
        case JsString(s) => r := Some(String(s));
        case JsRef(id) =>
          match h[id]
          case Array(elements) => r := FromV8Array(state, h, id, elements);
          case Object(kind, names, props) =>
            if kind.Date? && options.dateAllowed {
              r := Some(Double(DivideBy1000(kind.time)));
            } else if kind.RegExp? && options.regExpAllowed {
              r := Some(String(kind.source));
            } else if kind.Function? && !options.functionAllowed {
              r := None;
            } else {
              r := FromV8Object(state, h, id, names, props);
            }
      }
      state.maxRecursionDepth := state.maxRecursionDepth + 1;
    }

    method FromV8Array(state: FromV8ValueState, h: Heap, id: Id, elements: seq<Option<JsValue>>)
      returns (r: Option<Value>)
      requires state.Valid() && state.maxRecursionDepth >= 0
      requires HeapOk(h) && id in h && h[id] == Array(elements)
      modifies state
      ensures state.Valid() && state.maxRecursionDepth == old(state.maxRecursionDepth)
      ensures Converted(r, state.Visited())
           == FromObject(options, h, id, old(state.maxRecursionDepth), old(state.Visited()))
      decreases state.maxRecursionDepth, 1
    {
      ghost var visited := state.Visited();
      var unique := state.UpdateAndCheckUniqueness(id);
      if !unique {
        assert visited + {id} == visited;
        return Some(Null);
      }
      assert ObjectOk(h, h[id]);
      var result: seq<Value> := [];
      for i := 0 to |elements|
        invariant state.Valid() && state.maxRecursionDepth == old(state.maxRecursionDepth)
        invariant (result, state.Visited())
               == FromElements(options, h, elements[..i], state.maxRecursionDepth, visited + {id})
      {
        assert elements[..i + 1][..i] == elements[..i];
        if elements[i].Some? {
          var child := FromV8ValueImpl(state, h, elements[i].value);
          if child.Some? {
            result := result + [child.value];
          } else {
            result := result + [Null];
          }
        }
      }
      assert elements[..|elements|] == elements;
      return Some(List(result));
    }

    method FromV8Object(state: FromV8ValueState, h: Heap, id: Id, names: seq<string>, props: map<string, Property>)
      returns (r: Option<Value>)
      requires state.Valid() && state.maxRecursionDepth >= 0
      requires HeapOk(h) && id in h && h[id].Object? && h[id].names == names && h[id].props == props
      modifies state
      ensures state.Valid() && state.maxRecursionDepth == old(state.maxRecursionDepth)
      ensures Converted(r, state.Visited())
           == FromObject(options, h, id, old(state.maxRecursionDepth), old(state.Visited()))
      decreases state.maxRecursionDepth, 1
    {
      ghost var visited := state.Visited();
      var unique := state.UpdateAndCheckUniqueness(id);
      if !unique {
        assert visited + {id} == visited;
        return Some(Null);
      }
      assert ObjectOk(h, h[id]);
      var result: map<string, Value> := map[];
      for i := 0 to |names|
        invariant state.Valid() && state.maxRecursionDepth == old(state.maxRecursionDepth)
        invariant (result, state.Visited())
               == FromProperties(options, h, names[..i], props, state.maxRecursionDepth, visited + {id})
      {
        assert names[..i + 1][..i] == names[..i];
        if !props[names[i]].isCallback {
          var child := FromV8ValueImpl(state, h, props[names[i]].value);
          if child.None? || (options.stripNull && child.value == Null) {
            continue;
          }
          result := result[names[i] := child.value];
        }
      }
      assert names[..|names|] == names;
      return Some(Dictionary(result));
    }
  }
}
