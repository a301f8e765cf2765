/** What converting a JavaScript value to a `base::Value` computes, as functions on an immutable heap. */
module V8FromValue {
  import opened Wrappers
  import opened BaseValues
  import opened V8Heap

  const MAX_RECURSION_DEPTH: nat := 20

  datatype Options = Options(dateAllowed: bool, regExpAllowed: bool, functionAllowed: bool, stripNull: bool)

  const DEFAULT_OPTIONS := Options(false, false, false, false)

  /** `None` is the source's NULL; `visited` is the index of objects met so far. */
  datatype Converted = Converted(value: Option<Value>, visited: set<Id>)

  function DivideBy1000(n: Number): Number {
    if n.Finite? then Finite(n.r / 1000.0) else n
  }

  function OrNull(v: Option<Value>): Value {
    if v.Some? then v.value else Null
  }

  function FromValue(o: Options, h: Heap, v: JsValue, budget: nat, visited: set<Id>): Converted
    requires HeapOk(h) && InHeap(h, v)
    decreases budget, 0, 0
  {
    if budget == 0 then Converted(None, visited)
    else match v
      case Undefined => Converted(None, visited)
      case JsNull => Converted(Some(Null), visited)
      case JsBoolean(b) => Converted(Some(Boolean(b)), visited)
      case JsNumber(n) => Converted(Some(if IsInt32(n) then Integer(n.r.Floor) else Double(n)), visited)
      case JsString(s) => Converted(Some(String(s)), visited)
      case JsRef(id) =>
        match h[id]
        case Array(_) => FromObject(o, h, id, budget - 1, visited)
        case Object(Plain, _, _) => FromObject(o, h, id, budget - 1, visited)
        case Object(Date(time), _, _) =>
          if o.dateAllowed then Converted(Some(Double(DivideBy1000(time))), visited)
          else FromObject(o, h, id, budget - 1, visited)
        case Object(RegExp(source), _, _) =>
          if o.regExpAllowed then Converted(Some(String(source)), visited)
          else FromObject(o, h, id, budget - 1, visited)
        case Object(Function, _, _) =>
          if o.functionAllowed then FromObject(o, h, id, budget - 1, visited)
          else Converted(None, visited)
  }

  /** Arrays and property bags alike: null when met before, otherwise expanded. */
  function FromObject(o: Options, h: Heap, id: Id, budget: nat, visited: set<Id>): Converted
    requires HeapOk(h) && id in h
    decreases budget, 2, 0
  {
    if id in visited then Converted(Some(Null), visited)
    else match h[id]
      case Array(elements) =>
        var (items, visited') := FromElements(o, h, elements, budget, visited + {id});
        Converted(Some(List(items)), visited')
      case Object(_, names, props) =>
        assert ObjectOk(h, h[id]);
        var (entries, visited') := FromProperties(o, h, names, props, budget, visited + {id});
        Converted(Some(Dictionary(entries)), visited')
  }

  /** Holes are skipped, values that do not convert become null. */
  function FromElements(o: Options, h: Heap, elements: seq<Option<JsValue>>, budget: nat, visited: set<Id>)
    : (seq<Value>, set<Id>)
    requires HeapOk(h) && ObjectOk(h, Array(elements))
    decreases budget, 1, |elements|
  {
    if elements == [] then ([], visited)
    else
      var last := |elements| - 1;
      var (items, visited') := FromElements(o, h, elements[..last], budget, visited);
      if elements[last].None? then (items, visited')
      else
        var c := FromValue(o, h, elements[last].value, budget, visited');
        (items + [OrNull(c.value)], c.visited)
  }

  /** Is a converted property left out of the dictionary? */
  predicate Dropped(o: Options, v: Option<Value>) {
    v.None? || (o.stripNull && v.value == Null)
  }

  /** Callback properties and values that do not convert are skipped. */
  function FromProperties(o: Options, h: Heap, names: seq<string>, props: map<string, Property>, budget: nat,
                          visited: set<Id>): (map<string, Value>, set<Id>)
    requires HeapOk(h)
    requires forall k :: k in names ==> k in props && InHeap(h, props[k].value)
    decreases budget, 1, |names|
  {
    if names == [] then (map[], visited)
    else
      var name := names[|names| - 1];
      var (entries, visited') := FromProperties(o, h, names[..|names| - 1], props, budget, visited);
      if props[name].isCallback then (entries, visited')
      else
        var c := FromValue(o, h, props[name].value, budget, visited');
        (if Dropped(o, c.value) then entries else entries[name := c.value.value], c.visited)
  }
}
