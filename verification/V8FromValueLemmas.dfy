/** Conversion from any heap, cyclic or shared, is bounded in depth and expands each object once. */
module V8FromValueLemmas {
  import opened Wrappers
  import opened BaseValues
  import opened V8Heap
  import opened V8FromValue

  ghost function ContainersInOption(v: Option<Value>): nat {
    if v.Some? then Containers(v.value) else 0
  }

  /** The count over a dictionary does not depend on the order in which the keys are taken. */
  lemma {:induction false} ContainersRemoveKey(d: Value, keys: set<string>, k: string)
    requires d.Dictionary? && k in keys && keys <= d.entries.Keys
    ensures ContainersInEntries(d, keys) == Containers(d.entries[k]) + ContainersInEntries(d, keys - {k})
    decreases keys
  {
    var k' :| k' in keys
      && ContainersInEntries(d, keys) == Containers(d.entries[k']) + ContainersInEntries(d, keys - {k'});
    if k' != k {
      ContainersRemoveKey(d, keys - {k'}, k);
      ContainersRemoveKey(d, keys - {k}, k');
      assert keys - {k'} - {k} == keys - {k} - {k'};
    }
  }

  lemma {:induction false} ContainersSameEntries(d: Value, d': Value, keys: set<string>)
    requires d.Dictionary? && d'.Dictionary? && keys <= d.entries.Keys && keys <= d'.entries.Keys
    requires forall k :: k in keys ==> d.entries[k] == d'.entries[k]
    ensures ContainersInEntries(d, keys) == ContainersInEntries(d', keys)
    decreases keys
  {
    if keys == {} {
    } else {
      var k :| k in keys;
      ContainersRemoveKey(d, keys, k);
      ContainersRemoveKey(d', keys, k);
      ContainersSameEntries(d, d', keys - {k});
    }
  }

  lemma InsertEntry(m: map<string, Value>, k: string, v: Value, n: int)
    requires k !in m && FitsLevels(Dictionary(m), n) && FitsLevels(v, n - 1)
    ensures Containers(Dictionary(m[k := v])) == Containers(Dictionary(m)) + Containers(v)
    ensures FitsLevels(Dictionary(m[k := v]), n)
  {
    var d := Dictionary(m[k := v]);
    ContainersRemoveKey(d, m.Keys + {k}, k);
    assert d.entries.Keys == m.Keys + {k} && m.Keys + {k} - {k} == m.Keys;
    ContainersSameEntries(d, Dictionary(m), m.Keys);
  }

  lemma AppendItem(items: seq<Value>, v: Value, n: int)
    requires FitsLevels(List(items), n) && (v == Null || FitsLevels(v, n - 1))
    ensures ContainersInItems(items + [v]) == ContainersInItems(items) + Containers(v)
    ensures FitsLevels(List(items + [v]), n)
  {
    assert (items + [v])[..|items|] == items;
  }

  /** One conversion adds to the index exactly the objects it expands: the result holds one container
      per object added, has no more levels than the budget, and never visits outside the heap. */
  lemma {:induction false} FromValueExpandsOnce(o: Options, h: Heap, v: JsValue, budget: nat, visited: set<Id>)
    requires HeapOk(h) && InHeap(h, v) && visited <= h.Keys
    ensures var c := FromValue(o, h, v, budget, visited);
      && visited <= c.visited <= h.Keys
      && (c.value.Some? ==> FitsLevels(c.value.value, budget))
      && ContainersInOption(c.value) == |c.visited - visited|
    decreases budget, 0, 0
  {
    if budget > 0 && v.JsRef? {
      FromObjectExpandsOnce(o, h, v.id, budget - 1, visited);
    }
    FromValueCases(o, h, v, budget, visited);
    NothingExpanded(visited);
  }

  lemma NothingExpanded(visited: set<Id>)
    ensures |visited - visited| == 0
  {
    assert visited - visited == {};
  }

  predicate Leaf(v: Value) {
    !v.List? && !v.Dictionary?
  }

  /** A conversion is that of an object, or yields at most a leaf and leaves the index. */
  lemma FromValueCases(o: Options, h: Heap, v: JsValue, budget: nat, visited: set<Id>)
    requires HeapOk(h) && InHeap(h, v)
    ensures var c := FromValue(o, h, v, budget, visited);
      || (budget > 0 && v.JsRef? && c == FromObject(o, h, v.id, budget - 1, visited))
      || (c.visited == visited && (c.value.Some? ==> budget > 0 && Leaf(c.value.value)))
  {}

  lemma {:induction false} FromObjectExpandsOnce(o: Options, h: Heap, id: Id, budget: nat, visited: set<Id>)
    requires HeapOk(h) && id in h && visited <= h.Keys
    ensures var c := FromObject(o, h, id, budget, visited);
      && visited <= c.visited <= h.Keys
      && c.value.Some? && FitsLevels(c.value.value, budget + 1)
      && Containers(c.value.value) == |c.visited - visited|
    decreases budget, 2, 0
  {
    if id !in visited {
      assert ObjectOk(h, h[id]);
      match h[id]
      case Array(elements) =>
        FromElementsExpandsOnce(o, h, elements, budget, visited + {id});
        SizeSplit(visited, {id}, FromElements(o, h, elements, budget, visited + {id}).1);
      case Object(_, names, props) =>
        FromPropertiesExpandsOnce(o, h, names, props, budget, visited + {id});
        SizeSplit(visited, {id}, FromProperties(o, h, names, props, budget, visited + {id}).1);
    }
  }

  lemma SizeSplit(a: set<Id>, b: set<Id>, c: set<Id>)
    requires a !! b && a + b <= c
    ensures |c - a| == |b| + |c - (a + b)|
  {
    assert c - a == b + (c - (a + b));
  }

  lemma SizeChain(a: set<Id>, b: set<Id>, c: set<Id>)
    requires a <= b <= c
    ensures |c - a| == |b - a| + |c - b|
  {
    assert c - a == (b - a) + (c - b);
  }

  lemma {:induction false} FromElementsExpandsOnce(o: Options, h: Heap, elements: seq<Option<JsValue>>, budget: nat,
                                                   visited: set<Id>)
    requires HeapOk(h) && ObjectOk(h, Array(elements)) && visited <= h.Keys
    ensures var r := FromElements(o, h, elements, budget, visited);
      && visited <= r.1 <= h.Keys
      && FitsLevels(List(r.0), budget + 1)
      && ContainersInItems(r.0) == |r.1 - visited|
    decreases budget, 1, |elements|
  {
    if elements == [] {
    } else {
      var last := |elements| - 1;
      FromElementsExpandsOnce(o, h, elements[..last], budget, visited);
      var r := FromElements(o, h, elements[..last], budget, visited);
      if elements[last].Some? {
        var c := FromValue(o, h, elements[last].value, budget, r.1);
        FromValueExpandsOnce(o, h, elements[last].value, budget, r.1);
        AppendConverted(r.0, c, budget, visited, r.1);
      }
    }
  }

  lemma AppendConverted(items: seq<Value>, c: Converted, budget: nat, visited: set<Id>, middle: set<Id>)
    requires FitsLevels(List(items), budget + 1) && (c.value.Some? ==> FitsLevels(c.value.value, budget))
    requires visited <= middle <= c.visited
    requires ContainersInItems(items) == |middle - visited|
    requires ContainersInOption(c.value) == |c.visited - middle|
    ensures FitsLevels(List(items + [OrNull(c.value)]), budget + 1)
    ensures ContainersInItems(items + [OrNull(c.value)]) == |c.visited - visited|
  {
    SizeChain(visited, middle, c.visited);
    AppendItem(items, OrNull(c.value), budget + 1);
  }

  /** Each name is listed once and has its property. */
  ghost predicate NamesOk(h: Heap, names: seq<string>, props: map<string, Property>) {
    && (forall i, j :: 0 <= i < j < |names| ==> names[i] != names[j])
    && (forall k :: k in names ==> k in props && InHeap(h, props[k].value))
  }

  lemma InsertConverted(o: Options, entries: map<string, Value>, name: string, c: Converted, budget: nat,
                        visited: set<Id>, middle: set<Id>)
    requires name !in entries && FitsLevels(Dictionary(entries), budget + 1)
    requires c.value.Some? ==> FitsLevels(c.value.value, budget)
    requires visited <= middle <= c.visited
    requires Containers(Dictionary(entries)) == 1 + |middle - visited|
    requires ContainersInOption(c.value) == |c.visited - middle|
    ensures var entries' := if Dropped(o, c.value) then entries else entries[name := c.value.value];
      FitsLevels(Dictionary(entries'), budget + 1)
      && Containers(Dictionary(entries')) == 1 + |c.visited - visited|
  {
    SizeChain(visited, middle, c.visited);
    if !Dropped(o, c.value) {
      InsertEntry(entries, name, c.value.value, budget + 1);
    }
  }

  /** The entries, from among the names, hold one container per object added to the index, within the levels. */
  ghost predicate EntriesExpanded(h: Heap, names: seq<string>, budget: nat, visited: set<Id>,
                                  entries: map<string, Value>, index: set<Id>)
  {
    && visited <= index <= h.Keys
    && FitsLevels(Dictionary(entries), budget + 1)
    && (forall k :: k in entries ==> k in names)
    && Containers(Dictionary(entries)) == 1 + |index - visited|
  }

  lemma {:induction false} FromPropertiesExpandsOnce(o: Options, h: Heap, names: seq<string>,
                                                     props: map<string, Property>, budget: nat, visited: set<Id>)
    requires HeapOk(h) && visited <= h.Keys
    requires NamesOk(h, names, props)
    ensures var r := FromProperties(o, h, names, props, budget, visited);
      EntriesExpanded(h, names, budget, visited, r.0, r.1)
    decreases budget, 1, |names|
  {
    if names == [] {
      EmptyDictionary(budget, visited);
    } else {
      var last := |names| - 1;
      FewerNamesOk(h, names, props);
      FromPropertiesExpandsOnce(o, h, names[..last], props, budget, visited);
      var r := FromProperties(o, h, names[..last], props, budget, visited);
      LastPropertyConverted(o, h, names, props, budget, visited);
      MoreNames(h, names, props, budget, visited, r.0, r.1);
      if !props[names[last]].isCallback {
        FromValueExpandsOnce(o, h, props[names[last]].value, budget, r.1);
        OneMoreExpanded(o, h, names, budget, visited, r.0, r.1, FromValue(o, h, props[names[last]].value, budget, r.1));
      }
    }
  }

  lemma FewerNamesOk(h: Heap, names: seq<string>, props: map<string, Property>)
    requires names != [] && NamesOk(h, names, props)
    ensures NamesOk(h, names[..|names| - 1], props)
    ensures names[|names| - 1] in props && InHeap(h, props[names[|names| - 1]].value)
  {
    LastNameIsNew(names);
  }

  lemma MoreNames(h: Heap, names: seq<string>, props: map<string, Property>, budget: nat, visited: set<Id>,
                  entries: map<string, Value>, index: set<Id>)
    requires names != [] && NamesOk(h, names, props)
    requires EntriesExpanded(h, names[..|names| - 1], budget, visited, entries, index)
    ensures EntriesExpanded(h, names, budget, visited, entries, index) && names[|names| - 1] !in entries
  {
    LastNameIsNew(names);
  }

  lemma OneMoreExpanded(o: Options, h: Heap, names: seq<string>, budget: nat, visited: set<Id>,
                        entries: map<string, Value>, index: set<Id>, c: Converted)
    requires names != [] && EntriesExpanded(h, names, budget, visited, entries, index)
    requires names[|names| - 1] !in entries && index <= c.visited <= h.Keys
    requires c.value.Some? ==> FitsLevels(c.value.value, budget)
    requires ContainersInOption(c.value) == |c.visited - index|
    ensures EntriesExpanded(h, names, budget, visited,
                            if Dropped(o, c.value) then entries else entries[names[|names| - 1] := c.value.value],
                            c.visited)
  {
    InsertConverted(o, entries, names[|names| - 1], c, budget, visited, index);
  }

  lemma LastNameIsNew(names: seq<string>)
    requires names != [] && forall i, j :: 0 <= i < j < |names| ==> names[i] != names[j]
    ensures names[|names| - 1] in names && names[|names| - 1] !in names[..|names| - 1]
    ensures forall k :: k in names[..|names| - 1] ==> k in names
  {}

  lemma EmptyDictionary(budget: nat, visited: set<Id>)
    ensures FitsLevels(Dictionary(map[]), budget + 1)
    ensures Containers(Dictionary(map[])) == 1 + |visited - visited|
  {
    NothingExpanded(visited);
  }

  lemma LastPropertyConverted(o: Options, h: Heap, names: seq<string>, props: map<string, Property>, budget: nat,
                              visited: set<Id>)
    requires HeapOk(h) && names != [] && NamesOk(h, names, props)
    ensures var name := names[|names| - 1];
      var r := FromProperties(o, h, names[..|names| - 1], props, budget, visited);
      FromProperties(o, h, names, props, budget, visited)
      == if props[name].isCallback then r
         else
           var c := FromValue(o, h, props[name].value, budget, r.1);
           (if Dropped(o, c.value) then r.0 else r.0[name := c.value.value], c.visited)
  {}

  /** From a fresh index, the result has as many containers as objects were met, and so at most as many as the
      heap has objects, however often these refer to each other. */
  lemma BoundedByHeap(o: Options, h: Heap, v: JsValue)
    requires HeapOk(h) && InHeap(h, v)
    ensures var c := FromValue(o, h, v, MAX_RECURSION_DEPTH, {});
      && (c.value.Some? ==> FitsLevels(c.value.value, MAX_RECURSION_DEPTH))
      && ContainersInOption(c.value) == |c.visited| <= |h|
  {
    FromValueExpandsOnce(o, h, v, MAX_RECURSION_DEPTH, {});
    var c := FromValue(o, h, v, MAX_RECURSION_DEPTH, {});
    assert c.visited - {} == c.visited;
    SubsetSize(c.visited, h.Keys);
  }

  lemma {:induction false} SubsetSize(a: set<Id>, b: set<Id>)
    requires a <= b
    ensures |a| <= |b|
  {
    assert b == a + (b - a);
  }

  // ---- What becomes of undefined, functions, holes and callbacks

  /** Neither an object nor without a place in JSON. */
  predicate Primitive(v: JsValue) {
    !v.JsRef? && !v.Undefined?
  }

  /** Undefined, or a function when functions are not allowed. */
  predicate Unserializable(o: Options, h: Heap, v: JsValue)
    requires InHeap(h, v)
  {
    v.Undefined? || (v.JsRef? && h[v.id].Object? && h[v.id].kind.Function? && !o.functionAllowed)
  }

  /** The elements of an array that are no holes. */
  function Present(elements: seq<Option<JsValue>>): seq<JsValue> {
    if elements == [] then []
    else
      var last := |elements| - 1;
      Present(elements[..last]) + if elements[last].Some? then [elements[last].value] else []
  }

  /** A list has a place for each element that is no hole, in order, whatever the element is. */
  lemma {:induction false} ElementsKeepTheirPlaces(o: Options, h: Heap, elements: seq<Option<JsValue>>, budget: nat,
                                                   visited: set<Id>)
    requires HeapOk(h) && ObjectOk(h, Array(elements))
    ensures var (items, present) := (FromElements(o, h, elements, budget, visited).0, Present(elements));
      && |items| == |present|
      && (forall i :: 0 <= i < |present| ==> InHeap(h, present[i]))
      && (forall i :: 0 <= i < |present| && (budget == 0 || Unserializable(o, h, present[i])) ==> items[i] == Null)
      && (forall i :: 0 <= i < |present| && budget > 0 && Primitive(present[i]) ==>
            Some(items[i]) == FromValue(o, h, present[i], budget, {}).value)
    decreases |elements|
  {
    if elements == [] {
    } else {
      var last := |elements| - 1;
      ElementsKeepTheirPlaces(o, h, elements[..last], budget, visited);
      if elements[last].Some? {
        var r := FromElements(o, h, elements[..last], budget, visited);
        LeavesIgnoreIndex(o, h, elements[last].value, budget, r.1);
      }
    }
  }

  lemma LeavesIgnoreIndex(o: Options, h: Heap, v: JsValue, budget: nat, visited: set<Id>)
    requires HeapOk(h) && InHeap(h, v)
    ensures budget == 0 || Unserializable(o, h, v) ==> FromValue(o, h, v, budget, visited).value == None
    ensures budget > 0 && Primitive(v) ==>
              FromValue(o, h, v, budget, visited).value == FromValue(o, h, v, budget, {}).value
              && FromValue(o, h, v, budget, {}).value.Some?
  {}

  /** A dictionary has no entry for a callback or for a value that does not serialize, and no null when nulls
      are stripped; it has every other property whose value is a primitive. */
  lemma {:induction false} PropertiesKept(o: Options, h: Heap, names: seq<string>, props: map<string, Property>,
                                          budget: nat, visited: set<Id>, k: string)
    requires HeapOk(h)
    requires NamesOk(h, names, props)
    ensures var entries := FromProperties(o, h, names, props, budget, visited).0;
      && (k in entries ==>
            && k in names && !props[k].isCallback && budget > 0 && !Unserializable(o, h, props[k].value)
            && (o.stripNull ==> entries[k] != Null))
      && (k in names && !props[k].isCallback && budget > 0 && Primitive(props[k].value)
          && !(o.stripNull && props[k].value.JsNull?) ==>
            k in entries && Some(entries[k]) == FromValue(o, h, props[k].value, budget, {}).value)
    decreases |names|
  {
    if names == [] {
    } else {
      var last := |names| - 1;
      PropertiesKept(o, h, names[..last], props, budget, visited, k);
      var r := FromProperties(o, h, names[..last], props, budget, visited);
      LeavesIgnoreIndex(o, h, props[names[last]].value, budget, r.1);
    }
  }
}
