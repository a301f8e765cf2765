/** Value trees to JavaScript and back. */
module V8RoundTrip {
  import opened Wrappers
  import opened BaseValues
  import opened V8Heap
  import opened V8FromValue
  import opened V8Represents

  ghost function ElementsFootprint(h: Heap, j: JsValue, v: Value, n: nat): set<Id>
    requires j.JsRef? && j.id in h && v.List? && n <= |v.items|
  {
    if n == 0 then {} else ElementsFootprint(h, j, v, n - 1) + ElementFootprint(h, j, v, n - 1)
  }

  ghost function PropertiesFootprint(h: Heap, j: JsValue, v: Value, names: seq<string>): set<Id>
    requires j.JsRef? && j.id in h && v.Dictionary? && forall k :: k in names ==> k in v.entries
  {
    if names == [] then {}
    else
      PropertiesFootprint(h, j, v, names[..|names| - 1]) + PropertyFootprint(h, j, v, names[|names| - 1])
  }

  lemma {:induction false} ElementsApart(h: Heap, j: JsValue, v: Value, n: nat, i: nat)
    requires v.List? && Represents(h, j, v) && n <= i <= |v.items|
    ensures ElementsFootprint(h, j, v, n) <= Footprint(h, j, v)
    ensures i < |v.items| ==> ElementsFootprint(h, j, v, n) !! ElementFootprint(h, j, v, i)
    ensures i < |v.items| ==>
              {j.id} !! ElementFootprint(h, j, v, i) && ElementFootprint(h, j, v, i) <= Footprint(h, j, v)
  {
    if n == 0 {
    } else {
      ElementsApart(h, j, v, n - 1, i);
    }
  }

  lemma {:induction false} PropertiesApart(h: Heap, j: JsValue, v: Value, names: seq<string>, k: string)
    requires v.Dictionary? && Represents(h, j, v) && k in v.entries && k !in names
    requires forall k :: k in names ==> k in v.entries
    ensures PropertiesFootprint(h, j, v, names) <= Footprint(h, j, v)
    ensures PropertiesFootprint(h, j, v, names) !! PropertyFootprint(h, j, v, k)
    ensures {j.id} !! PropertyFootprint(h, j, v, k) && PropertyFootprint(h, j, v, k) <= Footprint(h, j, v)
  {
    if names == [] {
    } else {
      PropertiesApart(h, j, v, names[..|names| - 1], k);
    }
  }

  /** The first `n` items with `budget` levels to spend on each. */
  ghost function TruncatedItems(items: seq<Value>, budget: nat, n: nat): seq<Value>
    requires n <= |items|
  {
    seq(n, i requires 0 <= i < n => OrNull(Truncate(items[i], budget)))
  }

  ghost function TruncatedEntries(m: map<string, Value>, budget: nat, names: seq<string>): map<string, Value> {
    map k | k in m && k in names && Truncate(m[k], budget).Some? :: Truncate(m[k], budget).value
  }

  /** A copied leaf reads as itself, with integral doubles as integers. */
  lemma FromCopiedLeaf(h: Heap, j: JsValue, v: Value, budget: nat, visited: set<Id>)
    requires HeapOk(h) && InHeap(h, j) && WellFormed(v)
    requires Represents(h, j, v) && !v.List? && !v.Dictionary?
    ensures FromValue(DEFAULT_OPTIONS, h, j, budget, visited) == Converted(Truncate(v, budget), visited)
  {}

  lemma FromCopiedContainer(h: Heap, j: JsValue, v: Value, budget: nat, visited: set<Id>)
    requires HeapOk(h) && InHeap(h, j) && Represents(h, j, v) && (v.List? || v.Dictionary?) && budget > 0
    ensures FromValue(DEFAULT_OPTIONS, h, j, budget, visited)
         == FromObject(DEFAULT_OPTIONS, h, j.id, budget - 1, visited)
  {}

  /** Reading an unshared copy yields the truncated tree and marks only the copy's own objects. */
  lemma {:induction false} FromCopy(h: Heap, j: JsValue, v: Value, budget: nat, visited: set<Id>)
    requires HeapOk(h) && InHeap(h, j) && WellFormed(v)
    requires Represents(h, j, v) && Footprint(h, j, v) !! visited
    ensures FromValue(DEFAULT_OPTIONS, h, j, budget, visited).value == Truncate(v, budget)
    ensures FromValue(DEFAULT_OPTIONS, h, j, budget, visited).visited <= visited + Footprint(h, j, v)
    decreases v, 1, 0
  {
    if !v.List? && !v.Dictionary? {
      FromCopiedLeaf(h, j, v, budget, visited);
    } else if budget > 0 {
      FromCopiedContainer(h, j, v, budget, visited);
      if v.List? {
        FromCopiedList(h, j, v, budget - 1, visited);
      } else {
        FromCopiedDictionary(h, j, v, budget - 1, visited);
      }
    }
  }

  lemma {:induction false} FromCopiedList(h: Heap, j: JsValue, v: Value, budget: nat, visited: set<Id>)
    requires HeapOk(h) && InHeap(h, j) && WellFormed(v) && v.List?
    requires Represents(h, j, v) && Footprint(h, j, v) !! visited
    ensures FromObject(DEFAULT_OPTIONS, h, j.id, budget, visited).value == Truncate(v, budget + 1)
    ensures FromObject(DEFAULT_OPTIONS, h, j.id, budget, visited).visited <= visited + Footprint(h, j, v)
    decreases v, 0, |v.items| + 1
  {
    var n := |v.items|;
    assert ObjectOk(h, h[j.id]);
    FromCopiedElements(h, j, v, budget, n, visited);
    ElementsApart(h, j, v, n, n);
    assert h[j.id].elements[..n] == h[j.id].elements;
    assert TruncatedItems(v.items, budget, n) == Truncate(v, budget + 1).value.items;
  }

  lemma FromElementsStep(h: Heap, elements: seq<Option<JsValue>>, n: nat, budget: nat, visited: set<Id>)
    requires HeapOk(h) && ObjectOk(h, Array(elements)) && 0 < n <= |elements| && elements[n - 1].Some?
    ensures var r := FromElements(DEFAULT_OPTIONS, h, elements[..n - 1], budget, visited);
      var c := FromValue(DEFAULT_OPTIONS, h, elements[n - 1].value, budget, r.1);
      FromElements(DEFAULT_OPTIONS, h, elements[..n], budget, visited) == (r.0 + [OrNull(c.value)], c.visited)
  {
    assert elements[..n][..n - 1] == elements[..n - 1];
  }

  lemma TruncatedItemsStep(items: seq<Value>, budget: nat, n: nat)
    requires 0 < n <= |items|
    ensures TruncatedItems(items, budget, n)
         == TruncatedItems(items, budget, n - 1) + [OrNull(Truncate(items[n - 1], budget))]
  {}

  lemma OneMoreItem(h: Heap, elements: seq<Option<JsValue>>, items: seq<Value>, budget: nat, n: nat,
                    visited: set<Id>)
    requires HeapOk(h) && ObjectOk(h, Array(elements)) && 0 < n <= |elements| && elements[n - 1].Some?
    requires n <= |items|
    requires var r := FromElements(DEFAULT_OPTIONS, h, elements[..n - 1], budget, visited);
      && r.0 == TruncatedItems(items, budget, n - 1)
      && FromValue(DEFAULT_OPTIONS, h, elements[n - 1].value, budget, r.1).value == Truncate(items[n - 1], budget)
    ensures var r := FromElements(DEFAULT_OPTIONS, h, elements[..n - 1], budget, visited);
      FromElements(DEFAULT_OPTIONS, h, elements[..n], budget, visited)
      == (TruncatedItems(items, budget, n),
          FromValue(DEFAULT_OPTIONS, h, elements[n - 1].value, budget, r.1).visited)
  {
    FromElementsStep(h, elements, n, budget, visited);
    TruncatedItemsStep(items, budget, n);
  }

  /** What the earlier items have marked is not part of the next one. */
  lemma NextElementApart(h: Heap, j: JsValue, v: Value, n: nat, visited: set<Id>, index: set<Id>)
    requires v.List? && Represents(h, j, v) && n < |v.items| && Footprint(h, j, v) !! visited
    requires index <= visited + {j.id} + ElementsFootprint(h, j, v, n)
    ensures ElementFootprint(h, j, v, n) !! index
  {
    ElementsApart(h, j, v, n, n);
  }

  lemma RepresentedElement(h: Heap, j: JsValue, v: Value, n: nat)
    requires v.List? && Represents(h, j, v) && n < |v.items|
    ensures n < |h[j.id].elements| && h[j.id].elements[n].Some?
    ensures Represents(h, h[j.id].elements[n].value, v.items[n])
    ensures ElementFootprint(h, j, v, n) == Footprint(h, h[j.id].elements[n].value, v.items[n])
  {
    assert ElementRepresents(h, h[j.id].elements[n], v, n);
  }

  lemma {:induction false} FromCopiedElements(h: Heap, j: JsValue, v: Value, budget: nat, n: nat, visited: set<Id>)
    requires HeapOk(h) && InHeap(h, j) && WellFormed(v) && v.List? && n <= |v.items|
    requires Represents(h, j, v) && Footprint(h, j, v) !! visited && ObjectOk(h, h[j.id])
    ensures var r := FromElements(DEFAULT_OPTIONS, h, h[j.id].elements[..n], budget, visited + {j.id});
      r.0 == TruncatedItems(v.items, budget, n) && r.1 <= visited + {j.id} + ElementsFootprint(h, j, v, n)
    decreases v, 0, n
  {
    if n == 0 {
    } else {
      var elements := h[j.id].elements;
      RepresentedElement(h, j, v, n - 1);
      FromCopiedElements(h, j, v, budget, n - 1, visited);
      var r := FromElements(DEFAULT_OPTIONS, h, elements[..n - 1], budget, visited + {j.id});
      NextElementApart(h, j, v, n - 1, visited, r.1);
      FromCopy(h, elements[n - 1].value, v.items[n - 1], budget, r.1);
      OneMoreItem(h, elements, v.items, budget, n, visited + {j.id});
    }
  }

  lemma {:induction false} FromCopiedDictionary(h: Heap, j: JsValue, v: Value, budget: nat, visited: set<Id>)
    requires HeapOk(h) && InHeap(h, j) && WellFormed(v) && v.Dictionary?
    requires Represents(h, j, v) && Footprint(h, j, v) !! visited
    ensures FromObject(DEFAULT_OPTIONS, h, j.id, budget, visited).value == Truncate(v, budget + 1)
    ensures FromObject(DEFAULT_OPTIONS, h, j.id, budget, visited).visited <= visited + Footprint(h, j, v)
    decreases v, 0, |h[j.id].names| + 1
  {
    var names := h[j.id].names;
    assert ObjectOk(h, h[j.id]);
    FromCopiedProperties(h, j, v, budget, |names|, visited);
    assert names[..|names|] == names;
    PropertiesWithin(h, j, v, names);
    assert TruncatedEntries(v.entries, budget, names) == Truncate(v, budget + 1).value.entries;
  }

  lemma {:induction false} PropertiesWithin(h: Heap, j: JsValue, v: Value, names: seq<string>)
    requires v.Dictionary? && Represents(h, j, v) && forall k :: k in names ==> k in v.entries
    ensures PropertiesFootprint(h, j, v, names) <= Footprint(h, j, v)
  {
    if names == [] {
    } else {
      PropertiesWithin(h, j, v, names[..|names| - 1]);
      assert PropertyFootprint(h, j, v, names[|names| - 1]) <= Footprint(h, j, v);
    }
  }

  lemma TruncatedEntriesStep(m: map<string, Value>, budget: nat, names: seq<string>)
    requires names != [] && names[|names| - 1] in m
    ensures var (name, before) := (names[|names| - 1], TruncatedEntries(m, budget, names[..|names| - 1]));
      TruncatedEntries(m, budget, names)
      == if Truncate(m[name], budget).None? then before else before[name := Truncate(m[name], budget).value]
  {
    assert names == names[..|names| - 1] + [names[|names| - 1]];
  }

  lemma OneMoreEntry(h: Heap, names: seq<string>, props: map<string, Property>, m: map<string, Value>, budget: nat,
                     n: nat, visited: set<Id>)
    requires HeapOk(h) && (forall k :: k in names ==> k in props && InHeap(h, props[k].value))
    requires 0 < n <= |names| && names[n - 1] in m && !props[names[n - 1]].isCallback
    requires var r := FromProperties(DEFAULT_OPTIONS, h, names[..n - 1], props, budget, visited);
      && r.0 == TruncatedEntries(m, budget, names[..n - 1])
      && FromValue(DEFAULT_OPTIONS, h, props[names[n - 1]].value, budget, r.1).value
         == Truncate(m[names[n - 1]], budget)
    ensures var r := FromProperties(DEFAULT_OPTIONS, h, names[..n - 1], props, budget, visited);
      FromProperties(DEFAULT_OPTIONS, h, names[..n], props, budget, visited)
      == (TruncatedEntries(m, budget, names[..n]),
          FromValue(DEFAULT_OPTIONS, h, props[names[n - 1]].value, budget, r.1).visited)
  {
    assert names[..n][..n - 1] == names[..n - 1];
    TruncatedEntriesStep(m, budget, names[..n]);
  }

  lemma RepresentedEntry(h: Heap, j: JsValue, v: Value, n: nat)
    requires v.Dictionary? && Represents(h, j, v) && ObjectOk(h, h[j.id]) && n < |h[j.id].names|
    ensures var (names, props, k) := (h[j.id].names, h[j.id].props, h[j.id].names[n]);
      && k in v.entries && k in props && !props[k].isCallback && k !in names[..n]
      && InHeap(h, props[k].value) && Represents(h, props[k].value, v.entries[k])
      && PropertyFootprint(h, j, v, k) == Footprint(h, props[k].value, v.entries[k])
      && forall k :: k in names ==> k in v.entries && k in props && InHeap(h, props[k].value)
  {
    assert h[j.id].names[n] in h[j.id].names;
  }

  /** What the earlier properties have marked is not part of the next one. */
  lemma NextPropertyApart(h: Heap, j: JsValue, v: Value, names: seq<string>, k: string, visited: set<Id>,
                          index: set<Id>)
    requires v.Dictionary? && Represents(h, j, v) && k in v.entries && k !in names
    requires forall k :: k in names ==> k in v.entries
    requires Footprint(h, j, v) !! visited && index <= visited + {j.id} + PropertiesFootprint(h, j, v, names)
    ensures PropertyFootprint(h, j, v, k) !! index
  {
    PropertiesApart(h, j, v, names, k);
  }

  lemma OneMoreFootprint(h: Heap, j: JsValue, v: Value, names: seq<string>, n: nat)
    requires j.JsRef? && j.id in h && v.Dictionary? && (forall k :: k in names ==> k in v.entries)
    requires 0 < n <= |names|
    ensures PropertiesFootprint(h, j, v, names[..n])
         == PropertiesFootprint(h, j, v, names[..n - 1]) + PropertyFootprint(h, j, v, names[n - 1])
  {
    assert names[..n][..n - 1] == names[..n - 1];
  }

  lemma {:induction false} FromCopiedProperties(h: Heap, j: JsValue, v: Value, budget: nat, n: nat, visited: set<Id>)
    requires HeapOk(h) && InHeap(h, j) && WellFormed(v) && v.Dictionary?
    requires Represents(h, j, v) && Footprint(h, j, v) !! visited && n <= |h[j.id].names|
    requires ObjectOk(h, h[j.id])
    ensures var names := h[j.id].names[..n];
      var r := FromProperties(DEFAULT_OPTIONS, h, names, h[j.id].props, budget, visited + {j.id});
      && r.0 == TruncatedEntries(v.entries, budget, names)
      && r.1 <= visited + {j.id} + PropertiesFootprint(h, j, v, names)
    decreases v, 0, n
  {
    if n == 0 {
    } else {
      var (names, props) := (h[j.id].names, h[j.id].props);
      var name := names[n - 1];
      RepresentedEntry(h, j, v, n - 1);
      FromCopiedProperties(h, j, v, budget, n - 1, visited);
      var r := FromProperties(DEFAULT_OPTIONS, h, names[..n - 1], props, budget, visited + {j.id});
      NextPropertyApart(h, j, v, names[..n - 1], name, visited, r.1);
      FromCopy(h, props[name].value, v.entries[name], budget, r.1);
      OneMoreEntry(h, names, props, v.entries, budget, n, visited + {j.id});
      OneMoreFootprint(h, j, v, names, n);
    }
  }

  /** A tree survives unchanged exactly when it fits the levels and holds nothing JavaScript cannot express. */
  lemma {:induction false} TruncateIsIdentity(v: Value, n: nat)
    ensures Truncate(v, n) == Some(v) <==> FitsLevels(v, n) && JsonLike(v)
    decreases v
  {
    if n == 0 {
    } else {
      if v.List? {
        forall i | 0 <= i < |v.items| ensures Survives(v.items[i], n - 1) {
          TruncateIsIdentity(v.items[i], n - 1);
        }
        TruncateListIsIdentity(v.items, n);
      } else if v.Dictionary? {
        forall k | k in v.entries ensures Survives(v.entries[k], n - 1) {
          TruncateIsIdentity(v.entries[k], n - 1);
        }
        TruncateDictionaryIsIdentity(v.entries, n);
      }
    }
  }

  ghost predicate Survives(v: Value, n: nat) {
    Truncate(v, n) == Some(v) <==> FitsLevels(v, n) && JsonLike(v)
  }

  lemma TruncateListIsIdentity(items: seq<Value>, n: nat)
    requires n > 0 && forall i :: 0 <= i < |items| ==> Survives(items[i], n - 1)
    ensures Survives(List(items), n)
  {
    var t := Truncate(List(items), n).value.items;
    forall i | 0 <= i < |items|
      ensures t[i] == items[i] <==> (items[i] == Null || FitsLevels(items[i], n - 1)) && JsonLike(items[i])
    {
      assert Survives(items[i], n - 1);
    }
    assert t == items <==> forall i :: 0 <= i < |items| ==> t[i] == items[i];
  }

  lemma TruncateDictionaryIsIdentity(m: map<string, Value>, n: nat)
    requires n > 0 && forall k :: k in m ==> Survives(m[k], n - 1)
    ensures Survives(Dictionary(m), n)
  {
    var t := Truncate(Dictionary(m), n).value.entries;
    forall k | k in m
      ensures (k in t && t[k] == m[k]) <==> FitsLevels(m[k], n - 1) && JsonLike(m[k])
    {
      assert Survives(m[k], n - 1);
    }
    assert t == m <==> forall k :: k in m ==> k in t && t[k] == m[k];
  }
}
