/** What arrays, objects and special objects read as, said about their slots and properties one by one. */
module V8Reads {
  import opened Wrappers
  import opened BaseValues
  import opened V8Heap
  import opened V8FromValue
  import opened V8FromValueLemmas

  ghost predicate Increasing(s: seq<nat>) {
    forall i, j :: 0 <= i < j < |s| ==> s[i] < s[j]
  }

  // ---- Arrays

  /** `at` lists, in order, the slots that are no holes. */
  ghost predicate Filled(elements: seq<Option<JsValue>>, at: seq<nat>) {
    && Increasing(at)
    && (forall i :: 0 <= i < |at| ==> at[i] < |elements| && elements[at[i]].Some?)
    && (forall k :: 0 <= k < |elements| && elements[k].Some? ==> k in at)
  }

  /** The conversion of slot `k` with the objects met so far. */
  function SlotRead(o: Options, h: Heap, elements: seq<Option<JsValue>>, k: nat, budget: nat, met: set<Id>): Converted
    requires HeapOk(h) && ObjectOk(h, Array(elements)) && k < |elements| && elements[k].Some?
  {
    FromValue(o, h, elements[k].value, budget, met)
  }

  /** Slot `k` is converted with the objects met before it, and that is the item. */
  ghost predicate SlotStep(o: Options, h: Heap, elements: seq<Option<JsValue>>, k: nat, budget: nat, met: set<Id>,
                           met': set<Id>, item: Value)
    requires HeapOk(h) && ObjectOk(h, Array(elements)) && k < |elements| && elements[k].Some?
  {
    var c := SlotRead(o, h, elements, k, budget, met);
    met' == c.visited && item == OrNull(c.value)
  }

  /** Slot after slot is converted, each with the objects met before it, and has its place in the list. */
  ghost predicate SlotsRead(o: Options, h: Heap, elements: seq<Option<JsValue>>, at: seq<nat>, budget: nat,
                            met: seq<set<Id>>, items: seq<Value>)
    requires HeapOk(h) && ObjectOk(h, Array(elements)) && Filled(elements, at)
  {
    && |met| == |at| + 1 && |items| == |at|
    && forall i :: 0 <= i < |at| ==> SlotStep(o, h, elements, at[i], budget, met[i], met[i + 1], items[i])
  }

  lemma FillOneMore(elements: seq<Option<JsValue>>, at: seq<nat>)
    requires elements != [] && Filled(elements[..|elements| - 1], at)
    ensures elements[|elements| - 1].None? ==> Filled(elements, at)
    ensures elements[|elements| - 1].Some? ==> Filled(elements, at + [|elements| - 1])
  {
    var last := |elements| - 1;
    forall k | 0 <= k < last && elements[k].Some? ensures k in at {
      assert elements[..last][k] == elements[k];
    }
  }

  lemma SlotStepLonger(o: Options, h: Heap, elements: seq<Option<JsValue>>, k: nat, budget: nat, met: set<Id>,
                       met': set<Id>, item: Value)
    requires HeapOk(h) && ObjectOk(h, Array(elements)) && k < |elements| - 1 && elements[k].Some?
    requires SlotStep(o, h, elements[..|elements| - 1], k, budget, met, met', item)
    ensures SlotStep(o, h, elements, k, budget, met, met', item)
  {}

  lemma SlotsReadLonger(o: Options, h: Heap, elements: seq<Option<JsValue>>, at: seq<nat>, budget: nat,
                        met: seq<set<Id>>, items: seq<Value>)
    requires HeapOk(h) && ObjectOk(h, Array(elements)) && elements != []
    requires Filled(elements[..|elements| - 1], at) && Filled(elements, at)
    requires SlotsRead(o, h, elements[..|elements| - 1], at, budget, met, items)
    ensures SlotsRead(o, h, elements, at, budget, met, items)
  {
    forall i | 0 <= i < |at| ensures SlotStep(o, h, elements, at[i], budget, met[i], met[i + 1], items[i]) {
      SlotStepLonger(o, h, elements, at[i], budget, met[i], met[i + 1], items[i]);
    }
  }

  lemma SlotsReadOneMore(o: Options, h: Heap, elements: seq<Option<JsValue>>, at: seq<nat>, budget: nat,
                         met: seq<set<Id>>, items: seq<Value>, met': set<Id>, item: Value)
    requires HeapOk(h) && ObjectOk(h, Array(elements)) && elements != []
    requires Filled(elements[..|elements| - 1], at) && elements[|elements| - 1].Some?
    requires SlotsRead(o, h, elements[..|elements| - 1], at, budget, met, items)
    requires Filled(elements, at + [|elements| - 1])
    requires SlotStep(o, h, elements, |elements| - 1, budget, met[|at|], met', item)
    ensures SlotsRead(o, h, elements, at + [|elements| - 1], budget, met + [met'], items + [item])
  {
    var (at1, met1, items1) := (at + [|elements| - 1], met + [met'], items + [item]);
    forall i | 0 <= i < |at1| ensures SlotStep(o, h, elements, at1[i], budget, met1[i], met1[i + 1], items1[i]) {
      if i < |at| {
        SlotStepLonger(o, h, elements, at[i], budget, met[i], met[i + 1], items[i]);
      }
    }
  }

  lemma {:induction false} ElementsRead(o: Options, h: Heap, elements: seq<Option<JsValue>>, budget: nat,
                                        visited: set<Id>) returns (at: seq<nat>, met: seq<set<Id>>)
    requires HeapOk(h) && ObjectOk(h, Array(elements))
    ensures Filled(elements, at)
    ensures var r := FromElements(o, h, elements, budget, visited);
      SlotsRead(o, h, elements, at, budget, met, r.0) && met[0] == visited && met[|at|] == r.1
    decreases |elements|
  {
    if elements == [] {
      at, met := [], [visited];
    } else {
      var last := |elements| - 1;
      at, met := ElementsRead(o, h, elements[..last], budget, visited);
      var r := FromElements(o, h, elements[..last], budget, visited);
      FillOneMore(elements, at);
      if elements[last].None? {
        SlotsReadLonger(o, h, elements, at, budget, met, r.0);
      } else {
        var c := SlotRead(o, h, elements, last, budget, met[|at|]);
        SlotsReadOneMore(o, h, elements, at, budget, met, r.0, c.visited, OrNull(c.value));
        at, met := at + [last], met + [c.visited];
      }
    }
  }

  /** An array not met before reads as a list with one place for every slot that is no hole, in order; each holds
      what its value reads as when everything before has been read, or null. */
  lemma ArrayReads(o: Options, h: Heap, id: Id, budget: nat, visited: set<Id>)
    returns (at: seq<nat>, met: seq<set<Id>>, items: seq<Value>)
    requires HeapOk(h) && id in h && h[id].Array? && id !in visited
    ensures ObjectOk(h, Array(h[id].elements)) && Filled(h[id].elements, at)
    ensures SlotsRead(o, h, h[id].elements, at, budget, met, items) && met[0] == visited + {id}
    ensures FromObject(o, h, id, budget, visited) == Converted(Some(List(items)), met[|at|])
  {
    assert ObjectOk(h, h[id]);
    at, met := ElementsRead(o, h, h[id].elements, budget, visited + {id});
    items := FromElements(o, h, h[id].elements, budget, visited + {id}).0;
  }

  // ---- Objects

  /** `at` lists, in order, the properties that are no callbacks. */
  ghost predicate Readable(names: seq<string>, props: map<string, Property>, at: seq<nat>) {
    && Increasing(at)
    && (forall i :: 0 <= i < |at| ==> at[i] < |names| && IsReadable(names, props, at[i]))
    && (forall k :: 0 <= k < |names| && IsReadable(names, props, k) ==> k in at)
  }

  predicate IsReadable(names: seq<string>, props: map<string, Property>, k: nat)
    requires k < |names|
  {
    names[k] in props && !props[names[k]].isCallback
  }

  function PropertyRead(o: Options, h: Heap, names: seq<string>, props: map<string, Property>, k: nat, budget: nat,
                        met: set<Id>): Converted
    requires HeapOk(h) && k < |names| && names[k] in props && InHeap(h, props[names[k]].value)
  {
    FromValue(o, h, props[names[k]].value, budget, met)
  }

  /** The entry under a name is what its value reads as; there is none if it reads as nothing, or as a null that
      is to be stripped. */
  predicate EntryIs(o: Options, entries: map<string, Value>, name: string, v: Option<Value>) {
    if v.None? || (o.stripNull && v.value == Null) then name !in entries
    else name in entries && entries[name] == v.value
  }

  /** Property `k` is converted with the objects met before it, and that is its entry. */
  ghost predicate PropertyStep(o: Options, h: Heap, names: seq<string>, props: map<string, Property>, k: nat,
                               budget: nat, met: set<Id>, met': set<Id>, entries: map<string, Value>)
    requires HeapOk(h) && k < |names| && names[k] in props && InHeap(h, props[names[k]].value)
  {
    var c := PropertyRead(o, h, names, props, k, budget, met);
    met' == c.visited && EntryIs(o, entries, names[k], c.value)
  }

  ghost predicate PropertiesRead(o: Options, h: Heap, names: seq<string>, props: map<string, Property>, at: seq<nat>,
                                 budget: nat, met: seq<set<Id>>, entries: map<string, Value>)
    requires HeapOk(h) && NamesOk(h, names, props) && Readable(names, props, at)
  {
    && |met| == |at| + 1
    && (forall i :: 0 <= i < |at| ==> PropertyStep(o, h, names, props, at[i], budget, met[i], met[i + 1], entries))
    && (forall k :: k in entries ==> k in names && !props[k].isCallback)
  }

  lemma ReadOneMore(names: seq<string>, props: map<string, Property>, at: seq<nat>)
    requires names != [] && Readable(names[..|names| - 1], props, at)
    ensures if IsReadable(names, props, |names| - 1) then Readable(names, props, at + [|names| - 1])
            else Readable(names, props, at)
  {
    var last := |names| - 1;
    forall k | 0 <= k < last && IsReadable(names, props, k) ensures k in at {
      assert IsReadable(names[..last], props, k);
    }
    forall i | 0 <= i < |at| ensures IsReadable(names, props, at[i]) {
      assert IsReadable(names[..last], props, at[i]);
    }
  }

  lemma PropertyStepLonger(o: Options, h: Heap, names: seq<string>, props: map<string, Property>, k: nat,
                           budget: nat, met: set<Id>, met': set<Id>, entries: map<string, Value>)
    requires HeapOk(h) && NamesOk(h, names, props) && k < |names| - 1 && NamesOk(h, names[..|names| - 1], props)
    requires PropertyStep(o, h, names[..|names| - 1], props, k, budget, met, met', entries)
    ensures PropertyStep(o, h, names, props, k, budget, met, met', entries)
  {
    assert names[..|names| - 1][k] == names[k];
  }

  /** A last property that is a callback adds nothing. */
  lemma PropertiesReadLonger(o: Options, h: Heap, names: seq<string>, props: map<string, Property>, at: seq<nat>,
                             budget: nat, met: seq<set<Id>>, entries: map<string, Value>)
    requires HeapOk(h) && NamesOk(h, names, props) && names != [] && NamesOk(h, names[..|names| - 1], props)
    requires Readable(names[..|names| - 1], props, at) && Readable(names, props, at)
    requires PropertiesRead(o, h, names[..|names| - 1], props, at, budget, met, entries)
    ensures PropertiesRead(o, h, names, props, at, budget, met, entries)
  {
    forall i | 0 <= i < |at| ensures PropertyStep(o, h, names, props, at[i], budget, met[i], met[i + 1], entries) {
      PropertyStepLonger(o, h, names, props, at[i], budget, met[i], met[i + 1], entries);
    }
  }

  /** Reading a property of another name does not touch the entry. */
  lemma PropertyStepKept(o: Options, h: Heap, names: seq<string>, props: map<string, Property>, k: nat, budget: nat,
                         met: set<Id>, met': set<Id>, entries: map<string, Value>, other: string, w: Option<Value>)
    requires HeapOk(h) && NamesOk(h, names, props) && k < |names| && names[k] != other
    requires PropertyStep(o, h, names, props, k, budget, met, met', entries)
    ensures PropertyStep(o, h, names, props, k, budget, met, met', WithEntry(o, entries, other, w))
  {}

  function WithEntry(o: Options, entries: map<string, Value>, name: string, v: Option<Value>): map<string, Value> {
    if Dropped(o, v) then entries else entries[name := v.value]
  }

  lemma PropertiesReadOneMore(o: Options, h: Heap, names: seq<string>, props: map<string, Property>, at: seq<nat>,
                              budget: nat, met: seq<set<Id>>, entries: map<string, Value>)
    requires HeapOk(h) && NamesOk(h, names, props) && names != [] && NamesOk(h, names[..|names| - 1], props)
    requires IsReadable(names, props, |names| - 1)
    requires Readable(names[..|names| - 1], props, at) && Readable(names, props, at + [|names| - 1])
    requires PropertiesRead(o, h, names[..|names| - 1], props, at, budget, met, entries)
    ensures var c := PropertyRead(o, h, names, props, |names| - 1, budget, met[|at|]);
      PropertiesRead(o, h, names, props, at + [|names| - 1], budget, met + [c.visited],
                     WithEntry(o, entries, names[|names| - 1], c.value))
  {
    var last := |names| - 1;
    var c := PropertyRead(o, h, names, props, last, budget, met[|at|]);
    var (at1, met1, entries') := (at + [last], met + [c.visited], WithEntry(o, entries, names[last], c.value));
    LastNameIsNew(names);
    forall i | 0 <= i < |at1|
      ensures PropertyStep(o, h, names, props, at1[i], budget, met1[i], met1[i + 1], entries')
    {
      if i < |at| {
        PropertyStepLonger(o, h, names, props, at[i], budget, met[i], met[i + 1], entries);
        PropertyStepKept(o, h, names, props, at[i], budget, met[i], met[i + 1], entries, names[last], c.value);
      } else {
        assert names[last] !in entries;
      }
    }
    assert forall k :: k in entries' ==> k in names && !props[k].isCallback;
  }

  lemma {:induction false} PropertiesReadAll(o: Options, h: Heap, names: seq<string>, props: map<string, Property>,
                                             budget: nat, visited: set<Id>) returns (at: seq<nat>, met: seq<set<Id>>)
    requires HeapOk(h) && NamesOk(h, names, props)
    ensures Readable(names, props, at)
    ensures var r := FromProperties(o, h, names, props, budget, visited);
      PropertiesRead(o, h, names, props, at, budget, met, r.0) && met[0] == visited && met[|at|] == r.1
    decreases |names|
  {
    if names == [] {
      at, met := [], [visited];
    } else {
      var last := |names| - 1;
      FewerNamesOk(h, names, props);
      at, met := PropertiesReadAll(o, h, names[..last], props, budget, visited);
      var r := FromProperties(o, h, names[..last], props, budget, visited);
      ReadOneMore(names, props, at);
      LastPropertyConverted(o, h, names, props, budget, visited);
      if !IsReadable(names, props, last) {
        PropertiesReadLonger(o, h, names, props, at, budget, met, r.0);
      } else {
        PropertiesReadOneMore(o, h, names, props, at, budget, met, r.0);
        at, met := at + [last], met + [PropertyRead(o, h, names, props, last, budget, met[|at|]).visited];
      }
    }
  }

  /** Any other object not met before reads as a dictionary: property after property that is no callback, what its
      value reads as when everything before has been read; and nothing else. */
  lemma ObjectReads(o: Options, h: Heap, id: Id, budget: nat, visited: set<Id>)
    returns (at: seq<nat>, met: seq<set<Id>>, entries: map<string, Value>)
    requires HeapOk(h) && id in h && h[id].Object? && id !in visited
    ensures NamesOk(h, h[id].names, h[id].props) && Readable(h[id].names, h[id].props, at)
    ensures PropertiesRead(o, h, h[id].names, h[id].props, at, budget, met, entries) && met[0] == visited + {id}
    ensures FromObject(o, h, id, budget, visited) == Converted(Some(Dictionary(entries)), met[|at|])
  {
    assert ObjectOk(h, h[id]);
    at, met := PropertiesReadAll(o, h, h[id].names, h[id].props, budget, visited + {id});
    entries := FromProperties(o, h, h[id].names, h[id].props, budget, visited + {id}).0;
  }

  // ---- Which objects are expanded

  /** Within the depth limit, the options decide: dates read as seconds, patterns as their source, functions not at
      all; otherwise, and for every other object, there is one level less for what is inside. */
  lemma ObjectsByKind(o: Options, h: Heap, id: Id, budget: nat, visited: set<Id>)
    requires HeapOk(h) && id in h && budget > 0
    ensures var c := FromValue(o, h, JsRef(id), budget, visited);
      if h[id].Object? && h[id].kind.Date? && o.dateAllowed then
        && c.value.Some? && c.value.value.Double? && c.visited == visited
        && match h[id].kind.time
           case Finite(milliseconds) => c.value.value.d.Finite? && c.value.value.d.r * 1000.0 == milliseconds
           case other => c.value.value.d == other
      else if h[id].Object? && h[id].kind.RegExp? && o.regExpAllowed then
        c == Converted(Some(String(h[id].kind.source)), visited)
      else if h[id].Object? && h[id].kind.Function? && !o.functionAllowed then
        c == Converted(None, visited)
      else
        c == FromObject(o, h, id, budget - 1, visited)
  {}

  /** Beyond the depth limit nothing is read. */
  lemma TooDeep(o: Options, h: Heap, v: JsValue, visited: set<Id>)
    requires HeapOk(h) && InHeap(h, v)
    ensures FromValue(o, h, v, 0, visited) == Converted(None, visited)
  {}

  /** Primitives read as themselves, whatever the options; a number is an integer exactly when it is integral, not
      a negative zero, and fits 32 bits. */
  lemma PrimitivesRead(o: Options, h: Heap, v: JsValue, budget: nat, visited: set<Id>)
    requires HeapOk(h) && budget > 0
    ensures v.Undefined? ==> FromValue(o, h, v, budget, visited) == Converted(None, visited)
    ensures v.JsNull? ==> FromValue(o, h, v, budget, visited) == Converted(Some(Null), visited)
    ensures v.JsBoolean? ==> FromValue(o, h, v, budget, visited) == Converted(Some(Boolean(v.b)), visited)
    ensures v.JsString? ==> FromValue(o, h, v, budget, visited) == Converted(Some(String(v.s)), visited)
    ensures v.JsNumber? ==>
              var c := FromValue(o, h, v, budget, visited);
              && c.visited == visited && c.value.Some?
              && (forall i: int :: HoldsInt32(v.n, i) ==> c.value.value == Integer(i))
              && ((forall i: int :: !HoldsInt32(v.n, i)) ==> c.value.value == Double(v.n))
  {
    if v.JsNumber? && v.n.Finite? {
      assert IsInt32(v.n) ==> HoldsInt32(v.n, v.n.r.Floor);
    }
  }

  predicate HoldsInt32(n: Number, i: int) {
    n == Finite(i as real) && -0x8000_0000 <= i <= 0x7fff_ffff
  }
}
