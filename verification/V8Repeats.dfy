/** Objects that stand at several places: only the first is expanded. */
module V8Repeats {
  import opened Wrappers
  import opened BaseValues
  import opened V8Heap
  import opened V8FromValue
  import opened V8FromValueLemmas

  /** Converted through its elements or properties, rather than refused or turned into a leaf. */
  predicate Expandable(o: Options, h: Heap, id: Id)
    requires id in h
  {
    match h[id]
    case Array(_) => true
    case Object(Plain, _, _) => true
    case Object(Date(_), _, _) => !o.dateAllowed
    case Object(RegExp(_), _, _) => !o.regExpAllowed
    case Object(Function, _, _) => o.functionAllowed
  }

  lemma ObjectMarksItself(o: Options, h: Heap, id: Id, budget: nat, visited: set<Id>)
    requires HeapOk(h) && id in h && visited <= h.Keys
    ensures var c := FromObject(o, h, id, budget, visited);
      c.value.Some? && (c.value.value == Null <==> id in visited) && id in c.visited
  {
    if id !in visited {
      assert ObjectOk(h, h[id]);
      match h[id]
      case Array(elements) => FromElementsExpandsOnce(o, h, elements, budget, visited + {id});
      case Object(_, names, props) => FromPropertiesExpandsOnce(o, h, names, props, budget, visited + {id});
    }
  }

  lemma ExpandableIsExpanded(o: Options, h: Heap, id: Id, budget: nat, visited: set<Id>)
    requires HeapOk(h) && id in h && Expandable(o, h, id) && budget > 0
    ensures FromValue(o, h, JsRef(id), budget, visited) == FromObject(o, h, id, budget - 1, visited)
  {}

  /** Within the depth limit, an object reads as null exactly when it was met before, and has been met then. */
  lemma MetBeforeIsNull(o: Options, h: Heap, id: Id, budget: nat, visited: set<Id>)
    requires HeapOk(h) && id in h && visited <= h.Keys && Expandable(o, h, id) && budget > 0
    ensures var c := FromValue(o, h, JsRef(id), budget, visited);
      c.value.Some? && (c.value.value == Null <==> id in visited) && id in c.visited
  {
    ExpandableIsExpanded(o, h, id, budget, visited);
    ObjectMarksItself(o, h, id, budget - 1, visited);
  }

  lemma LastElement(o: Options, h: Heap, elements: seq<Option<JsValue>>, budget: nat, visited: set<Id>)
    requires HeapOk(h) && ObjectOk(h, Array(elements)) && visited <= h.Keys && elements != []
    ensures var (before, after) := (FromElements(o, h, elements[..|elements| - 1], budget, visited),
                                    FromElements(o, h, elements, budget, visited));
      before.0 <= after.0 && before.1 <= after.1 <= h.Keys
  {
    var last := |elements| - 1;
    var before := FromElements(o, h, elements[..last], budget, visited);
    FromElementsExpandsOnce(o, h, elements[..last], budget, visited);
    if elements[last].Some? {
      FromValueExpandsOnce(o, h, elements[last].value, budget, before.1);
    }
  }

  /** What the first elements lead to is not affected by later ones. */
  lemma {:induction false} EarlierElements(o: Options, h: Heap, elements: seq<Option<JsValue>>, budget: nat,
                                           visited: set<Id>, n: nat)
    requires HeapOk(h) && ObjectOk(h, Array(elements)) && visited <= h.Keys && n <= |elements|
    ensures var (before, after) := (FromElements(o, h, elements[..n], budget, visited),
                                    FromElements(o, h, elements, budget, visited));
      before.0 <= after.0 && before.1 <= after.1 <= h.Keys
    decreases |elements|
  {
    if n == |elements| {
      assert elements[..n] == elements;
      FromElementsExpandsOnce(o, h, elements, budget, visited);
    } else {
      var last := |elements| - 1;
      assert elements[..last][..n] == elements[..n];
      EarlierElements(o, h, elements[..last], budget, visited, n);
      LastElement(o, h, elements, budget, visited);
    }
  }

  /** The object is the element at `i`. */
  predicate ElementIs(elements: seq<Option<JsValue>>, i: nat, id: Id) {
    i < |elements| && elements[i] == Some(JsRef(id))
  }

  /** An element of an array reads as null exactly when the object was met by then. */
  lemma MetElementIsNull(o: Options, h: Heap, elements: seq<Option<JsValue>>, budget: nat, visited: set<Id>,
                         i: nat, id: Id)
    requires HeapOk(h) && ObjectOk(h, Array(elements)) && visited <= h.Keys
    requires budget > 0 && ElementIs(elements, i, id) && id in h && Expandable(o, h, id)
    ensures var (before, after) := (FromElements(o, h, elements[..i], budget, visited),
                                    FromElements(o, h, elements[..i + 1], budget, visited));
      && |after.0| == |before.0| + 1
      && (after.0[|before.0|] == Null <==> id in before.1)
      && id in after.1
  {
    EarlierElements(o, h, elements[..i], budget, visited, 0);
    assert elements[..i + 1][..i] == elements[..i];
    MetBeforeIsNull(o, h, id, budget, FromElements(o, h, elements[..i], budget, visited).1);
  }

  lemma ElementStaysMet(o: Options, h: Heap, elements: seq<Option<JsValue>>, budget: nat, visited: set<Id>,
                        i: nat, j: nat, id: Id)
    requires HeapOk(h) && ObjectOk(h, Array(elements)) && visited <= h.Keys
    requires budget > 0 && i < j <= |elements| && ElementIs(elements, i, id) && id in h && Expandable(o, h, id)
    ensures id in FromElements(o, h, elements[..j], budget, visited).1
  {
    MetElementIsNull(o, h, elements, budget, visited, i, id);
    assert elements[..j][..i + 1] == elements[..i + 1];
    EarlierElements(o, h, elements[..j], budget, visited, i + 1);
  }

  /** An object at two places of an array, within the depth limit: the later place holds null. */
  lemma RepeatedElementIsNull(o: Options, h: Heap, elements: seq<Option<JsValue>>, budget: nat, visited: set<Id>,
                              i: nat, j: nat, id: Id)
    requires HeapOk(h) && ObjectOk(h, Array(elements)) && visited <= h.Keys
    requires budget > 0 && i < j && ElementIs(elements, i, id) && ElementIs(elements, j, id)
    requires id in h && Expandable(o, h, id)
    ensures var (items, place) := (FromElements(o, h, elements, budget, visited).0, |Present(elements[..j])|);
      place < |items| && items[place] == Null
  {
    ElementStaysMet(o, h, elements, budget, visited, i, j, id);
    MetElementIsNull(o, h, elements, budget, visited, j, id);
    EarlierElements(o, h, elements, budget, visited, j + 1);
    ElementsKeepTheirPlaces(o, h, elements[..j], budget, visited);
  }

  /** The two agree on the names. */
  predicate SameUnder(names: seq<string>, a: map<string, Value>, b: map<string, Value>) {
    forall k :: k in names ==> (k in a <==> k in b) && (k in a ==> a[k] == b[k])
  }

  lemma LastProperty(o: Options, h: Heap, names: seq<string>, props: map<string, Property>, budget: nat,
                     visited: set<Id>)
    requires HeapOk(h) && visited <= h.Keys && NamesOk(h, names, props) && names != []
    ensures var rest := names[..|names| - 1];
      var (before, after) := (FromProperties(o, h, rest, props, budget, visited),
                              FromProperties(o, h, names, props, budget, visited));
      before.1 <= after.1 <= h.Keys && SameUnder(rest, before.0, after.0)
  {
    var last := |names| - 1;
    var before := FromProperties(o, h, names[..last], props, budget, visited);
    FromPropertiesExpandsOnce(o, h, names[..last], props, budget, visited);
    if !props[names[last]].isCallback {
      FromValueExpandsOnce(o, h, props[names[last]].value, budget, before.1);
    }
  }

  /** What the first properties lead to is not affected by later ones. */
  lemma {:induction false} EarlierProperties(o: Options, h: Heap, names: seq<string>, props: map<string, Property>,
                                             budget: nat, visited: set<Id>, n: nat)
    requires HeapOk(h) && visited <= h.Keys && NamesOk(h, names, props) && n <= |names|
    ensures var (before, after) := (FromProperties(o, h, names[..n], props, budget, visited),
                                    FromProperties(o, h, names, props, budget, visited));
      before.1 <= after.1 <= h.Keys && SameUnder(names[..n], before.0, after.0)
    decreases |names|
  {
    if n == |names| {
      assert names[..n] == names;
      FromPropertiesExpandsOnce(o, h, names, props, budget, visited);
    } else {
      var last := |names| - 1;
      assert names[..last][..n] == names[..n];
      EarlierProperties(o, h, names[..last], props, budget, visited, n);
      LastProperty(o, h, names, props, budget, visited);
      assert forall k :: k in names[..n] ==> k in names[..last];
    }
  }

  /** The object is the value of the property at `i`, which is no callback. */
  predicate PropertyIs(names: seq<string>, props: map<string, Property>, i: nat, id: Id) {
    i < |names| && names[i] in props && props[names[i]] == Property(JsRef(id), false)
  }

  predicate NullOrStripped(o: Options, entries: map<string, Value>, k: string) {
    if o.stripNull then k !in entries else k in entries && entries[k] == Null
  }

  /** A property is null, or stripped, exactly when the object was met by then. */
  lemma MetPropertyIsNull(o: Options, h: Heap, names: seq<string>, props: map<string, Property>, budget: nat,
                          visited: set<Id>, i: nat, id: Id)
    requires HeapOk(h) && visited <= h.Keys && NamesOk(h, names, props)
    requires budget > 0 && PropertyIs(names, props, i, id) && id in h && Expandable(o, h, id)
    ensures var (before, after) := (FromProperties(o, h, names[..i], props, budget, visited),
                                    FromProperties(o, h, names[..i + 1], props, budget, visited));
      && (id in before.1 ==> NullOrStripped(o, after.0, names[i]))
      && (id !in before.1 ==> names[i] in after.0 && after.0[names[i]] != Null)
      && id in after.1
  {
    FromPropertiesExpandsOnce(o, h, names[..i], props, budget, visited);
    assert names[..i + 1][..i] == names[..i];
    MetBeforeIsNull(o, h, id, budget, FromProperties(o, h, names[..i], props, budget, visited).1);
  }

  lemma PropertyStaysMet(o: Options, h: Heap, names: seq<string>, props: map<string, Property>, budget: nat,
                         visited: set<Id>, i: nat, j: nat, id: Id)
    requires HeapOk(h) && visited <= h.Keys && NamesOk(h, names, props)
    requires budget > 0 && i < j <= |names| && PropertyIs(names, props, i, id) && id in h && Expandable(o, h, id)
    ensures id in FromProperties(o, h, names[..j], props, budget, visited).1
  {
    MetPropertyIsNull(o, h, names, props, budget, visited, i, id);
    assert names[..j][..i + 1] == names[..i + 1];
    EarlierProperties(o, h, names[..j], props, budget, visited, i + 1);
  }

  /** An object at two properties, within the depth limit: the later one holds null, or is left out when nulls
      are stripped. */
  lemma RepeatedPropertyIsNull(o: Options, h: Heap, names: seq<string>, props: map<string, Property>, budget: nat,
                               visited: set<Id>, i: nat, j: nat, id: Id)
    requires HeapOk(h) && visited <= h.Keys && NamesOk(h, names, props)
    requires budget > 0 && i < j && PropertyIs(names, props, i, id) && PropertyIs(names, props, j, id)
    requires id in h && Expandable(o, h, id)
    ensures NullOrStripped(o, FromProperties(o, h, names, props, budget, visited).0, names[j])
  {
    PropertyStaysMet(o, h, names, props, budget, visited, i, j, id);
    MetPropertyIsNull(o, h, names, props, budget, visited, j, id);
    EarlierProperties(o, h, names, props, budget, visited, j + 1);
    assert names[..j + 1][j] == names[j];
  }
}
