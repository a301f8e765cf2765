/** When results stay strictly within the depth limit. */
module V8Limits {
  import opened Wrappers
  import opened BaseValues
  import opened V8Heap
  import opened V8FromValue
  import opened V8FromValueLemmas
  import opened V8Represents

  /** The tree has at most `n` levels, without exception. */
  ghost predicate StrictlyFits(v: Value, n: int) {
    n > 0 &&
    match v
    case List(items) => forall i :: 0 <= i < |items| ==> StrictlyFits(items[i], n - 1)
    case Dictionary(m) => forall k :: k in m ==> StrictlyFits(m[k], n - 1)
    case _ => true
  }

  /** Lists on level `n`, if any, are empty. */
  ghost predicate ListsEmptyAt(v: Value, n: int) {
    match v
    case List(items) => if n == 1 then items == [] else forall i :: 0 <= i < |items| ==> ListsEmptyAt(items[i], n - 1)
    case Dictionary(m) => n > 1 ==> forall k :: k in m ==> ListsEmptyAt(m[k], n - 1)
    case _ => true
  }

  /** A tree that comes back has at most the allowed number of levels exactly when the lists on the last level
      were empty; others come back with nulls one level below. */
  lemma {:induction false} TruncatedStrictlyFits(v: Value, n: nat)
    requires n > 0
    ensures StrictlyFits(Truncate(v, n).value, n) <==> ListsEmptyAt(v, n)
    decreases v
  {
    match v
    case List(items) =>
      var t := Truncate(v, n).value.items;
      if n == 1 {
        assert items != [] ==> t[0] == Null && !StrictlyFits(t[0], 0);
      } else {
        forall i | 0 <= i < |items| ensures StrictlyFits(t[i], n - 1) <==> ListsEmptyAt(items[i], n - 1) {
          TruncatedStrictlyFits(items[i], n - 1);
        }
      }
    case Dictionary(m) =>
      var t := Truncate(v, n).value.entries;
      if n == 1 {
        assert forall k :: k !in t;
      } else {
        forall k | k in m ensures k in t && (StrictlyFits(t[k], n - 1) <==> ListsEmptyAt(m[k], n - 1)) {
          TruncatedStrictlyFits(m[k], n - 1);
        }
      }
    case _ =>
  }

  /** An integer in `n` nested lists. */
  function Nested(n: nat): Value {
    if n == 0 then Integer(0) else List([Nested(n - 1)])
  }

  lemma {:induction false} NestedListsNotEmpty(n: nat)
    requires n > 0
    ensures !ListsEmptyAt(Nested(n), n)
  {
    if n == 1 {
      assert Nested(1).items == [Integer(0)];
    } else {
      NestedListsNotEmpty(n - 1);
      assert Nested(n).items[0] == Nested(n - 1);
    }
  }

  /** At the source's limit, nested lists come back with a null below the last level. */
  lemma NullBelowTheLimit()
    ensures !StrictlyFits(Truncate(Nested(MAX_RECURSION_DEPTH), MAX_RECURSION_DEPTH).value, MAX_RECURSION_DEPTH)
  {
    NestedListsNotEmpty(MAX_RECURSION_DEPTH);
    TruncatedStrictlyFits(Nested(MAX_RECURSION_DEPTH), MAX_RECURSION_DEPTH);
  }

  // ---- On any heap

  /** No chain of `n` objects from `v`, each an element or property of the one before, ends in an array that has
      an element. */
  ghost predicate NoArrayAt(h: Heap, v: JsValue, n: nat)
    decreases n
  {
    v.JsRef? && v.id in h && n > 0 ==>
      match h[v.id]
      case Array(elements) =>
        forall i :: 0 <= i < |elements| && elements[i].Some? ==> n > 1 && NoArrayAt(h, elements[i].value, n - 1)
      case Object(_, names, props) =>
        n > 1 ==> forall k :: k in props ==> NoArrayAt(h, props[k].value, n - 1)
  }

  ghost predicate ElementsEnd(h: Heap, elements: seq<Option<JsValue>>, budget: nat) {
    forall i :: 0 <= i < |elements| && elements[i].Some? ==> budget > 0 && NoArrayAt(h, elements[i].value, budget)
  }

  ghost predicate PropertiesEnd(h: Heap, names: seq<string>, props: map<string, Property>, budget: nat) {
    forall k :: k in names ==> k in props && InHeap(h, props[k].value)
                               && (budget > 0 ==> NoArrayAt(h, props[k].value, budget))
  }

  /** On any heap, the result has at most the allowed number of levels if no chain that long ends in an array
      with an element. */
  lemma {:induction false} FromValueStrictlyFits(o: Options, h: Heap, v: JsValue, budget: nat, visited: set<Id>)
    requires HeapOk(h) && InHeap(h, v) && NoArrayAt(h, v, budget)
    ensures var c := FromValue(o, h, v, budget, visited); c.value.Some? ==> StrictlyFits(c.value.value, budget)
    decreases budget, 0, 0
  {
    if budget > 0 && v.JsRef? {
      FromObjectStrictlyFits(o, h, v.id, budget - 1, visited);
    }
    FromValueCases(o, h, v, budget, visited);
  }

  lemma {:induction false} FromObjectStrictlyFits(o: Options, h: Heap, id: Id, budget: nat, visited: set<Id>)
    requires HeapOk(h) && id in h && NoArrayAt(h, JsRef(id), budget + 1)
    ensures var c := FromObject(o, h, id, budget, visited); c.value.Some? && StrictlyFits(c.value.value, budget + 1)
    decreases budget, 2, 0
  {
    if id !in visited {
      assert ObjectOk(h, h[id]);
      match h[id]
      case Array(elements) => ElementsStrictlyFit(o, h, elements, budget, visited + {id});
      case Object(_, names, props) => PropertiesStrictlyFit(o, h, names, props, budget, visited + {id});
    }
  }

  lemma {:induction false} ElementsStrictlyFit(o: Options, h: Heap, elements: seq<Option<JsValue>>, budget: nat,
                                               visited: set<Id>)
    requires HeapOk(h) && ObjectOk(h, Array(elements)) && ElementsEnd(h, elements, budget)
    ensures StrictlyFits(List(FromElements(o, h, elements, budget, visited).0), budget + 1)
    decreases budget, 1, |elements|
  {
    if elements == [] {
    } else {
      var last := |elements| - 1;
      ElementsStrictlyFit(o, h, elements[..last], budget, visited);
      if elements[last].Some? {
        var r := FromElements(o, h, elements[..last], budget, visited);
        FromValueStrictlyFits(o, h, elements[last].value, budget, r.1);
      }
    }
  }

  lemma {:induction false} PropertiesStrictlyFit(o: Options, h: Heap, names: seq<string>, props: map<string, Property>,
                                                 budget: nat, visited: set<Id>)
    requires HeapOk(h) && PropertiesEnd(h, names, props, budget)
    ensures StrictlyFits(Dictionary(FromProperties(o, h, names, props, budget, visited).0), budget + 1)
    decreases budget, 1, |names|
  {
    if names == [] {
    } else {
      var last := |names| - 1;
      PropertiesStrictlyFit(o, h, names[..last], props, budget, visited);
      if !props[names[last]].isCallback && budget > 0 {
        var r := FromProperties(o, h, names[..last], props, budget, visited);
        FromValueStrictlyFits(o, h, props[names[last]].value, budget, r.1);
      }
    }
  }
}
