/** When a JavaScript value is an unshared copy of a value tree, and what reading it back yields. */
module V8Represents {
  import opened Wrappers
  import opened BaseValues
  import opened V8Heap
  import opened V8FromValue

  /** The objects that a copy of `v` at `j` is made of. */
  ghost function Footprint(h: Heap, j: JsValue, v: Value): set<Id>
    decreases v, 1
  {
    if !(j.JsRef? && j.id in h) then {}
    else match v
      case List(items) =>
        {j.id} + (set i, x | 0 <= i < |items| && x in ElementFootprint(h, j, v, i) :: x)
      case Dictionary(m) =>
        {j.id} + (set k, x | k in m && x in PropertyFootprint(h, j, v, k) :: x)
      case _ => {}
  }

  ghost function ElementFootprint(h: Heap, j: JsValue, v: Value, i: nat): set<Id>
    requires j.JsRef? && j.id in h && v.List? && i < |v.items|
    decreases v, 0
  {
    match h[j.id]
    case Array(elements) =>
      if i < |elements| && elements[i].Some? then Footprint(h, elements[i].value, v.items[i]) else {}
    case _ => {}
  }

  ghost function PropertyFootprint(h: Heap, j: JsValue, v: Value, k: string): set<Id>
    requires j.JsRef? && j.id in h && v.Dictionary? && k in v.entries
    decreases v, 0
  {
    match h[j.id]
    case Object(_, _, props) => if k in props then Footprint(h, props[k].value, v.entries[k]) else {}
    case _ => {}
  }

  /** `j` is a copy of `v` in which no object is shared between two places. */
  ghost predicate Represents(h: Heap, j: JsValue, v: Value)
    decreases v, 1
  {
    match v
    case Null => j == JsNull
    case Binary => j == JsNull
    case Boolean(b) => j == JsBoolean(b)
    case Integer(i) => j == JsNumber(Finite(i as real))
    case Double(d) => j == JsNumber(d)
    case String(s) => j == JsString(s)
    case List(items) =>
      && j.JsRef? && j.id in h && h[j.id].Array? && |h[j.id].elements| == |items|
      && (forall i :: 0 <= i < |items| ==> ElementRepresents(h, h[j.id].elements[i], v, i))
      && (forall i :: 0 <= i < |items| ==> j.id !in ElementFootprint(h, j, v, i))
      && (forall i, i' :: 0 <= i < i' < |items| ==> ElementFootprint(h, j, v, i) !! ElementFootprint(h, j, v, i'))
    case Dictionary(m) =>
      && j.JsRef? && j.id in h && h[j.id].Object? && h[j.id].kind.Plain? && h[j.id].props.Keys == m.Keys
      && (forall k :: k in m ==> !h[j.id].props[k].isCallback)
      && (forall k :: k in m ==> Represents(h, h[j.id].props[k].value, m[k]))
      && (forall k :: k in m ==> j.id !in PropertyFootprint(h, j, v, k))
      && (forall k, k' :: k in m && k' in m && k != k' ==>
            PropertyFootprint(h, j, v, k) !! PropertyFootprint(h, j, v, k'))
  }

  ghost predicate ElementRepresents(h: Heap, e: Option<JsValue>, v: Value, i: nat)
    requires v.List? && i < |v.items|
    decreases v, 0
  {
    e.Some? && Represents(h, e.value, v.items[i])
  }

  /** A copy does not depend on objects outside its footprint. */
  lemma {:induction false} RepresentsFrame(h: Heap, h': Heap, j: JsValue, v: Value)
    requires Represents(h, j, v)
    requires forall x :: x in Footprint(h, j, v) ==> x in h && x in h' && h'[x] == h[x]
    ensures Represents(h', j, v) && Footprint(h', j, v) == Footprint(h, j, v)
    decreases v
  {
    match v
    case List(items) =>
      forall i | 0 <= i < |items|
        ensures ElementRepresents(h', h[j.id].elements[i], v, i)
        ensures ElementFootprint(h', j, v, i) == ElementFootprint(h, j, v, i)
      {
        assert ElementRepresents(h, h[j.id].elements[i], v, i);
        assert ElementFootprint(h, j, v, i) <= Footprint(h, j, v);
        RepresentsFrame(h, h', h[j.id].elements[i].value, items[i]);
      }
    case Dictionary(m) =>
      forall k | k in m
        ensures Represents(h', h[j.id].props[k].value, m[k])
        ensures PropertyFootprint(h', j, v, k) == PropertyFootprint(h, j, v, k)
      {
        assert PropertyFootprint(h, j, v, k) <= Footprint(h, j, v);
        RepresentsFrame(h, h', h[j.id].props[k].value, m[k]);
      }
    case _ =>
  }

  /** Objects of the heap allocated after `id`. */
  ghost predicate Above(h: Heap, id: Id, ids: set<Id>) {
    forall x :: x in ids ==> x in h && id < x
  }

  /** The array at `id` holds copies of the first `n` items of `v`, none of them built on `id` itself. */
  ghost predicate CopiedItems(h: Heap, id: Id, v: Value, n: nat) {
    && v.List? && n <= |v.items|
    && id in h && h[id].Array? && |h[id].elements| == |v.items|
    && (forall k :: 0 <= k < n ==> ElementRepresents(h, h[id].elements[k], v, k))
    && (forall k :: 0 <= k < n ==> Above(h, id, ElementFootprint(h, JsRef(id), v, k)))
    && (forall k, k' :: 0 <= k < k' < n ==>
          ElementFootprint(h, JsRef(id), v, k) !! ElementFootprint(h, JsRef(id), v, k'))
  }

  /** A copy of the next item, made of new objects, can be stored. */
  lemma CopyItem(h: Heap, h': Heap, id: Id, v: Value, n: nat, child: JsValue)
    requires CopiedItems(h, id, v, n) && n < |v.items|
    requires forall x :: x in h ==> x in h' && h'[x] == h[x]
    requires Represents(h', child, v.items[n])
    requires Above(h', id, Footprint(h', child, v.items[n])) && Footprint(h', child, v.items[n]) !! h.Keys
    ensures CopiedItems(h'[id := Array(h[id].elements[n := Some(child)])], id, v, n + 1)
  {
    var after := h'[id := Array(h[id].elements[n := Some(child)])];
    forall k | 0 <= k < n
      ensures ElementRepresents(after, after[id].elements[k], v, k)
      ensures ElementFootprint(after, JsRef(id), v, k) == ElementFootprint(h, JsRef(id), v, k)
    {
      assert ElementRepresents(h, h[id].elements[k], v, k);
      assert Above(h, id, ElementFootprint(h, JsRef(id), v, k));
      RepresentsFrame(h, after, h[id].elements[k].value, v.items[k]);
    }
    RepresentsFrame(h', after, child, v.items[n]);
    assert ElementFootprint(after, JsRef(id), v, n) == Footprint(h', child, v.items[n]);
  }

  /** The plain object at `id` holds copies of the entries of `v` under `keys` and nothing else. */
  ghost predicate CopiedEntries(h: Heap, id: Id, v: Value, keys: set<string>) {
    && v.Dictionary? && keys <= v.entries.Keys
    && id in h && h[id].Object? && h[id].kind.Plain? && h[id].props.Keys == keys
    && (forall k :: k in keys ==> EntryCopied(h, id, v, k))
    && (forall k, k' :: k in keys && k' in keys && k != k' ==>
          PropertyFootprint(h, JsRef(id), v, k) !! PropertyFootprint(h, JsRef(id), v, k'))
  }

  /** The copy under `k` is there and lies above the object. */
  ghost predicate EntryCopied(h: Heap, id: Id, v: Value, k: string)
    requires v.Dictionary? && id in h && h[id].Object? && k in v.entries && k in h[id].props
  {
    && !h[id].props[k].isCallback
    && Represents(h, h[id].props[k].value, v.entries[k])
    && Above(h, id, PropertyFootprint(h, JsRef(id), v, k))
  }

  lemma EntryKept(h: Heap, h': Heap, id: Id, v: Value, k: string)
    requires v.Dictionary? && id in h && h[id].Object? && k in v.entries && k in h[id].props
    requires EntryCopied(h, id, v, k)
    requires id in h' && h'[id].Object? && k in h'[id].props && h'[id].props[k] == h[id].props[k]
    requires forall x :: x in h && x != id ==> x in h' && h'[x] == h[x]
    ensures EntryCopied(h', id, v, k)
    ensures PropertyFootprint(h', JsRef(id), v, k) == PropertyFootprint(h, JsRef(id), v, k)
  {
    RepresentsFrame(h, h', h[id].props[k].value, v.entries[k]);
  }

  lemma EntryAdded(h: Heap, h': Heap, id: Id, v: Value, key: string, child: JsValue)
    requires v.Dictionary? && key in v.entries && id in h && id in h' && h'[id].Object?
    requires key in h'[id].props && h'[id].props[key] == Property(child, false)
    requires forall x :: x in h && x != id ==> x in h' && h'[x] == h[x]
    requires Represents(h, child, v.entries[key]) && Above(h, id, Footprint(h, child, v.entries[key]))
    ensures EntryCopied(h', id, v, key)
    ensures PropertyFootprint(h', JsRef(id), v, key) == Footprint(h, child, v.entries[key])
  {
    RepresentsFrame(h, h', child, v.entries[key]);
  }

  /** A copy of one more entry, made of new objects, can be stored. */
  lemma CopyEntry(h: Heap, h': Heap, id: Id, v: Value, keys: set<string>, key: string, child: JsValue,
                  names: seq<string>)
    requires CopiedEntries(h, id, v, keys) && key in v.entries && key !in keys
    requires forall x :: x in h ==> x in h' && h'[x] == h[x]
    requires Represents(h', child, v.entries[key])
    requires Above(h', id, Footprint(h', child, v.entries[key])) && Footprint(h', child, v.entries[key]) !! h.Keys
    ensures CopiedEntries(h'[id := Object(h'[id].kind, names, h'[id].props[key := Property(child, false)])],
                          id, v, keys + {key})
  {
    var after := h'[id := Object(h'[id].kind, names, h'[id].props[key := Property(child, false)])];
    EntryAdded(h', after, id, v, key, child);
    forall k | k in keys
      ensures EntryCopied(after, id, v, k)
      ensures PropertyFootprint(after, JsRef(id), v, k) == PropertyFootprint(h, JsRef(id), v, k)
      ensures PropertyFootprint(after, JsRef(id), v, k) <= h.Keys
    {
      assert EntryCopied(h, id, v, k);
      EntryKept(h, after, id, v, k);
    }
    assert after[id].props.Keys == keys + {key};
    EntriesApart(after, id, v, keys, key, h.Keys);
  }

  lemma EntriesApart(h: Heap, id: Id, v: Value, keys: set<string>, key: string, earlier: set<Id>)
    requires v.Dictionary? && keys + {key} <= v.entries.Keys && key !in keys
    requires id in h && h[id].Object? && h[id].kind.Plain? && h[id].props.Keys == keys + {key}
    requires forall k :: k in keys + {key} ==> EntryCopied(h, id, v, k)
    requires forall k :: k in keys ==> PropertyFootprint(h, JsRef(id), v, k) <= earlier
    requires PropertyFootprint(h, JsRef(id), v, key) !! earlier
    requires forall k, k' :: k in keys && k' in keys && k != k' ==>
               PropertyFootprint(h, JsRef(id), v, k) !! PropertyFootprint(h, JsRef(id), v, k')
    ensures CopiedEntries(h, id, v, keys + {key})
  {}

  /** Once every item is copied, the array is a copy of the list. */
  lemma AllItemsCopied(h: Heap, id: Id, v: Value)
    requires v.List? && CopiedItems(h, id, v, |v.items|)
    ensures Represents(h, JsRef(id), v)
    ensures forall x :: x in Footprint(h, JsRef(id), v) ==> x in h && id <= x
  {
    forall i | 0 <= i < |v.items|
      ensures Above(h, id, ElementFootprint(h, JsRef(id), v, i))
    {}
  }

  /** Once every entry is copied, the object is a copy of the dictionary. */
  lemma AllEntriesCopied(h: Heap, id: Id, v: Value)
    requires v.Dictionary? && CopiedEntries(h, id, v, v.entries.Keys)
    ensures Represents(h, JsRef(id), v)
    ensures forall x :: x in Footprint(h, JsRef(id), v) ==> x in h && id <= x
  {
    forall k | k in v.entries
      ensures !h[id].props[k].isCallback && Represents(h, h[id].props[k].value, v.entries[k])
      ensures Above(h, id, PropertyFootprint(h, JsRef(id), v, k))
    {
      assert EntryCopied(h, id, v, k);
    }
  }

  /** What survives a round trip with `n` levels to spend. */
  ghost function Truncate(v: Value, n: nat): Option<Value>
    decreases n
  {
    if n == 0 then None
    else match v
      case Binary => Some(Null)
      case Double(d) => Some(if IsInt32(d) then Integer(d.r.Floor) else v)
      case List(items) =>
        Some(List(seq(|items|, i requires 0 <= i < |items| => OrNull(Truncate(items[i], n - 1)))))
      case Dictionary(m) =>
        Some(Dictionary(map k | k in m && Truncate(m[k], n - 1).Some? :: Truncate(m[k], n - 1).value))
      case _ => Some(v)
  }

  /** No binary values, and no double that JavaScript cannot tell from an integer. */
  ghost predicate JsonLike(v: Value) {
    match v
    case Binary => false
    case Double(d) => !IsInt32(d)
    case List(items) => forall i :: 0 <= i < |items| ==> JsonLike(items[i])
    case Dictionary(m) => forall k :: k in m ==> JsonLike(m[k])
    case _ => true
  }
}
