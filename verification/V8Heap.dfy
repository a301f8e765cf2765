/** A JavaScript heap: the objects that converters read and allocate. */
module V8Heap {
  import opened Wrappers
  import opened BaseValues

  type Id = nat

  datatype JsValue =
    | Undefined
    | JsNull
    | JsBoolean(b: bool)
    | JsNumber(n: Number)
    | JsString(s: string)
    | JsRef(id: Id)

  datatype Class = Plain | Date(time: Number) | RegExp(source: string) | Function

  datatype Property = Property(value: JsValue, isCallback: bool)

  /** An array is its indexed slots (`None` is a hole); any other object is its own properties,
      in the order in which the engine lists their names. */
  datatype JsObject =
    | Array(elements: seq<Option<JsValue>>)
    | Object(kind: Class, names: seq<string>, props: map<string, Property>)

  type Heap = map<Id, JsObject>

  predicate InHeap(h: Heap, v: JsValue) {
    v.JsRef? ==> v.id in h
  }

  ghost predicate ObjectOk(h: Heap, o: JsObject) {
    match o
    case Array(elements) => forall i :: 0 <= i < |elements| && elements[i].Some? ==> InHeap(h, elements[i].value)
    case Object(_, names, props) =>
      && (forall i, j :: 0 <= i < j < |names| ==> names[i] != names[j])
      && (forall k :: k in names <==> k in props)
      && (forall k :: k in props ==> InHeap(h, props[k].value))
  }

  /** No dangling references, and each property name is listed exactly once. */
  ghost predicate HeapOk(h: Heap) {
    forall id :: id in h ==> ObjectOk(h, h[id])
  }
}
