/** The value trees (`base::Value`) that cross the JavaScript boundary and that hold an asar header. */
module BaseValues {

  /** A double, with the values a `real` cannot express kept apart. Rounding plays no part here. */
  datatype Number = Finite(r: real) | NegativeZero | Infinite(negative: bool) | NaN

  const INT32_MIN := -0x8000_0000
  const INT32_MAX := 0x7fff_ffff

  /** Does the double hold a value of a 32-bit signed integer? (Negative zero does not.) */
  predicate IsInt32(n: Number) {
    n.Finite? && n.r.Floor as real == n.r && INT32_MIN <= n.r.Floor <= INT32_MAX
  }

  datatype Value =
    | Null
    | Boolean(b: bool)
    | Integer(i: int)
    | Double(d: Number)
    | String(s: string)
    | Binary
    | List(items: seq<Value>)
    | Dictionary(entries: map<string, Value>)

  /** Every integer leaf fits the 32 bits the source gives it. */
  ghost predicate WellFormed(v: Value) {
    match v
    case Integer(i) => INT32_MIN <= i <= INT32_MAX
    case List(items) => forall i :: 0 <= i < |items| ==> WellFormed(items[i])
    case Dictionary(m) => forall k :: k in m ==> WellFormed(m[k])
    case _ => true
  }

  /** The tree has at most `n` levels, except that a list on the last one may hold nulls. */
  ghost predicate FitsLevels(v: Value, n: int) {
    n > 0 &&
    match v
    case List(items) => forall i :: 0 <= i < |items| ==> items[i] == Null || FitsLevels(items[i], n - 1)
    case Dictionary(m) => forall k :: k in m ==> FitsLevels(m[k], n - 1)
    case _ => true
  }

  /** The number of list and dictionary nodes in a tree. */
  ghost function Containers(v: Value): nat
    decreases v, 2
  {
    match v
    case List(items) => 1 + ContainersInItems(items)
    case Dictionary(m) => 1 + ContainersInEntries(v, m.Keys)
    case _ => 0
  }

  ghost function ContainersInItems(items: seq<Value>): nat
    decreases items, 0
  {
    if items == [] then 0
    else ContainersInItems(items[..|items| - 1]) + Containers(items[|items| - 1])
  }

  ghost function ContainersInEntries(d: Value, keys: set<string>): nat
    requires d.Dictionary? && keys <= d.entries.Keys
    decreases d, 1, keys
  {
    if keys == {} then 0
    else
      var k :| k in keys;
      Containers(d.entries[k]) + ContainersInEntries(d, keys - {k})
  }
}
