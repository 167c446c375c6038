/**
 * JSON values as the schema inliner handles them: objects are ordered lists of entries. The keys
 * the inliner or a validator treats specially are named; `Other` stands for every other key.
 */
module Json {
  import opened Wrappers

  datatype Key =
    | Ref
    | Properties
    | Items
    | AdditionalProperties
    | AnyOf
    | AllOf
    | Other(name: string)

  datatype Value =
    | Null
    | Bool(b: bool)
    | Number(n: real)
    | Str(s: string)
    | Arr(items: List)
    | Obj(fields: Fields)

  datatype List = Nil | Cons(head: Value, tail: List)

  datatype Fields = End | Entry(key: Key, value: Value, rest: Fields)

  function Find(fields: Fields, key: Key): Option<Value> {
    match fields
    case End => None
    case Entry(k, v, rest) => if k == key then Some(v) else Find(rest, key)
  }

  function Without(fields: Fields, key: Key): Fields {
    match fields
    case End => End
    case Entry(k, v, rest) => if k == key then Without(rest, key) else Entry(k, v, Without(rest, key))
  }

  /** `{**base}` updated with `over`: overridden keys keep their place, new ones go last. */
  function Overlay(base: Fields, over: Fields): Fields {
    match base
    case End => over
    case Entry(k, v, rest) =>
      match Find(over, k)
      case Some(w) => Entry(k, w, Overlay(rest, Without(over, k)))
      case None => Entry(k, v, Overlay(rest, over))
  }

  ghost predicate Contains(list: List, v: Value) {
    match list
    case Nil => false
    case Cons(head, tail) => head == v || Contains(tail, v)
  }

  ghost predicate HasEntry(fields: Fields, key: Key, v: Value) {
    match fields
    case End => false
    case Entry(k, w, rest) => (k == key && w == v) || HasEntry(rest, key, v)
  }

  lemma FindWithout(fields: Fields, key: Key, other: Key)
    ensures Find(Without(fields, key), other) == if other == key then None else Find(fields, other)
  {
  }

  /** What an updated dictionary holds: the new value where there is one, else the old. */
  lemma FindOverlay(base: Fields, over: Fields, key: Key)
    ensures Find(Overlay(base, over), key) ==
            if Find(over, key).Some? then Find(over, key) else Find(base, key)
  {
    match base
    case End =>
    case Entry(k, v, rest) =>
      match Find(over, k)
      case Some(w) =>
        FindWithout(over, k, key);
        FindOverlay(rest, Without(over, k), key);
      case None => FindOverlay(rest, over, key);
  }
}
