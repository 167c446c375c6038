/**
 * Expanding every reference of a JSON schema (`inlined_json_schema` in src/domain/analysis.py).
 *
 * `Resolve` is the code's recursion. Its termination rests on the definitions being acyclic: a
 * rank on definition names that every reference inside a definition lowers.
 */
module Schema {
  import opened Wrappers
  import opened Json

  /** The definitions taken out of the schema, and a rank that shows they are acyclic. */
  datatype Defs = Defs(definitions: map<string, Value>, rank: map<string, nat>, top: nat)

  datatype SchemaError = UnresolvedReference(ref: string) | NotAMapping(name: string)

  /** The part of a reference after its last slash. */
  function LastSegment(ref: string): string {
    if ref == [] then []
    else if ref[|ref| - 1] == '/' then []
    else LastSegment(ref[..|ref| - 1]) + [ref[|ref| - 1]]
  }

  /** Whatever path leads to it, a name without a slash is the last segment; and of itself, too. */
  lemma {:induction false} LastSegmentOfPath(path: string, name: string)
    requires '/' !in name
    ensures LastSegment(path + "/" + name) == name
    ensures LastSegment(name) == name
  {
    var ref := path + "/" + name;
    if name == [] {
      assert ref[|ref| - 1] == '/';
    } else {
      var init, last := name[..|name| - 1], name[|name| - 1];
      LastSegmentOfPath(path, init);
      assert name == init + [last] && last in name;
      assert ref[..|ref| - 1] == path + "/" + init && ref[|ref| - 1] == last;
    }
  }

  /** A string-valued `$ref`; any other value under that key is an ordinary entry. */
  function RefOf(fields: Fields): Option<string> {
    match Find(fields, Ref)
    case Some(Str(s)) => Some(s)
    case _ => None
  }

  // ---------------------------------------------------------------------------
  // Acyclic definitions
  // ---------------------------------------------------------------------------

  predicate RefBelow(c: Defs, fields: Fields, b: nat) {
    match RefOf(fields)
    case None => true
    case Some(ref) =>
      var name := LastSegment(ref);
      name in c.definitions ==> name in c.rank && c.rank[name] < b
  }

  /** Every reference in the value that has a definition has one of rank below `b`. */
  predicate Below(c: Defs, v: Value, b: nat) {
    match v
    case Arr(items) => BelowList(c, items, b)
    case Obj(fields) => RefBelow(c, fields, b) && BelowFields(c, fields, b)
    case _ => true
  }

  predicate BelowList(c: Defs, list: List, b: nat) {
    match list
    case Nil => true
    case Cons(head, tail) => Below(c, head, b) && BelowList(c, tail, b)
  }

  predicate BelowFields(c: Defs, fields: Fields, b: nat) {
    match fields
    case End => true
    case Entry(_, v, rest) => Below(c, v, b) && BelowFields(c, rest, b)
  }

  ghost predicate Acyclic(c: Defs) {
    forall name :: name in c.definitions ==>
      name in c.rank && c.rank[name] < c.top && Below(c, c.definitions[name], c.rank[name])
  }

  /** How much there is to expand: a reference weighs what its definition weighs, and more. */
  ghost function Weight(c: Defs, v: Value, b: nat): (w: nat)
    requires Acyclic(c) && Below(c, v, b)
    ensures w > 0
    decreases b, v, 0
  {
    match v
    case Arr(items) => 1 + WeightList(c, items, b)
    case Obj(fields) => 1 + TargetWeight(c, fields, b) + WeightFields(c, fields, b)
    case _ => 1
  }

  ghost function TargetWeight(c: Defs, fields: Fields, b: nat): nat
    requires Acyclic(c) && RefBelow(c, fields, b)
    decreases b, fields, 0
  {
    match RefOf(fields)
    case None => 0
    case Some(ref) =>
      var name := LastSegment(ref);
      if name in c.definitions then Weight(c, c.definitions[name], c.rank[name]) else 0
  }

  ghost function WeightList(c: Defs, list: List, b: nat): nat
    requires Acyclic(c) && BelowList(c, list, b)
    decreases b, list, 0
  {
    match list
    case Nil => 0
    case Cons(head, tail) => 1 + Weight(c, head, b) + WeightList(c, tail, b)
  }

  ghost function WeightFields(c: Defs, fields: Fields, b: nat): nat
    requires Acyclic(c) && BelowFields(c, fields, b)
    decreases b, fields, 1
  {
    match fields
    case End => 0
    case Entry(_, v, rest) => 2 + Weight(c, v, b) + WeightFields(c, rest, b)
  }

  lemma BelowMore(c: Defs, v: Value, a: nat, b: nat)
    requires a <= b && Below(c, v, a)
    ensures Below(c, v, b)
    decreases v
  {
    match v
    case Arr(items) => BelowMoreList(c, items, a, b);
    case Obj(fields) => BelowMoreFields(c, fields, a, b);
    case _ =>
  }

  lemma BelowMoreList(c: Defs, list: List, a: nat, b: nat)
    requires a <= b && BelowList(c, list, a)
    ensures BelowList(c, list, b)
    decreases list
  {
    match list
    case Nil =>
    case Cons(head, tail) =>
      BelowMore(c, head, a, b);
      BelowMoreList(c, tail, a, b);
  }

  lemma BelowMoreFields(c: Defs, fields: Fields, a: nat, b: nat)
    requires a <= b && BelowFields(c, fields, a)
    ensures BelowFields(c, fields, b)
    decreases fields
  {
    match fields
    case End =>
    case Entry(_, v, rest) =>
      BelowMore(c, v, a, b);
      BelowMoreFields(c, rest, a, b);
  }

  /** The weight does not depend on which bound is used. */
  lemma {:induction false} SameWeight(c: Defs, v: Value, a: nat, b: nat)
    requires Acyclic(c) && Below(c, v, a) && Below(c, v, b)
    ensures Weight(c, v, a) == Weight(c, v, b)
    decreases v
  {
    match v
    case Arr(items) => SameWeightList(c, items, a, b);
    case Obj(fields) => SameWeightFields(c, fields, a, b);
    case _ =>
  }

  lemma {:induction false} SameWeightList(c: Defs, list: List, a: nat, b: nat)
    requires Acyclic(c) && BelowList(c, list, a) && BelowList(c, list, b)
    ensures WeightList(c, list, a) == WeightList(c, list, b)
    decreases list
  {
    match list
    case Nil =>
    case Cons(head, tail) =>
      SameWeight(c, head, a, b);
      SameWeightList(c, tail, a, b);
  }

  lemma {:induction false} SameWeightFields(c: Defs, fields: Fields, a: nat, b: nat)
    requires Acyclic(c) && BelowFields(c, fields, a) && BelowFields(c, fields, b)
    ensures WeightFields(c, fields, a) == WeightFields(c, fields, b)
    decreases fields
  {
    match fields
    case End =>
    case Entry(_, v, rest) =>
      SameWeight(c, v, a, b);
      SameWeightFields(c, rest, a, b);
  }

  // ---------------------------------------------------------------------------
  // Merging a definition with the siblings of its reference
  // ---------------------------------------------------------------------------

  lemma {:induction false} WithoutWeighsLess(c: Defs, fields: Fields, key: Key, b: nat)
    requires Acyclic(c) && BelowFields(c, fields, b)
    ensures BelowFields(c, Without(fields, key), b)
    ensures Find(fields, key).Some? ==> Below(c, Find(fields, key).value, b)
    ensures WeightFields(c, Without(fields, key), b)
            + (if Find(fields, key).Some? then 2 + Weight(c, Find(fields, key).value, b) else 0)
            <= WeightFields(c, fields, b)
    decreases fields
  {
    match fields
    case End =>
    case Entry(k, v, rest) => WithoutWeighsLess(c, rest, key, b);
  }

  lemma {:induction false} OverlayWeight(c: Defs, base: Fields, over: Fields, b: nat)
    requires Acyclic(c) && BelowFields(c, base, b) && BelowFields(c, over, b)
    ensures BelowFields(c, Overlay(base, over), b)
    ensures WeightFields(c, Overlay(base, over), b) <= WeightFields(c, base, b) + WeightFields(c, over, b)
    decreases base
  {
    match base
    case End =>
    case Entry(k, v, rest) =>
      match Find(over, k)
      case Some(w) =>
        WithoutWeighsLess(c, over, k, b);
        OverlayWeight(c, rest, Without(over, k), b);
      case None => OverlayWeight(c, rest, over, b);
  }

  /** The definition's entries, updated with everything beside the reference. */
  function Merged(target: Fields, fields: Fields): Fields {
    Overlay(target, Without(fields, Ref))
  }

  lemma MergedRef(target: Fields, fields: Fields)
    ensures RefOf(Merged(target, fields)) == RefOf(target)
  {
    FindWithout(fields, Ref, Ref);
    FindOverlay(target, Without(fields, Ref), Ref);
  }

  lemma {:induction false} MergedWeighsLess(c: Defs, target: Fields, fields: Fields, name: string, ref: string)
    requires Acyclic(c) && Below(c, Obj(fields), c.top)
    requires RefOf(fields) == Some(ref) && name == LastSegment(ref)
    requires name in c.definitions && c.definitions[name] == Obj(target)
    ensures Below(c, Obj(Merged(target, fields)), c.top)
    ensures Weight(c, Obj(Merged(target, fields)), c.top) < Weight(c, Obj(fields), c.top)
  {
    BelowMore(c, Obj(target), c.rank[name], c.top);
    SameWeight(c, Obj(target), c.rank[name], c.top);
    WithoutWeighsLess(c, fields, Ref, c.top);
    OverlayWeight(c, target, Without(fields, Ref), c.top);
    MergedRef(target, fields);
  }

  // ---------------------------------------------------------------------------
  // The expansion
  // ---------------------------------------------------------------------------

  function Resolve(c: Defs, node: Value): Result<Value, SchemaError>
    requires Acyclic(c) && Below(c, node, c.top)
    decreases Weight(c, node, c.top)
  {
    match node
    case Obj(fields) =>
      (match RefOf(fields)
       case Some(ref) =>
         var name := LastSegment(ref);
         if name !in c.definitions then Failure(UnresolvedReference(ref))
         else
           (match c.definitions[name]
            case Obj(target) =>
              MergedWeighsLess(c, target, fields, name, ref);
              Resolve(c, Obj(Merged(target, fields)))
            case _ => Failure(NotAMapping(name)))
       case None =>
         (match ResolveFields(c, fields)
          case Success(resolved) => Success(Obj(resolved))
          case Failure(e) => Failure(e)))
    case Arr(items) =>
      (match ResolveList(c, items)
       case Success(resolved) => Success(Arr(resolved))
       case Failure(e) => Failure(e))
    case _ => Success(node)
  }

  function ResolveFields(c: Defs, fields: Fields): Result<Fields, SchemaError>
    requires Acyclic(c) && BelowFields(c, fields, c.top)
    decreases WeightFields(c, fields, c.top)
  {
    match fields
    case End => Success(End)
    case Entry(k, v, rest) =>
      match Resolve(c, v)
      case Failure(e) => Failure(e)
      case Success(value) =>
        match ResolveFields(c, rest)
        case Failure(e) => Failure(e)
        case Success(others) => Success(Entry(k, value, others))
  }

  function ResolveList(c: Defs, list: List): Result<List, SchemaError>
    requires Acyclic(c) && BelowList(c, list, c.top)
    decreases WeightList(c, list, c.top)
  {
    match list
    case Nil => Success(Nil)
    case Cons(head, tail) =>
      match Resolve(c, head)
      case Failure(e) => Failure(e)
      case Success(value) =>
        match ResolveList(c, tail)
        case Failure(e) => Failure(e)
        case Success(others) => Success(Cons(value, others))
  }

  // ---------------------------------------------------------------------------
  // What comes out
  // ---------------------------------------------------------------------------

  /** No object anywhere has a string-valued `$ref`. */
  predicate RefFree(v: Value) {
    match v
    case Arr(items) => RefFreeList(items)
    case Obj(fields) => RefOf(fields) == None && RefFreeFields(fields)
    case _ => true
  }

  predicate RefFreeList(list: List) {
    match list
    case Nil => true
    case Cons(head, tail) => RefFree(head) && RefFreeList(tail)
  }

  predicate RefFreeFields(fields: Fields) {
    match fields
    case End => true
    case Entry(_, v, rest) => RefFree(v) && RefFreeFields(rest)
  }

  /** Resolving keeps the keys of an object, and turns no value under `$ref` into a string. */
  lemma {:induction false} ResolvedKeys(c: Defs, fields: Fields, key: Key)
    requires Acyclic(c) && BelowFields(c, fields, c.top) && ResolveFields(c, fields).Success?
    ensures Find(ResolveFields(c, fields).value, key).Some? <==> Find(fields, key).Some?
    ensures Find(fields, key).Some? ==>
              && Below(c, Find(fields, key).value, c.top)
              && Resolve(c, Find(fields, key).value) == Success(Find(ResolveFields(c, fields).value, key).value)
    decreases fields
  {
    match fields
    case End =>
    case Entry(k, v, rest) => ResolvedKeys(c, rest, key);
  }

  /** Objects resolve to objects, lists to lists, and everything else to itself. */
  lemma {:induction false} ResolvedShape(c: Defs, v: Value)
    requires Acyclic(c) && Below(c, v, c.top) && Resolve(c, v).Success?
    ensures v.Obj? <==> Resolve(c, v).value.Obj?
    ensures v.Arr? <==> Resolve(c, v).value.Arr?
    ensures !v.Obj? && !v.Arr? ==> Resolve(c, v).value == v
    decreases Weight(c, v, c.top)
  {
    match v
    case Obj(fields) =>
      match RefOf(fields) {
        case Some(ref) =>
          var name := LastSegment(ref);
          var target := c.definitions[name].fields;
          MergedWeighsLess(c, target, fields, name, ref);
          ResolvedShape(c, Obj(Merged(target, fields)));
        case None =>
      }
    case _ =>
  }

  lemma {:induction false} ResolvedIsRefFree(c: Defs, node: Value)
    requires Acyclic(c) && Below(c, node, c.top) && Resolve(c, node).Success?
    ensures RefFree(Resolve(c, node).value)
    decreases Weight(c, node, c.top)
  {
    match node
    case Obj(fields) =>
      match RefOf(fields) {
        case Some(ref) =>
          var name := LastSegment(ref);
          var target := c.definitions[name].fields;
          MergedWeighsLess(c, target, fields, name, ref);
          ResolvedIsRefFree(c, Obj(Merged(target, fields)));
        case None =>
          ResolvedFieldsRefFree(c, fields);
          ResolvedKeys(c, fields, Ref);
          if Find(fields, Ref).Some? {
            ResolvedShape(c, Find(fields, Ref).value);
          }
      }
    case Arr(items) => ResolvedListRefFree(c, items);
    case _ =>
  }

  lemma {:induction false} ResolvedFieldsRefFree(c: Defs, fields: Fields)
    requires Acyclic(c) && BelowFields(c, fields, c.top) && ResolveFields(c, fields).Success?
    ensures RefFreeFields(ResolveFields(c, fields).value)
    decreases WeightFields(c, fields, c.top)
  {
    match fields
    case End =>
    case Entry(_, v, rest) =>
      ResolvedIsRefFree(c, v);
      ResolvedFieldsRefFree(c, rest);
  }

  lemma {:induction false} ResolvedListRefFree(c: Defs, list: List)
    requires Acyclic(c) && BelowList(c, list, c.top) && ResolveList(c, list).Success?
    ensures RefFreeList(ResolveList(c, list).value)
    decreases WeightList(c, list, c.top)
  {
    match list
    case Nil =>
    case Cons(head, tail) =>
      ResolvedIsRefFree(c, head);
      ResolvedListRefFree(c, tail);
  }

  /** A schema without references is left exactly as it is. */
  lemma {:induction false} RefFreeUnchanged(c: Defs, v: Value)
    requires Acyclic(c) && RefFree(v)
    ensures Below(c, v, c.top) && Resolve(c, v) == Success(v)
    decreases v
  {
    match v
    case Obj(fields) => RefFreeFieldsUnchanged(c, fields);
    case Arr(items) => RefFreeListUnchanged(c, items);
    case _ =>
  }

  lemma {:induction false} RefFreeFieldsUnchanged(c: Defs, fields: Fields)
    requires Acyclic(c) && RefFreeFields(fields)
    ensures BelowFields(c, fields, c.top) && ResolveFields(c, fields) == Success(fields)
    decreases fields
  {
    match fields
    case End =>
    case Entry(_, v, rest) =>
      RefFreeUnchanged(c, v);
      RefFreeFieldsUnchanged(c, rest);
  }

  lemma {:induction false} RefFreeListUnchanged(c: Defs, list: List)
    requires Acyclic(c) && RefFreeList(list)
    ensures BelowList(c, list, c.top) && ResolveList(c, list) == Success(list)
    decreases list
  {
    match list
    case Nil =>
    case Cons(head, tail) =>
      RefFreeUnchanged(c, head);
      RefFreeListUnchanged(c, tail);
  }

  // ---------------------------------------------------------------------------
  // When it succeeds
  // ---------------------------------------------------------------------------

  predicate RefPresent(c: Defs, fields: Fields) {
    match RefOf(fields)
    case None => true
    case Some(ref) => LastSegment(ref) in c.definitions && c.definitions[LastSegment(ref)].Obj?
  }

  /** Every reference in the value names a definition that is an object. */
  predicate Present(c: Defs, v: Value) {
    match v
    case Arr(items) => PresentList(c, items)
    case Obj(fields) => RefPresent(c, fields) && PresentFields(c, fields)
    case _ => true
  }

  predicate PresentList(c: Defs, list: List) {
    match list
    case Nil => true
    case Cons(head, tail) => Present(c, head) && PresentList(c, tail)
  }

  predicate PresentFields(c: Defs, fields: Fields) {
    match fields
    case End => true
    case Entry(_, v, rest) => Present(c, v) && PresentFields(c, rest)
  }

  ghost predicate Complete(c: Defs) {
    forall name :: name in c.definitions ==> Present(c, c.definitions[name])
  }

  lemma {:induction false} WithoutPresent(c: Defs, fields: Fields, key: Key)
    requires PresentFields(c, fields)
    ensures PresentFields(c, Without(fields, key))
    ensures Find(fields, key).Some? ==> Present(c, Find(fields, key).value)
    decreases fields
  {
    match fields
    case End =>
    case Entry(_, _, rest) => WithoutPresent(c, rest, key);
  }

  lemma {:induction false} OverlayPresent(c: Defs, base: Fields, over: Fields)
    requires PresentFields(c, base) && PresentFields(c, over)
    ensures PresentFields(c, Overlay(base, over))
    decreases base
  {
    match base
    case End =>
    case Entry(k, _, rest) =>
      WithoutPresent(c, over, k);
      OverlayPresent(c, rest, if Find(over, k).Some? then Without(over, k) else over);
  }

  /** With every reference present, the expansion succeeds. */
  lemma {:induction false} PresentResolves(c: Defs, node: Value)
    requires Acyclic(c) && Complete(c) && Below(c, node, c.top) && Present(c, node)
    ensures Resolve(c, node).Success?
    decreases Weight(c, node, c.top)
  {
    match node
    case Obj(fields) =>
      match RefOf(fields) {
        case Some(ref) =>
          var name := LastSegment(ref);
          var target := c.definitions[name].fields;
          MergedWeighsLess(c, target, fields, name, ref);
          MergedRef(target, fields);
          WithoutPresent(c, fields, Ref);
          assert Present(c, c.definitions[name]);
          OverlayPresent(c, target, Without(fields, Ref));
          PresentResolves(c, Obj(Merged(target, fields)));
        case None => PresentFieldsResolve(c, fields);
      }
    case Arr(items) => PresentListResolves(c, items);
    case _ =>
  }

  lemma {:induction false} PresentFieldsResolve(c: Defs, fields: Fields)
    requires Acyclic(c) && Complete(c) && BelowFields(c, fields, c.top) && PresentFields(c, fields)
    ensures ResolveFields(c, fields).Success?
    decreases WeightFields(c, fields, c.top)
  {
    match fields
    case End =>
    case Entry(_, v, rest) =>
      PresentResolves(c, v);
      PresentFieldsResolve(c, rest);
  }

  lemma {:induction false} PresentListResolves(c: Defs, list: List)
    requires Acyclic(c) && Complete(c) && BelowList(c, list, c.top) && PresentList(c, list)
    ensures ResolveList(c, list).Success?
    decreases WeightList(c, list, c.top)
  {
    match list
    case Nil =>
    case Cons(head, tail) =>
      PresentResolves(c, head);
      PresentListResolves(c, tail);
  }

  // ---------------------------------------------------------------------------
  // The inlined schema
  // ---------------------------------------------------------------------------

  lemma {:induction false} AllBelow(c: Defs, v: Value)
    requires Acyclic(c)
    ensures Below(c, v, c.top)
    decreases v
  {
    match v
    case Arr(items) => AllBelowList(c, items);
    case Obj(fields) => AllBelowFields(c, fields);
    case _ =>
  }

  lemma {:induction false} AllBelowList(c: Defs, list: List)
    requires Acyclic(c)
    ensures BelowList(c, list, c.top)
    decreases list
  {
    match list
    case Nil =>
    case Cons(head, tail) =>
      AllBelow(c, head);
      AllBelowList(c, tail);
  }

  lemma {:induction false} AllBelowFields(c: Defs, fields: Fields)
    requires Acyclic(c)
    ensures BelowFields(c, fields, c.top)
    decreases fields
  {
    match fields
    case End =>
    case Entry(_, v, rest) =>
      AllBelow(c, v);
      AllBelowFields(c, rest);
  }

  /** For acyclic definitions the expansion of any schema terminates, found or not. */
  function Inlined(c: Defs, schema: Value): Result<Value, SchemaError>
    requires Acyclic(c)
  {
    AllBelow(c, schema);
    Resolve(c, schema)
  }

  /**
   * The inlined schema has no reference left anywhere, inlining it again changes nothing, and
   * inlining succeeds whenever every reference names a definition that is an object.
   */
  lemma InliningRemovesReferences(c: Defs, schema: Value)
    requires Acyclic(c)
    ensures Inlined(c, schema).Success? ==>
              && RefFree(Inlined(c, schema).value)
              && Inlined(c, Inlined(c, schema).value) == Inlined(c, schema)
    ensures Complete(c) && Present(c, schema) ==> Inlined(c, schema).Success?
  {
    AllBelow(c, schema);
    if Inlined(c, schema).Success? {
      ResolvedIsRefFree(c, schema);
      RefFreeUnchanged(c, Resolve(c, schema).value);
    }
    if Complete(c) && Present(c, schema) {
      PresentResolves(c, schema);
    }
  }

  /**
   * A reference by any path to a defined object is expanded: what comes out is what comes of the
   * definition with the entries beside the reference laid over it.
   */
  lemma DefinedReferenceExpands(c: Defs, path: string, name: string, fields: Fields, target: Fields)
    requires Acyclic(c) && '/' !in name
    requires Find(fields, Ref) == Some(Str(path + "/" + name)) || Find(fields, Ref) == Some(Str(name))
    requires name in c.definitions && c.definitions[name] == Obj(target)
    ensures Inlined(c, Obj(fields)) == Inlined(c, Obj(Overlay(target, Without(fields, Ref))))
  {
    LastSegmentOfPath(path, name);
    AllBelow(c, Obj(fields));
    MergedWeighsLess(c, target, fields, name, RefOf(fields).value);
  }

  /** A reference to a name that is not defined stops the expansion, and the error names the reference. */
  lemma UndefinedReferenceFails(c: Defs, path: string, name: string, fields: Fields)
    requires Acyclic(c) && '/' !in name && name !in c.definitions
    requires Find(fields, Ref) == Some(Str(path + "/" + name))
    ensures Inlined(c, Obj(fields)) == Failure(UnresolvedReference(path + "/" + name))
  {
    LastSegmentOfPath(path, name);
    AllBelow(c, Obj(fields));
  }
}
