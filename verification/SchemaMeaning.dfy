/**
 * Inlining keeps the meaning of a schema: the inlined schema, read without any definitions,
 * accepts exactly the documents the original accepts with them.
 *
 * Applicator keywords are interpreted; all others are an arbitrary vocabulary of assertions, so
 * the result does not depend on which of them a validator knows. A reference is read as section
 * 8.2.3.1 of JSON Schema Core 2020-12 has it: its target applies beside its siblings. Updating a
 * dictionary agrees with that as long as no sibling overrides an assertion of the target with a
 * different one.
 */
module SchemaMeaning {
  import opened Wrappers
  import opened Json
  import opened Schema

  /** What the other keywords assert of an instance, and which of them are mere annotations. */
  datatype Vocabulary = Vocabulary(assertion: (Key, Value, Value) -> bool, isAnnotation: string -> bool)

  ghost predicate LawfulVocabulary(voc: Vocabulary) {
    forall name, v, inst :: voc.isAnnotation(name) ==> voc.assertion(Other(name), v, inst)
  }

  const NO_DEFS: Defs := Defs(map[], map[], 0)

  ghost function W(c: Defs, v: Value): (w: nat)
    requires Acyclic(c)
    ensures w > 0
  {
    AllBelow(c, v);
    Weight(c, v, c.top)
  }

  ghost function WFields(c: Defs, fields: Fields): nat
    requires Acyclic(c)
  {
    AllBelowFields(c, fields);
    WeightFields(c, fields, c.top)
  }

  ghost function WList(c: Defs, list: List): nat
    requires Acyclic(c)
  {
    AllBelowList(c, list);
    WeightList(c, list, c.top)
  }

  /** The definition a reference points at, if there is one. */
  function Target(c: Defs, fields: Fields): Option<Value> {
    match RefOf(fields)
    case None => None
    case Some(ref) =>
      if LastSegment(ref) in c.definitions then Some(c.definitions[LastSegment(ref)]) else None
  }

  lemma Lighter(c: Defs, fields: Fields)
    requires Acyclic(c)
    ensures WFields(c, fields) < W(c, Obj(fields))
    ensures Target(c, fields).Some? ==> W(c, Target(c, fields).value) < W(c, Obj(fields))
  {
    AllBelow(c, Obj(fields));
    if Target(c, fields).Some? {
      var name := LastSegment(RefOf(fields).value);
      AllBelow(c, c.definitions[name]);
      SameWeight(c, c.definitions[name], c.rank[name], c.top);
      assert TargetWeight(c, fields, c.top) == Weight(c, c.definitions[name], c.rank[name]);
    }
  }

  lemma LighterEntry(c: Defs, k: Key, v: Value, rest: Fields)
    requires Acyclic(c)
    ensures W(c, v) + 1 < WFields(c, Entry(k, v, rest))
    ensures WFields(c, rest) < WFields(c, Entry(k, v, rest))
  {
  }

  lemma LighterItem(c: Defs, head: Value, tail: List)
    requires Acyclic(c)
    ensures W(c, head) < WList(c, Cons(head, tail))
    ensures WList(c, tail) < WList(c, Cons(head, tail))
    ensures WList(c, Cons(head, tail)) < W(c, Arr(Cons(head, tail)))
  {
  }

  // ---------------------------------------------------------------------------
  // Validation
  // ---------------------------------------------------------------------------

  /** A property the schema object declares. */
  predicate Declared(whole: Fields, key: Key) {
    match Find(whole, Properties)
    case Some(Obj(props)) => Find(props, key).Some?
    case _ => false
  }

  ghost predicate Accepts(c: Defs, voc: Vocabulary, schema: Value, inst: Value)
    requires Acyclic(c)
    decreases W(c, schema), 0
  {
    match schema
    case Bool(b) => b
    case Obj(fields) =>
      Lighter(c, fields);
      && (Target(c, fields).Some? ==> Accepts(c, voc, Target(c, fields).value, inst))
      && Holds(c, voc, fields, fields, inst)
    case _ => true
  }

  /** Every keyword of the object holds; `whole` is the object itself, for its declared properties. */
  ghost predicate Holds(c: Defs, voc: Vocabulary, whole: Fields, fields: Fields, inst: Value)
    requires Acyclic(c)
    decreases WFields(c, fields), 0
  {
    match fields
    case End => true
    case Entry(k, v, rest) =>
      LighterEntry(c, k, v, rest);
      KeywordHolds(c, voc, whole, k, v, inst) && Holds(c, voc, whole, rest, inst)
  }

  ghost predicate KeywordHolds(c: Defs, voc: Vocabulary, whole: Fields, k: Key, v: Value, inst: Value)
    requires Acyclic(c)
    decreases W(c, v) + 1, 0
  {
    match k
    case Ref => v.Str? || voc.assertion(k, v, inst)
    case Properties =>
      (match v
       case Obj(props) =>
         Lighter(c, props);
         PropertiesHold(c, voc, props, inst)
       case _ => true)
    case Items => inst.Arr? ==> forall x :: Contains(inst.items, x) ==> Accepts(c, voc, v, x)
    case AdditionalProperties =>
      inst.Obj? ==> forall key, x :: HasEntry(inst.fields, key, x) && !Declared(whole, key) ==> Accepts(c, voc, v, x)
    case AnyOf => (match v case Arr(options) => AnyAccepts(c, voc, options, inst) case _ => true)
    case AllOf => (match v case Arr(options) => AllAccept(c, voc, options, inst) case _ => true)
    case Other(_) => voc.assertion(k, v, inst)
  }

  ghost predicate PropertiesHold(c: Defs, voc: Vocabulary, props: Fields, inst: Value)
    requires Acyclic(c)
    decreases WFields(c, props), 1
  {
    match props
    case End => true
    case Entry(k, v, rest) =>
      LighterEntry(c, k, v, rest);
      && (inst.Obj? && Find(inst.fields, k).Some? ==> Accepts(c, voc, v, Find(inst.fields, k).value))
      && PropertiesHold(c, voc, rest, inst)
  }

  ghost predicate AnyAccepts(c: Defs, voc: Vocabulary, options: List, inst: Value)
    requires Acyclic(c)
    decreases WList(c, options), 1
  {
    match options
    case Nil => false
    case Cons(head, tail) =>
      LighterItem(c, head, tail);
      Accepts(c, voc, head, inst) || AnyAccepts(c, voc, tail, inst)
  }

  ghost predicate AllAccept(c: Defs, voc: Vocabulary, options: List, inst: Value)
    requires Acyclic(c)
    decreases WList(c, options), 1
  {
    match options
    case Nil => true
    case Cons(head, tail) =>
      LighterItem(c, head, tail);
      Accepts(c, voc, head, inst) && AllAccept(c, voc, tail, inst)
  }

  // ---------------------------------------------------------------------------
  // The schemas the result is about
  // ---------------------------------------------------------------------------

  predicate Annotates(isAnnotation: string -> bool, k: Key) {
    k.Other? && isAnnotation(k.name)
  }

  /** An update that replaces nothing but annotations, and otherwise only repeats what is there. */
  ghost predicate Agrees(isAnnotation: string -> bool, base: Fields, over: Fields) {
    forall k, v, w :: HasEntry(base, k, v) && HasEntry(over, k, w) ==> v == w || Annotates(isAnnotation, k)
  }

  /** `additionalProperties` looks only at its own object, so merging must not change what that declares. */
  predicate SameScope(target: Fields, fields: Fields) {
    var declared := Find(Merged(target, fields), Properties);
    && (Find(target, AdditionalProperties).Some? ==> declared == Find(target, Properties))
    && (Find(fields, AdditionalProperties).Some? ==> declared == Find(fields, Properties))
  }

  /** The siblings of a reference take nothing away from its target. */
  ghost predicate Harmless(isAnnotation: string -> bool, target: Fields, fields: Fields) {
    && (forall v :: HasEntry(fields, Ref, v) ==> v.Str?)
    && Agrees(isAnnotation, target, Without(fields, Ref))
    && SameScope(target, fields)
  }

  lemma MergedLighter(c: Defs, fields: Fields, target: Fields)
    requires Acyclic(c) && Target(c, fields) == Some(Obj(target))
    ensures W(c, Obj(Merged(target, fields))) < W(c, Obj(fields))
  {
    AllBelow(c, Obj(fields));
    var ref := RefOf(fields).value;
    MergedWeighsLess(c, target, fields, LastSegment(ref), ref);
  }

  /**
   * Along the expansion, every reference has harmless siblings, and nothing that is data
   * (`const`, `enum`, `default`) has a reference in it.
   */
  ghost predicate Safe(c: Defs, isAnnotation: string -> bool, schema: Value)
    requires Acyclic(c)
    decreases W(c, schema), 0
  {
    match schema
    case Obj(fields) =>
      Lighter(c, fields);
      (match Target(c, fields)
       case Some(Obj(target)) =>
         MergedLighter(c, fields, target);
         Harmless(isAnnotation, target, fields) && Safe(c, isAnnotation, Obj(Merged(target, fields)))
       case _ => SafeFields(c, isAnnotation, fields))
    case _ => true
  }

  ghost predicate SafeFields(c: Defs, isAnnotation: string -> bool, fields: Fields)
    requires Acyclic(c)
    decreases WFields(c, fields), 0
  {
    match fields
    case End => true
    case Entry(k, v, rest) =>
      LighterEntry(c, k, v, rest);
      SafeEntry(c, isAnnotation, k, v) && SafeFields(c, isAnnotation, rest)
  }

  ghost predicate SafeEntry(c: Defs, isAnnotation: string -> bool, k: Key, v: Value)
    requires Acyclic(c)
    decreases W(c, v) + 1, 0
  {
    match k
    case Ref => v.Str? || RefFree(v)
    case Properties =>
      (match v
       case Obj(props) =>
         Lighter(c, props);
         RefOf(props) == None && SafeEach(c, isAnnotation, props)
       case _ => true)
    case Items => Safe(c, isAnnotation, v)
    case AdditionalProperties => Safe(c, isAnnotation, v)
    case AnyOf => (match v case Arr(options) => SafeList(c, isAnnotation, options) case _ => true)
    case AllOf => (match v case Arr(options) => SafeList(c, isAnnotation, options) case _ => true)
    case Other(_) => RefFree(v)
  }

  ghost predicate SafeEach(c: Defs, isAnnotation: string -> bool, props: Fields)
    requires Acyclic(c)
    decreases WFields(c, props), 1
  {
    match props
    case End => true
    case Entry(k, v, rest) =>
      LighterEntry(c, k, v, rest);
      Safe(c, isAnnotation, v) && SafeEach(c, isAnnotation, rest)
  }

  ghost predicate SafeList(c: Defs, isAnnotation: string -> bool, options: List)
    requires Acyclic(c)
    decreases WList(c, options), 1
  {
    match options
    case Nil => true
    case Cons(head, tail) =>
      LighterItem(c, head, tail);
      Safe(c, isAnnotation, head) && SafeList(c, isAnnotation, tail)
  }

  /** Data comes out of the expansion as it went in exactly when it has no reference in it. */
  lemma DataSurvivesIff(c: Defs, v: Value)
    requires Acyclic(c)
    ensures Inlined(c, v) == Success(v) <==> RefFree(v)
  {
    AllBelow(c, v);
    if Inlined(c, v) == Success(v) {
      ResolvedIsRefFree(c, v);
    }
    if RefFree(v) {
      RefFreeUnchanged(c, v);
    }
  }

  // ---------------------------------------------------------------------------
  // Merging
  // ---------------------------------------------------------------------------

  lemma {:induction false} EntriesWithout(fields: Fields, key: Key, k: Key, v: Value)
    ensures HasEntry(Without(fields, key), k, v) <==> HasEntry(fields, k, v) && k != key
    decreases fields
  {
    match fields
    case End =>
    case Entry(_, _, rest) => EntriesWithout(rest, key, k, v);
  }

  lemma {:induction false} FoundIsEntry(fields: Fields, k: Key)
    ensures Find(fields, k).Some? ==> HasEntry(fields, k, Find(fields, k).value)
    decreases fields
  {
    match fields
    case End =>
    case Entry(_, _, rest) => FoundIsEntry(rest, k);
  }

  /** Every entry under one key holds. */
  ghost predicate EachHolds(c: Defs, voc: Vocabulary, whole: Fields, fields: Fields, key: Key, inst: Value)
    requires Acyclic(c)
  {
    forall v :: HasEntry(fields, key, v) ==> KeywordHolds(c, voc, whole, key, v, inst)
  }

  lemma EachOfEntry(c: Defs, voc: Vocabulary, whole: Fields, fields: Fields, key: Key, inst: Value)
    requires Acyclic(c) && fields.Entry?
    ensures EachHolds(c, voc, whole, fields, key, inst) <==>
              && (fields.key == key ==> KeywordHolds(c, voc, whole, key, fields.value, inst))
              && EachHolds(c, voc, whole, fields.rest, key, inst)
  {
    assert HasEntry(fields, fields.key, fields.value);
    if EachHolds(c, voc, whole, fields, key, inst) {
      forall v | HasEntry(fields.rest, key, v)
        ensures KeywordHolds(c, voc, whole, key, v, inst)
      {
        assert HasEntry(fields, key, v);
      }
    }
  }

  lemma {:induction false} HoldsWithout(c: Defs, voc: Vocabulary, whole: Fields, fields: Fields, key: Key, inst: Value)
    requires Acyclic(c)
    ensures Holds(c, voc, whole, fields, inst) <==>
            Holds(c, voc, whole, Without(fields, key), inst) && EachHolds(c, voc, whole, fields, key, inst)
    decreases fields
  {
    match fields
    case End =>
    case Entry(k, v, rest) =>
      HoldsWithout(c, voc, whole, rest, key, inst);
      EachOfEntry(c, voc, whole, fields, key, inst);
  }

  ghost predicate SameDeclared(whole: Fields, other: Fields) {
    forall key :: Declared(other, key) <==> Declared(whole, key)
  }

  /** Only `additionalProperties` looks at the object a keyword stands in. */
  lemma SameKeyword(c: Defs, voc: Vocabulary, whole: Fields, other: Fields, k: Key, v: Value, inst: Value)
    requires Acyclic(c)
    requires k == AdditionalProperties ==> SameDeclared(whole, other)
    ensures KeywordHolds(c, voc, other, k, v, inst) <==> KeywordHolds(c, voc, whole, k, v, inst)
  {
  }

  lemma {:induction false} HoldsElsewhere(
    c: Defs, voc: Vocabulary, whole: Fields, other: Fields, fields: Fields, inst: Value
  )
    requires Acyclic(c)
    requires Find(fields, AdditionalProperties).Some? ==> SameDeclared(whole, other)
    ensures Holds(c, voc, other, fields, inst) <==> Holds(c, voc, whole, fields, inst)
    decreases fields
  {
    match fields
    case End =>
    case Entry(k, v, rest) =>
      SameKeyword(c, voc, whole, other, k, v, inst);
      HoldsElsewhere(c, voc, whole, other, rest, inst);
  }

  lemma AnnotationHolds(c: Defs, voc: Vocabulary, whole: Fields, k: Key, v: Value, inst: Value)
    requires Acyclic(c) && LawfulVocabulary(voc) && Annotates(voc.isAnnotation, k)
    ensures KeywordHolds(c, voc, whole, k, v, inst)
  {
  }

  lemma EachIsOne(c: Defs, voc: Vocabulary, whole: Fields, fields: Fields, key: Key, v: Value, inst: Value)
    requires Acyclic(c) && HasEntry(fields, key, v)
    requires forall w :: HasEntry(fields, key, w) ==> w == v
    ensures EachHolds(c, voc, whole, fields, key, inst) <==> KeywordHolds(c, voc, whole, key, v, inst)
  {
  }

  /** One key of an update: the entry it leaves behind stands for the old and all the new. */
  lemma OverriddenEntry(
    c: Defs, voc: Vocabulary, whole: Fields, beside: Fields, merged: Fields, k: Key, v: Value, over: Fields, inst: Value
  )
    requires Acyclic(c) && LawfulVocabulary(voc) && Find(over, k).Some?
    requires forall w :: HasEntry(over, k, w) ==> v == w || Annotates(voc.isAnnotation, k)
    requires k == AdditionalProperties ==> SameDeclared(whole, merged) && SameDeclared(beside, merged)
    ensures KeywordHolds(c, voc, merged, k, Find(over, k).value, inst) <==>
            KeywordHolds(c, voc, whole, k, v, inst) && EachHolds(c, voc, beside, over, k, inst)
  {
    FoundIsEntry(over, k);
    if Annotates(voc.isAnnotation, k) {
      AnnotationHolds(c, voc, merged, k, Find(over, k).value, inst);
      AnnotationHolds(c, voc, whole, k, v, inst);
      forall w
        ensures KeywordHolds(c, voc, beside, k, w, inst)
      {
        AnnotationHolds(c, voc, beside, k, w, inst);
      }
    } else {
      EachIsOne(c, voc, beside, over, k, v, inst);
      SameKeyword(c, voc, whole, merged, k, v, inst);
      SameKeyword(c, voc, beside, merged, k, v, inst);
    }
  }

  lemma AgreesFurther(isAnnotation: string -> bool, base: Fields, over: Fields)
    requires base.Entry? && Agrees(isAnnotation, base, over)
    ensures Agrees(isAnnotation, base.rest, Left(over, base.key))
  {
    forall k, v, w | HasEntry(base.rest, k, v) && HasEntry(over, k, w)
      ensures v == w || Annotates(isAnnotation, k)
    {
      assert HasEntry(base, k, v);
    }
    forall k, w
      ensures HasEntry(Without(over, base.key), k, w) ==> HasEntry(over, k, w)
    {
      EntriesWithout(over, base.key, k, w);
    }
  }

  /** What is left of an update once the entry of its first key is dealt with. */
  function Left(over: Fields, k: Key): Fields {
    if Find(over, k).Some? then Without(over, k) else over
  }

  /** The entry an update leaves under one key, with what the update has beside it. */
  lemma OneEntry(
    c: Defs, voc: Vocabulary, whole: Fields, beside: Fields, merged: Fields, k: Key, v: Value, over: Fields, inst: Value
  )
    requires Acyclic(c) && LawfulVocabulary(voc)
    requires forall w :: HasEntry(over, k, w) ==> v == w || Annotates(voc.isAnnotation, k)
    requires k == AdditionalProperties ==> SameDeclared(whole, merged)
    requires k == AdditionalProperties && Find(over, k).Some? ==> SameDeclared(beside, merged)
    ensures var w := if Find(over, k).Some? then Find(over, k).value else v;
            KeywordHolds(c, voc, merged, k, w, inst) && Holds(c, voc, beside, Left(over, k), inst) <==>
            KeywordHolds(c, voc, whole, k, v, inst) && Holds(c, voc, beside, over, inst)
  {
    if Find(over, k).Some? {
      HoldsWithout(c, voc, beside, over, k, inst);
      OverriddenEntry(c, voc, whole, beside, merged, k, v, over, inst);
    } else {
      SameKeyword(c, voc, whole, merged, k, v, inst);
    }
  }

  /** An update that agrees with what it updates holds exactly when both hold. */
  lemma {:induction false} OverlayHolds(
    c: Defs, voc: Vocabulary, whole: Fields, beside: Fields, merged: Fields, base: Fields, over: Fields, inst: Value
  )
    requires Acyclic(c) && LawfulVocabulary(voc) && Agrees(voc.isAnnotation, base, over)
    requires Find(base, AdditionalProperties).Some? ==> SameDeclared(whole, merged)
    requires Find(over, AdditionalProperties).Some? ==> SameDeclared(beside, merged)
    ensures Holds(c, voc, merged, Overlay(base, over), inst) <==>
            Holds(c, voc, whole, base, inst) && Holds(c, voc, beside, over, inst)
    decreases base
  {
    match base
    case End => HoldsElsewhere(c, voc, beside, merged, over, inst);
    case Entry(k, v, rest) =>
      assert HasEntry(base, k, v);
      AgreesFurther(voc.isAnnotation, base, over);
      FindWithout(over, k, AdditionalProperties);
      OverlayHolds(c, voc, whole, beside, merged, rest, Left(over, k), inst);
      OneEntry(c, voc, whole, beside, merged, k, v, over, inst);
      HoldsOfEntry(c, voc, whole, base, inst);
      HoldsOfEntry(c, voc, merged, Overlay(base, over), inst);
  }

  lemma HoldsOfEntry(c: Defs, voc: Vocabulary, whole: Fields, fields: Fields, inst: Value)
    requires Acyclic(c) && fields.Entry?
    ensures Holds(c, voc, whole, fields, inst) <==>
            KeywordHolds(c, voc, whole, fields.key, fields.value, inst) && Holds(c, voc, whole, fields.rest, inst)
  {
  }

  /** A reference with harmless siblings means what the merged object means. */
  lemma MergedMeaning(c: Defs, voc: Vocabulary, fields: Fields, target: Fields, inst: Value)
    requires Acyclic(c) && LawfulVocabulary(voc)
    requires Target(c, fields) == Some(Obj(target)) && Harmless(voc.isAnnotation, target, fields)
    ensures Accepts(c, voc, Obj(fields), inst) <==> Accepts(c, voc, Obj(Merged(target, fields)), inst)
  {
    var over, merged := Without(fields, Ref), Merged(target, fields);
    HoldsWithout(c, voc, fields, fields, Ref, inst);
    MergedRef(target, fields);
    FindWithout(fields, Ref, Properties);
    FindWithout(fields, Ref, AdditionalProperties);
    OverlayHolds(c, voc, target, fields, merged, target, over, inst);
    Lighter(c, merged);
    Lighter(c, target);
    Lighter(c, fields);
  }

  // ---------------------------------------------------------------------------
  // The theorem
  // ---------------------------------------------------------------------------

  /** Resolving keeps the declared properties of a safe object. */
  lemma {:induction false} DeclaredKept(c: Defs, isAnnotation: string -> bool, fields: Fields, key: Key)
    requires Acyclic(c) && BelowFields(c, fields, c.top) && SafeFields(c, isAnnotation, fields)
    requires ResolveFields(c, fields).Success?
    ensures Declared(ResolveFields(c, fields).value, key) <==> Declared(fields, key)
  {
    ResolvedKeys(c, fields, Properties);
    SafeProperties(c, isAnnotation, fields);
    match Find(fields, Properties)
    case Some(Obj(props)) => ResolvedKeys(c, props, key);
    case _ =>
  }

  lemma {:induction false} SafeProperties(c: Defs, isAnnotation: string -> bool, fields: Fields)
    requires Acyclic(c) && SafeFields(c, isAnnotation, fields)
    ensures match Find(fields, Properties)
            case Some(Obj(props)) => RefOf(props) == None
            case _ => true
    decreases fields
  {
    match fields
    case End =>
    case Entry(_, _, rest) => SafeProperties(c, isAnnotation, rest);
  }

  lemma {:induction false} Meaning(c: Defs, voc: Vocabulary, node: Value, inst: Value)
    requires Acyclic(c) && LawfulVocabulary(voc) && Safe(c, voc.isAnnotation, node)
    requires Inlined(c, node).Success?
    ensures Accepts(c, voc, node, inst) <==> Accepts(NO_DEFS, voc, Inlined(c, node).value, inst)
    decreases W(c, node), 0
  {
    AllBelow(c, node);
    match node
    case Obj(fields) =>
      match RefOf(fields) {
        case Some(ref) =>
          var name := LastSegment(ref);
          var target := c.definitions[name].fields;
          MergedWeighsLess(c, target, fields, name, ref);
          MergedMeaning(c, voc, fields, target, inst);
          Meaning(c, voc, Obj(Merged(target, fields)), inst);
        case None =>
          var resolved := ResolveFields(c, fields).value;
          ResolvedIsRefFree(c, node);
          Lighter(c, fields);
          Lighter(NO_DEFS, resolved);
          forall key
            ensures Declared(resolved, key) <==> Declared(fields, key)
          {
            DeclaredKept(c, voc.isAnnotation, fields, key);
          }
          MeaningFields(c, voc, fields, resolved, fields, inst);
      }
    case _ =>
  }

  lemma {:induction false} MeaningFields(
    c: Defs, voc: Vocabulary, whole: Fields, resolved: Fields, fields: Fields, inst: Value
  )
    requires Acyclic(c) && LawfulVocabulary(voc) && SafeFields(c, voc.isAnnotation, fields)
    requires BelowFields(c, fields, c.top) && ResolveFields(c, fields).Success?
    requires SameDeclared(whole, resolved)
    ensures Holds(c, voc, whole, fields, inst) <==> Holds(NO_DEFS, voc, resolved, ResolveFields(c, fields).value, inst)
    decreases WFields(c, fields), 0
  {
    match fields
    case End =>
    case Entry(k, v, rest) =>
      LighterEntry(c, k, v, rest);
      LighterEntry(NO_DEFS, k, Resolve(c, v).value, ResolveFields(c, rest).value);
      MeaningEntry(c, voc, whole, resolved, k, v, inst);
      MeaningFields(c, voc, whole, resolved, rest, inst);
  }

  lemma {:induction false} MeaningEntry(
    c: Defs, voc: Vocabulary, whole: Fields, resolved: Fields, k: Key, v: Value, inst: Value
  )
    requires Acyclic(c) && LawfulVocabulary(voc) && SafeEntry(c, voc.isAnnotation, k, v)
    requires Below(c, v, c.top) && Resolve(c, v).Success?
    requires SameDeclared(whole, resolved)
    ensures KeywordHolds(c, voc, whole, k, v, inst) <==>
            KeywordHolds(NO_DEFS, voc, resolved, k, Resolve(c, v).value, inst)
    decreases W(c, v) + 1, 0
  {
    ResolvedShape(c, v);
    match k
    case Ref =>
      if !v.Str? {
        RefFreeUnchanged(c, v);
      }
    case Other(_) => RefFreeUnchanged(c, v);
    case Properties =>
      match v {
        case Obj(props) =>
          Lighter(c, props);
          Lighter(NO_DEFS, ResolveFields(c, props).value);
          MeaningProperties(c, voc, props, inst);
        case _ =>
      }
    case Items => MeaningEverywhere(c, voc, v);
    case AdditionalProperties => MeaningEverywhere(c, voc, v);
    case AnyOf =>
      match v {
        case Arr(options) => MeaningOptions(c, voc, options, inst);
        case _ =>
      }
    case AllOf =>
      match v {
        case Arr(options) => MeaningOptions(c, voc, options, inst);
        case _ =>
      }
  }

  lemma {:induction false} MeaningEverywhere(c: Defs, voc: Vocabulary, v: Value)
    requires Acyclic(c) && LawfulVocabulary(voc) && Safe(c, voc.isAnnotation, v)
    requires Below(c, v, c.top) && Resolve(c, v).Success?
    ensures forall x :: Accepts(c, voc, v, x) <==> Accepts(NO_DEFS, voc, Resolve(c, v).value, x)
    decreases W(c, v), 1
  {
    forall x
      ensures Accepts(c, voc, v, x) <==> Accepts(NO_DEFS, voc, Resolve(c, v).value, x)
    {
      Meaning(c, voc, v, x);
    }
  }

  lemma {:induction false} MeaningProperties(c: Defs, voc: Vocabulary, props: Fields, inst: Value)
    requires Acyclic(c) && LawfulVocabulary(voc) && SafeEach(c, voc.isAnnotation, props)
    requires BelowFields(c, props, c.top) && ResolveFields(c, props).Success?
    ensures PropertiesHold(c, voc, props, inst) <==> PropertiesHold(NO_DEFS, voc, ResolveFields(c, props).value, inst)
    decreases WFields(c, props), 1
  {
    match props
    case End =>
    case Entry(k, v, rest) =>
      LighterEntry(c, k, v, rest);
      LighterEntry(NO_DEFS, k, Resolve(c, v).value, ResolveFields(c, rest).value);
      MeaningEverywhere(c, voc, v);
      MeaningProperties(c, voc, rest, inst);
  }

  lemma {:induction false} MeaningOptions(c: Defs, voc: Vocabulary, options: List, inst: Value)
    requires Acyclic(c) && LawfulVocabulary(voc) && SafeList(c, voc.isAnnotation, options)
    requires BelowList(c, options, c.top) && ResolveList(c, options).Success?
    ensures AnyAccepts(c, voc, options, inst) <==> AnyAccepts(NO_DEFS, voc, ResolveList(c, options).value, inst)
    ensures AllAccept(c, voc, options, inst) <==> AllAccept(NO_DEFS, voc, ResolveList(c, options).value, inst)
    decreases WList(c, options), 1
  {
    match options
    case Nil =>
    case Cons(head, tail) =>
      LighterItem(c, head, tail);
      LighterItem(NO_DEFS, Resolve(c, head).value, ResolveList(c, tail).value);
      Meaning(c, voc, head, inst);
      MeaningOptions(c, voc, tail, inst);
  }

  /** The inlined schema, which needs no definitions, accepts exactly what the original accepts. */
  lemma InliningKeepsMeaning(c: Defs, voc: Vocabulary, schema: Value)
    requires Acyclic(c) && LawfulVocabulary(voc) && Safe(c, voc.isAnnotation, schema)
    requires Inlined(c, schema).Success?
    ensures forall inst :: Accepts(c, voc, schema, inst) <==> Accepts(NO_DEFS, voc, Inlined(c, schema).value, inst)
  {
    forall inst
      ensures Accepts(c, voc, schema, inst) <==> Accepts(NO_DEFS, voc, Inlined(c, schema).value, inst)
    {
      Meaning(c, voc, schema, inst);
    }
  }
}
