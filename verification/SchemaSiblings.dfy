/**
 * What may stand beside a reference. Annotations always may; a plain keyword may exactly when it
 * does not give a key of the target another value.
 */
module SchemaSiblings {
  import opened Wrappers
  import opened Json
  import opened Schema
  import opened SchemaMeaning

  // ---------------------------------------------------------------------------
  // References beside annotations only
  // ---------------------------------------------------------------------------

  predicate OnlyAnnotations(isAnnotation: string -> bool, fields: Fields) {
    match fields
    case End => true
    case Entry(k, v, rest) =>
      ((k == Ref && v.Str?) || Annotates(isAnnotation, k)) && OnlyAnnotations(isAnnotation, rest)
  }

  predicate Proper(isAnnotation: string -> bool, schema: Value)
    decreases schema, 0
  {
    match schema
    case Obj(fields) =>
      ProperFields(isAnnotation, fields) && (RefOf(fields).Some? ==> OnlyAnnotations(isAnnotation, fields))
    case _ => true
  }

  predicate ProperFields(isAnnotation: string -> bool, fields: Fields)
    decreases fields, 0
  {
    match fields
    case End => true
    case Entry(k, v, rest) => ProperEntry(isAnnotation, k, v) && ProperFields(isAnnotation, rest)
  }

  predicate ProperEntry(isAnnotation: string -> bool, k: Key, v: Value)
    decreases v, 1
  {
    match k
    case Ref => v.Str? || RefFree(v)
    case Properties =>
      (match v case Obj(props) => RefOf(props) == None && ProperEach(isAnnotation, props) case _ => true)
    case Items => Proper(isAnnotation, v)
    case AdditionalProperties => Proper(isAnnotation, v)
    case AnyOf => (match v case Arr(options) => ProperList(isAnnotation, options) case _ => true)
    case AllOf => (match v case Arr(options) => ProperList(isAnnotation, options) case _ => true)
    case Other(_) => RefFree(v)
  }

  predicate ProperEach(isAnnotation: string -> bool, props: Fields)
    decreases props, 0
  {
    match props
    case End => true
    case Entry(_, v, rest) => Proper(isAnnotation, v) && ProperEach(isAnnotation, rest)
  }

  predicate ProperList(isAnnotation: string -> bool, options: List)
    decreases options, 0
  {
    match options
    case Nil => true
    case Cons(head, tail) => Proper(isAnnotation, head) && ProperList(isAnnotation, tail)
  }

  ghost predicate ProperDefs(c: Defs, isAnnotation: string -> bool) {
    forall name :: name in c.definitions ==> Proper(isAnnotation, c.definitions[name])
  }

  lemma {:induction false} AnnotationsWithout(isAnnotation: string -> bool, fields: Fields, key: Key)
    requires OnlyAnnotations(isAnnotation, fields) && ProperFields(isAnnotation, fields)
    ensures OnlyAnnotations(isAnnotation, Without(fields, key)) && ProperFields(isAnnotation, Without(fields, key))
    ensures Find(fields, key).Some? && key != Ref ==>
              Annotates(isAnnotation, key) && RefFree(Find(fields, key).value)
    decreases fields
  {
    match fields
    case End =>
    case Entry(_, _, rest) => AnnotationsWithout(isAnnotation, rest, key);
  }

  lemma {:induction false} AnnotationEntries(isAnnotation: string -> bool, fields: Fields, k: Key, v: Value)
    requires OnlyAnnotations(isAnnotation, fields) && HasEntry(fields, k, v)
    ensures (k == Ref && v.Str?) || Annotates(isAnnotation, k)
    decreases fields
  {
    match fields
    case End =>
    case Entry(_, _, rest) =>
      if HasEntry(rest, k, v) {
        AnnotationEntries(isAnnotation, rest, k, v);
      }
  }

  lemma {:induction false} OverlayProper(isAnnotation: string -> bool, base: Fields, over: Fields)
    requires ProperFields(isAnnotation, base) && Find(over, Ref).None?
    requires OnlyAnnotations(isAnnotation, over) && ProperFields(isAnnotation, over)
    ensures ProperFields(isAnnotation, Overlay(base, over))
    ensures OnlyAnnotations(isAnnotation, base) ==> OnlyAnnotations(isAnnotation, Overlay(base, over))
    decreases base
  {
    match base
    case End =>
    case Entry(k, _, rest) =>
      AnnotationsWithout(isAnnotation, over, k);
      FindWithout(over, k, Ref);
      OverlayProper(isAnnotation, rest, Left(over, k));
  }

  lemma AnnotationsAreHarmless(isAnnotation: string -> bool, target: Fields, fields: Fields)
    requires OnlyAnnotations(isAnnotation, fields) && ProperFields(isAnnotation, fields)
    ensures Harmless(isAnnotation, target, fields)
  {
    forall k, v | HasEntry(fields, k, v)
      ensures (k == Ref && v.Str?) || Annotates(isAnnotation, k)
    {
      AnnotationEntries(isAnnotation, fields, k, v);
    }
    forall k, v | HasEntry(Without(fields, Ref), k, v)
      ensures HasEntry(fields, k, v) && k != Ref
    {
      EntriesWithout(fields, Ref, k, v);
    }
    AnnotationsWithout(isAnnotation, fields, Properties);
    AnnotationsWithout(isAnnotation, fields, AdditionalProperties);
    FindWithout(fields, Ref, Properties);
    FindOverlay(target, Without(fields, Ref), Properties);
  }

  /** Schemas as the program generates them, with only annotations beside references, are safe. */
  lemma {:induction false} ProperIsSafe(c: Defs, isAnnotation: string -> bool, schema: Value)
    requires Acyclic(c) && ProperDefs(c, isAnnotation) && Proper(isAnnotation, schema)
    ensures Safe(c, isAnnotation, schema)
    decreases W(c, schema), 0
  {
    match schema
    case Obj(fields) =>
      Lighter(c, fields);
      match Target(c, fields) {
        case Some(Obj(target)) =>
          assert Proper(isAnnotation, c.definitions[LastSegment(RefOf(fields).value)]);
          MergedLighter(c, fields, target);
          AnnotationsAreHarmless(isAnnotation, target, fields);
          AnnotationsWithout(isAnnotation, fields, Ref);
          FindWithout(fields, Ref, Ref);
          OverlayProper(isAnnotation, target, Without(fields, Ref));
          MergedRef(target, fields);
          ProperIsSafe(c, isAnnotation, Obj(Merged(target, fields)));
        case _ => ProperFieldsAreSafe(c, isAnnotation, fields);
      }
    case _ =>
  }

  lemma {:induction false} ProperFieldsAreSafe(c: Defs, isAnnotation: string -> bool, fields: Fields)
    requires Acyclic(c) && ProperDefs(c, isAnnotation) && ProperFields(isAnnotation, fields)
    ensures SafeFields(c, isAnnotation, fields)
    decreases WFields(c, fields), 0
  {
    match fields
    case End =>
    case Entry(k, v, rest) =>
      LighterEntry(c, k, v, rest);
      ProperEntryIsSafe(c, isAnnotation, k, v);
      ProperFieldsAreSafe(c, isAnnotation, rest);
  }

  lemma {:induction false} ProperEntryIsSafe(c: Defs, isAnnotation: string -> bool, k: Key, v: Value)
    requires Acyclic(c) && ProperDefs(c, isAnnotation) && ProperEntry(isAnnotation, k, v)
    ensures SafeEntry(c, isAnnotation, k, v)
    decreases W(c, v) + 1, 0
  {
    match k
    case Ref =>
    case Other(_) =>
    case Properties =>
      match v {
        case Obj(props) =>
          Lighter(c, props);
          ProperEachIsSafe(c, isAnnotation, props);
        case _ =>
      }
    case Items => ProperIsSafe(c, isAnnotation, v);
    case AdditionalProperties => ProperIsSafe(c, isAnnotation, v);
    case AnyOf =>
      match v {
        case Arr(options) => ProperListIsSafe(c, isAnnotation, options);
        case _ =>
      }
    case AllOf =>
      match v {
        case Arr(options) => ProperListIsSafe(c, isAnnotation, options);
        case _ =>
      }
  }

  lemma {:induction false} ProperEachIsSafe(c: Defs, isAnnotation: string -> bool, props: Fields)
    requires Acyclic(c) && ProperDefs(c, isAnnotation) && ProperEach(isAnnotation, props)
    ensures SafeEach(c, isAnnotation, props)
    decreases WFields(c, props), 1
  {
    match props
    case End =>
    case Entry(k, v, rest) =>
      LighterEntry(c, k, v, rest);
      ProperIsSafe(c, isAnnotation, v);
      ProperEachIsSafe(c, isAnnotation, rest);
  }

  lemma {:induction false} ProperListIsSafe(c: Defs, isAnnotation: string -> bool, options: List)
    requires Acyclic(c) && ProperDefs(c, isAnnotation) && ProperList(isAnnotation, options)
    ensures SafeList(c, isAnnotation, options)
    decreases WList(c, options), 1
  {
    match options
    case Nil =>
    case Cons(head, tail) =>
      LighterItem(c, head, tail);
      ProperIsSafe(c, isAnnotation, head);
      ProperListIsSafe(c, isAnnotation, tail);
  }

  // ---------------------------------------------------------------------------
  // Exactly which siblings lose meaning
  // ---------------------------------------------------------------------------

  /** Assertions and annotations only, and no reference inside them. */
  predicate Plain(fields: Fields) {
    match fields
    case End => true
    case Entry(k, v, rest) => k.Other? && RefFree(v) && Plain(rest)
  }

  /** A dictionary has each key once. */
  predicate IsDict(fields: Fields) {
    match fields
    case End => true
    case Entry(k, _, rest) => Find(rest, k) == None && IsDict(rest)
  }

  lemma {:induction false} DictEntries(fields: Fields, k: Key, v: Value)
    requires IsDict(fields)
    ensures HasEntry(fields, k, v) <==> Find(fields, k) == Some(v)
    decreases fields
  {
    match fields
    case End =>
    case Entry(key, _, rest) => DictEntries(rest, k, v);
  }

  lemma {:induction false} DictWithout(fields: Fields, key: Key)
    requires IsDict(fields)
    ensures IsDict(Without(fields, key))
    decreases fields
  {
    match fields
    case End =>
    case Entry(k, _, rest) =>
      DictWithout(rest, key);
      FindWithout(rest, key, k);
  }

  lemma {:induction false} DictOverlay(base: Fields, over: Fields)
    requires IsDict(base) && IsDict(over)
    ensures IsDict(Overlay(base, over))
    decreases base
  {
    match base
    case End =>
    case Entry(k, _, rest) =>
      var left := Left(over, k);
      DictWithout(over, k);
      DictOverlay(rest, left);
      FindWithout(over, k, k);
      FindOverlay(rest, left, k);
  }

  lemma {:induction false} PlainWithout(fields: Fields, key: Key)
    requires Plain(fields)
    ensures Plain(Without(fields, key))
    ensures Find(fields, key).Some? ==> key.Other? && RefFree(Find(fields, key).value)
    decreases fields
  {
    match fields
    case End =>
    case Entry(_, _, rest) => PlainWithout(rest, key);
  }

  lemma {:induction false} PlainOverlay(base: Fields, over: Fields)
    requires Plain(base) && Plain(over)
    ensures Plain(Overlay(base, over))
    decreases base
  {
    match base
    case End =>
    case Entry(k, _, rest) =>
      PlainWithout(over, k);
      PlainOverlay(rest, Left(over, k));
  }

  lemma {:induction false} PlainIsSafe(c: Defs, isAnnotation: string -> bool, fields: Fields)
    requires Acyclic(c) && Plain(fields)
    ensures SafeFields(c, isAnnotation, fields) && RefFreeFields(fields)
    decreases fields
  {
    match fields
    case End =>
    case Entry(_, _, rest) => PlainIsSafe(c, isAnnotation, rest);
  }

  /** The vocabulary whose only assertion refuses everything under one key and value. */
  function Refusing(isAnnotation: string -> bool, key: Key, value: Value): Vocabulary {
    Vocabulary((k: Key, v: Value, inst: Value) => k != key || v != value, isAnnotation)
  }

  lemma {:induction false} RefusingHolds(
    c: Defs, isAnnotation: string -> bool, key: Key, value: Value, whole: Fields, fields: Fields, inst: Value
  )
    requires Acyclic(c) && Plain(fields)
    ensures Holds(c, Refusing(isAnnotation, key, value), whole, fields, inst) <==> !HasEntry(fields, key, value)
    decreases fields
  {
    match fields
    case End =>
    case Entry(_, _, rest) => RefusingHolds(c, isAnnotation, key, value, whole, rest, inst);
  }

  /** A reference to `target`, both it and the siblings made of plain keywords. */
  ghost predicate PlainReference(c: Defs, fields: Fields, target: Fields) {
    && Target(c, fields) == Some(Obj(target))
    && IsDict(fields) && IsDict(target) && Plain(Without(fields, Ref)) && Plain(target)
  }

  lemma PlainInlined(c: Defs, fields: Fields, target: Fields)
    requires Acyclic(c) && PlainReference(c, fields, target)
    ensures Plain(Merged(target, fields)) && IsDict(Merged(target, fields))
    ensures Inlined(c, Obj(fields)) == Success(Obj(Merged(target, fields)))
  {
    var merged := Merged(target, fields);
    PlainOverlay(target, Without(fields, Ref));
    DictWithout(fields, Ref);
    DictOverlay(target, Without(fields, Ref));
    PlainWithout(merged, Ref);
    PlainIsSafe(c, _ => false, merged);
    RefFreeUnchanged(c, Obj(merged));
    AllBelow(c, Obj(fields));
    var ref := RefOf(fields).value;
    MergedWeighsLess(c, target, fields, LastSegment(ref), ref);
  }

  /** The inlined reference is read as the original one is, whatever the assertions assert. */
  ghost predicate SameForAll(c: Defs, isAnnotation: string -> bool, schema: Value, inlined: Value)
    requires Acyclic(c)
  {
    forall assertion, inst :: LawfulVocabulary(Vocabulary(assertion, isAnnotation)) ==>
      (Accepts(c, Vocabulary(assertion, isAnnotation), schema, inst) <==>
       Accepts(NO_DEFS, Vocabulary(assertion, isAnnotation), inlined, inst))
  }

  /**
   * Exactly when a reference with plain siblings keeps its meaning: no sibling gives a key of
   * the target another value, annotations aside.
   */
  lemma PlainSiblingsIff(c: Defs, isAnnotation: string -> bool, fields: Fields, target: Fields)
    requires Acyclic(c) && PlainReference(c, fields, target)
    ensures Inlined(c, Obj(fields)).Success?
    ensures SameForAll(c, isAnnotation, Obj(fields), Inlined(c, Obj(fields)).value)
            <==> Agrees(isAnnotation, target, Without(fields, Ref))
  {
    PlainInlined(c, fields, target);
    if Agrees(isAnnotation, target, Without(fields, Ref)) {
      PlainKeepsMeaning(c, isAnnotation, fields, target);
    } else {
      var k, v, w :|
        && HasEntry(target, k, v) && HasEntry(Without(fields, Ref), k, w)
        && v != w && !Annotates(isAnnotation, k);
      OverridingLosesMeaning(c, isAnnotation, fields, target, k, v, w, Null);
    }
  }

  lemma PlainKeepsMeaning(c: Defs, isAnnotation: string -> bool, fields: Fields, target: Fields)
    requires Acyclic(c) && PlainReference(c, fields, target)
    requires Agrees(isAnnotation, target, Without(fields, Ref))
    ensures Inlined(c, Obj(fields)).Success?
    ensures SameForAll(c, isAnnotation, Obj(fields), Inlined(c, Obj(fields)).value)
  {
    PlainInlined(c, fields, target);
    forall v
      ensures HasEntry(fields, Ref, v) ==> v.Str?
    {
      DictEntries(fields, Ref, v);
    }
    PlainWithout(target, AdditionalProperties);
    PlainWithout(Without(fields, Ref), AdditionalProperties);
    FindWithout(fields, Ref, AdditionalProperties);
    var merged := Merged(target, fields);
    PlainWithout(merged, Ref);
    PlainIsSafe(c, isAnnotation, merged);
    forall assertion, inst | LawfulVocabulary(Vocabulary(assertion, isAnnotation))
      ensures Accepts(c, Vocabulary(assertion, isAnnotation), Obj(fields), inst) <==>
              Accepts(NO_DEFS, Vocabulary(assertion, isAnnotation), Obj(merged), inst)
    {
      Meaning(c, Vocabulary(assertion, isAnnotation), Obj(fields), inst);
    }
  }

  lemma OverridingLosesMeaning(
    c: Defs, isAnnotation: string -> bool, fields: Fields, target: Fields, k: Key, v: Value, w: Value, inst: Value
  )
    requires Acyclic(c) && PlainReference(c, fields, target)
    requires HasEntry(target, k, v) && HasEntry(Without(fields, Ref), k, w) && v != w && !Annotates(isAnnotation, k)
    ensures var voc := Refusing(isAnnotation, k, v);
            && LawfulVocabulary(voc)
            && !Accepts(c, voc, Obj(fields), inst)
            && Accepts(NO_DEFS, voc, Obj(Merged(target, fields)), inst)
  {
    var over, merged := Without(fields, Ref), Merged(target, fields);
    PlainInlined(c, fields, target);
    RefusingHolds(c, isAnnotation, k, v, target, target, inst);
    Lighter(c, target);
    Lighter(c, fields);
    DictWithout(fields, Ref);
    DictEntries(over, k, w);
    FindOverlay(target, over, k);
    DictEntries(merged, k, v);
    PlainWithout(merged, Ref);
    RefusingHolds(NO_DEFS, isAnnotation, k, v, merged, merged, inst);
    Lighter(NO_DEFS, merged);
  }

  // ---------------------------------------------------------------------------
  // An example
  // ---------------------------------------------------------------------------

  const MIN_LENGTH: Key := Other("minLength")
  const STRICT: Fields := Entry(MIN_LENGTH, Number(5.0), End)
  const LENIENT: Fields := Entry(MIN_LENGTH, Number(1.0), End)
  const EXAMPLE_DEFS: Defs := Defs(map["A" := Obj(STRICT)], map["A" := 0], 1)
  const EXAMPLE_REF: string := "#/$defs/A"
  const EXAMPLE_FIELDS: Fields := Entry(Ref, Str(EXAMPLE_REF), LENIENT)

  /** `minLength` as JSON Schema Validation has it: it says nothing about what is not a string. */
  const LENGTHS: Vocabulary := Vocabulary(
    (k: Key, v: Value, inst: Value) => k == MIN_LENGTH && v.Number? && inst.Str? ==> |inst.s| as real >= v.n,
    (name: string) => false)

  lemma ExampleName()
    ensures LastSegment(EXAMPLE_REF) == "A"
  {
    assert EXAMPLE_REF == "#/$defs" + "/" + "A";
    LastSegmentOfPath("#/$defs", "A");
  }

  lemma ExampleAcyclic()
    ensures Acyclic(EXAMPLE_DEFS)
  {
    assert Find(STRICT, Ref) == Find(End, Ref) == None;
    assert Below(EXAMPLE_DEFS, Obj(STRICT), 0);
  }

  lemma ExampleReference()
    ensures Acyclic(EXAMPLE_DEFS) && PlainReference(EXAMPLE_DEFS, EXAMPLE_FIELDS, STRICT)
    ensures Merged(STRICT, EXAMPLE_FIELDS) == LENIENT
  {
    ExampleAcyclic();
    ExampleName();
    assert RefOf(EXAMPLE_FIELDS) == Some(EXAMPLE_REF);
    assert Without(EXAMPLE_FIELDS, Ref) == LENIENT;
    assert Without(LENIENT, MIN_LENGTH) == End;
    assert Find(LENIENT, Ref) == Find(End, Ref) == None;
    assert Find(End, MIN_LENGTH) == None;
  }

  lemma OneKeyword(c: Defs, v: Value, inst: Value)
    requires Acyclic(c)
    ensures Accepts(c, LENGTHS, Obj(Entry(MIN_LENGTH, v, End)), inst) <==> LENGTHS.assertion(MIN_LENGTH, v, inst)
  {
    var fields := Entry(MIN_LENGTH, v, End);
    Lighter(c, fields);
    assert Find(fields, Ref) == Find(End, Ref) == None;
    assert Holds(c, LENGTHS, fields, End, inst);
    assert Holds(c, LENGTHS, fields, fields, inst) <==> KeywordHolds(c, LENGTHS, fields, MIN_LENGTH, v, inst);
  }

  /**
   * A definition asks for a `minLength` of 5 and a sibling of the reference for 1: the original
   * demands both, the inlined schema only the sibling's, because updating a dictionary overrides.
   * A string of length 3 tells them apart.
   */
  lemma OverriddenAssertionIsLost()
    ensures Acyclic(EXAMPLE_DEFS) && Inlined(EXAMPLE_DEFS, Obj(EXAMPLE_FIELDS)).Success?
    ensures !Accepts(EXAMPLE_DEFS, LENGTHS, Obj(EXAMPLE_FIELDS), Str("abc"))
    ensures Accepts(NO_DEFS, LENGTHS, Inlined(EXAMPLE_DEFS, Obj(EXAMPLE_FIELDS)).value, Str("abc"))
  {
    ExampleReference();
    PlainInlined(EXAMPLE_DEFS, EXAMPLE_FIELDS, STRICT);
    OneKeyword(NO_DEFS, Number(1.0), Str("abc"));
    OneKeyword(EXAMPLE_DEFS, Number(5.0), Str("abc"));
    TargetRefuses(EXAMPLE_DEFS, LENGTHS, EXAMPLE_FIELDS, Obj(STRICT), Str("abc"));
  }

  lemma TargetRefuses(c: Defs, voc: Vocabulary, fields: Fields, target: Value, inst: Value)
    requires Acyclic(c) && Target(c, fields) == Some(target) && !Accepts(c, voc, target, inst)
    ensures !Accepts(c, voc, Obj(fields), inst)
  {
    Lighter(c, fields);
  }
}
