/** Field search by JSON key and by type (the `findField` and
    `findFirstFieldOfType` searches of the FieldRetriever classes). */
module FieldLookup {
  import opened Wrappers
  import opened Metadata

  /** A field answers to a JSON key by its own name or by its `@MapFrom` value. */
  predicate MatchesKey(key: string, f: Field)
  {
    f.name == key ||
      (FieldAnnotation(f, MapFromType).Some? && key == FieldAnnotation(f, MapFromType).value.value)
  }

  function KeyMatcher(key: string): Field -> bool
  {
    f => MatchesKey(key, f)
  }

  function FindFieldIn(schema: Schema, c: ClassId, key: string): Option<Field>
    requires c < |schema|
    decreases c
  {
    var own := FirstMatch(schema[c].declaredFields, KeyMatcher(key));
    if own.Some? then own
    else match Superclass(schema, c)
      case Some(p) => FindFieldIn(schema, p, key)
      case None => None
  }

  /** `findField(modelClass, name)`: the first field, own fields before
      inherited ones, that answers to `key`. */
  function FindField(schema: Schema, t: JType, key: string): (r: Option<Field>)
    ensures r.Some? ==> MatchesKey(key, r.value)
    ensures ClassOf(schema, t).None? ==> r.None?
  {
    match ClassOf(schema, t)
    case Some(c) =>
      FindFieldSearchesChain(schema, c, key);
      FindFieldIn(schema, c, key)
    case None => None
  }

  /** The field found for a key is the first field along the superclass chain
      that answers to it; when none is found no field of the chain answers. */
  lemma {:induction false} FindFieldSearchesChain(schema: Schema, c: ClassId, key: string)
    requires c < |schema|
    ensures FindFieldIn(schema, c, key) == FirstMatch(ChainFields(schema, c), KeyMatcher(key))
    decreases c
  {
    match Superclass(schema, c)
    case Some(p) =>
      FindFieldSearchesChain(schema, p, key);
      FirstMatchAppend(schema[c].declaredFields, ChainFields(schema, p), KeyMatcher(key));
    case None =>
      FirstMatchAppend(schema[c].declaredFields, [], KeyMatcher(key));
      assert schema[c].declaredFields + [] == schema[c].declaredFields;
  }

  predicate HasType(fieldClass: JType, f: Field)
  {
    f.fieldType == fieldClass
  }

  function TypeMatcher(fieldClass: JType): Field -> bool
  {
    f => HasType(fieldClass, f)
  }

  function FindFirstFieldOfTypeIn(schema: Schema, c: ClassId, fieldClass: JType): Option<Field>
    requires c < |schema|
    decreases c
  {
    var own := FirstMatch(schema[c].declaredFields, TypeMatcher(fieldClass));
    if own.Some? then own
    else match Superclass(schema, c)
      case Some(p) => FindFirstFieldOfTypeIn(schema, p, fieldClass)
      case None => None
  }

  /** `findFirstFieldOfType(parentClass, fieldClass)`: the first field whose
      type is exactly `fieldClass`, own fields before inherited ones. */
  function FindFirstFieldOfType(schema: Schema, parentClass: JType, fieldClass: JType): (r: Option<Field>)
    ensures r.Some? ==> r.value.fieldType == fieldClass
    ensures ClassOf(schema, parentClass).None? ==> r.None?
  {
    match ClassOf(schema, parentClass)
    case Some(c) =>
      FindFirstFieldOfTypeSearchesChain(schema, c, fieldClass);
      FindFirstFieldOfTypeIn(schema, c, fieldClass)
    case None => None
  }

  /** The field found for a type is the first field of that type along the
      superclass chain. */
  lemma {:induction false} FindFirstFieldOfTypeSearchesChain(schema: Schema, c: ClassId, fieldClass: JType)
    requires c < |schema|
    ensures FindFirstFieldOfTypeIn(schema, c, fieldClass) == FirstMatch(ChainFields(schema, c), TypeMatcher(fieldClass))
    decreases c
  {
    match Superclass(schema, c)
    case Some(p) =>
      FindFirstFieldOfTypeSearchesChain(schema, p, fieldClass);
      FirstMatchAppend(schema[c].declaredFields, ChainFields(schema, p), TypeMatcher(fieldClass));
    case None =>
      FirstMatchAppend(schema[c].declaredFields, [], TypeMatcher(fieldClass));
      assert schema[c].declaredFields + [] == schema[c].declaredFields;
  }

  /** `findFirstFieldOfTypeOrThrow(parentClass, fieldClass)`: Kotlin's
      `checkNotNull` makes a missing field an IllegalStateException. */
  function FindFirstFieldOfTypeOrThrow(schema: Schema, parentClass: JType, fieldClass: JType): (r: Result<Field>)
    ensures r.Success? <==> FindFirstFieldOfType(schema, parentClass, fieldClass).Some?
    ensures r.Success? ==> r.value == FindFirstFieldOfType(schema, parentClass, fieldClass).value
    ensures r.Failure? ==> r.error.IllegalStateException?
  {
    match FindFirstFieldOfType(schema, parentClass, fieldClass)
    case Some(f) => Success(f)
    case None => Failure(IllegalStateException("No field found of requested type"))
  }
}

/** A two-level HashMap (outer key, then inner key) whose inner values may be
    null, as every retriever cache in the source is. */
module Caches {
  import opened Wrappers

  type Cache<!A, !B, V> = map<A, map<B, Option<V>>>

  /** `map[a]?.get(b)`: null when either level misses or a null was stored. */
  function Lookup<A, B, V>(m: Cache<A, B, V>, a: A, b: B): (r: Option<V>)
    ensures r.Some? ==> a in m && b in m[a] && m[a][b] == r
  {
    if a in m && b in m[a] then m[a][b] else None
  }

  /** Creates the inner map when missing, then puts `v` under `b`. */
  function Store<A, B, V>(m: Cache<A, B, V>, a: A, b: B, v: Option<V>): (r: Cache<A, B, V>)
    ensures a in r && b in r[a] && r[a][b] == v
    ensures forall x, y | x in m && y in m[x] && (x != a || y != b) :: x in r && y in r[x] && r[x][y] == m[x][y]
    ensures forall x, y | x in r && y in r[x] && (x != a || y != b) :: x in m && y in m[x]
  {
    m[a := (if a in m then m[a] else map[])[b := v]]
  }

  /** Every entry of the cache holds what `oracle` computes for its keys. */
  ghost predicate Faithful<A, B, V>(m: Cache<A, B, V>, oracle: (A, B) -> Option<V>)
  {
    forall a, b | a in m && b in m[a] :: m[a][b] == oracle(a, b)
  }

  /** Storing the oracle's own answer keeps a faithful cache faithful. */
  lemma StoreKeepsFaithful<A, B, V>(m: Cache<A, B, V>, oracle: (A, B) -> Option<V>, a: A, b: B)
    requires Faithful(m, oracle)
    ensures Faithful(Store(m, a, b, oracle(a, b)), oracle)
  {
    var r := Store(m, a, b, oracle(a, b));
    forall x, y | x in r && y in r[x]
      ensures r[x][y] == oracle(x, y)
    {
      if x != a || y != b {
        assert x in m && y in m[x];
      }
    }
  }
}

/** The caching retrievers of the internal reflection package. Each keeps a
    cache that only ever holds what plain reflection answers, so every lookup
    returns exactly the uncached result. */
module InternalReflection {
  import opened Wrappers
  import opened Metadata
  import opened Caches
  import FieldLookup

  /** internal/reflection/FieldRetriever.kt */
  class FieldRetriever {
    const schema: Schema
    /** model class -> JSON key -> field */
    var fieldJsonCache: Cache<JType, string, Field>
    /** model class -> field type -> field */
    var fieldTypeCache: Cache<JType, JType, Field>

    function KeyOracle(): (JType, string) -> Option<Field>
    {
      (t, key) => FieldLookup.FindField(schema, t, key)
    }

    function TypeOracle(): (JType, JType) -> Option<Field>
    {
      (t, fieldClass) => FieldLookup.FindFirstFieldOfType(schema, t, fieldClass)
    }

    ghost predicate Valid()
      reads this
    {
      Faithful(fieldJsonCache, KeyOracle()) && Faithful(fieldTypeCache, TypeOracle())
    }

    constructor(schema: Schema)
      ensures this.schema == schema && Valid()
      ensures fieldJsonCache == map[] && fieldTypeCache == map[]
    {
      this.schema := schema;
      fieldJsonCache := map[];
      fieldTypeCache := map[];
    }

    /** `getField(modelClass, jsonKey)`: the cached field, else the searched one,
        which is then cached (a null too). */
    method GetField(modelClass: JType, jsonKey: string) returns (field: Option<Field>)
      requires Valid()
      modifies this
      ensures Valid()
      ensures field == FieldLookup.FindField(schema, modelClass, jsonKey)
      ensures fieldTypeCache == old(fieldTypeCache)
      ensures Lookup(old(fieldJsonCache), modelClass, jsonKey).Some? ==> fieldJsonCache == old(fieldJsonCache)
      ensures Lookup(old(fieldJsonCache), modelClass, jsonKey).None? ==>
        fieldJsonCache == Store(old(fieldJsonCache), modelClass, jsonKey, field)
    {
      field := GetCachedField(modelClass, jsonKey);
      if field.None? {
        field := FieldLookup.FindField(schema, modelClass, jsonKey);
        SetCachedField(modelClass, jsonKey, field);
      }
    }

    method GetCachedField(classObject: JType, fieldName: string) returns (field: Option<Field>)
      ensures field == Lookup(fieldJsonCache, classObject, fieldName)
    {
      field := if classObject in fieldJsonCache && fieldName in fieldJsonCache[classObject]
        then fieldJsonCache[classObject][fieldName] else None;
    }

    method SetCachedField(classObject: JType, fieldName: string, field: Option<Field>)
      requires Valid() && field == FieldLookup.FindField(schema, classObject, fieldName)
      modifies this
      ensures Valid()
      ensures fieldJsonCache == Store(old(fieldJsonCache), classObject, fieldName, field)
      ensures fieldTypeCache == old(fieldTypeCache)
    {
      StoreKeepsFaithful(fieldJsonCache, KeyOracle(), classObject, fieldName);
      var fieldMap := if classObject in fieldJsonCache then fieldJsonCache[classObject] else map[];
      fieldJsonCache := fieldJsonCache[classObject := fieldMap[fieldName := field]];
    }

    /** `findFirstFieldOfTypeOrThrow(parentClass, fieldClass)`. */
    method FindFirstFieldOfTypeOrThrow(parentClass: JType, fieldClass: JType) returns (r: Result<Field>)
      requires Valid()
      modifies this
      ensures Valid()
      ensures r == FieldLookup.FindFirstFieldOfTypeOrThrow(schema, parentClass, fieldClass)
      ensures fieldJsonCache == old(fieldJsonCache)
    {
      var field := FindFirstFieldOfType(parentClass, fieldClass);
      if field.None? {
        return Failure(IllegalStateException("No field found of requested type"));
      }
      return Success(field.value);
    }

    /** The cached `findFirstFieldOfType(parentClass, fieldClass)`. */
    method FindFirstFieldOfType(parentClass: JType, fieldClass: JType) returns (field: Option<Field>)
      requires Valid()
      modifies this
      ensures Valid()
      ensures field == FieldLookup.FindFirstFieldOfType(schema, parentClass, fieldClass)
      ensures fieldJsonCache == old(fieldJsonCache)
      ensures Lookup(old(fieldTypeCache), parentClass, fieldClass).Some? ==> fieldTypeCache == old(fieldTypeCache)
      ensures Lookup(old(fieldTypeCache), parentClass, fieldClass).None? ==>
        fieldTypeCache == Store(old(fieldTypeCache), parentClass, fieldClass, field)
    {
      field := GetCachedFieldOfType(parentClass, fieldClass);
      if field.None? {
        field := FieldLookup.FindFirstFieldOfType(schema, parentClass, fieldClass);
        SetCachedFieldOfType(parentClass, fieldClass, field);
      }
    }

    method GetCachedFieldOfType(parentClass: JType, fieldClass: JType) returns (field: Option<Field>)
      ensures field == Lookup(fieldTypeCache, parentClass, fieldClass)
    {
      field := if parentClass in fieldTypeCache && fieldClass in fieldTypeCache[parentClass]
        then fieldTypeCache[parentClass][fieldClass] else None;
    }

    method SetCachedFieldOfType(parentClass: JType, fieldClass: JType, field: Option<Field>)
      requires Valid() && field == FieldLookup.FindFirstFieldOfType(schema, parentClass, fieldClass)
      modifies this
      ensures Valid()
      ensures fieldTypeCache == Store(old(fieldTypeCache), parentClass, fieldClass, field)
      ensures fieldJsonCache == old(fieldJsonCache)
    {
      StoreKeepsFaithful(fieldTypeCache, TypeOracle(), parentClass, fieldClass);
      var fieldMap := if parentClass in fieldTypeCache then fieldTypeCache[parentClass] else map[];
      fieldTypeCache := fieldTypeCache[parentClass := fieldMap[fieldClass := field]];
    }
  }

  function FieldAnnotationOracle(): (Field, AnnotationType) -> Option<Annotation>
  {
    (f, at) => FieldAnnotation(f, at)
  }

  /** internal/reflection/FieldAnnotationRetriever.kt */
  class FieldAnnotationRetriever {
    var fieldAnnotationCache: Cache<Field, AnnotationType, Annotation>

    ghost predicate Valid()
      reads this
    {
      Faithful(fieldAnnotationCache, FieldAnnotationOracle())
    }

    constructor()
      ensures Valid() && fieldAnnotationCache == map[]
    {
      fieldAnnotationCache := map[];
    }

    /** `findAnnotation(field, annotationClass)`. */
    method FindAnnotation(field: Field, annotationClass: AnnotationType) returns (annotation: Option<Annotation>)
      requires Valid()
      modifies this
      ensures Valid()
      ensures annotation == FieldAnnotation(field, annotationClass)
      ensures Lookup(old(fieldAnnotationCache), field, annotationClass).Some? ==> fieldAnnotationCache == old(fieldAnnotationCache)
      ensures Lookup(old(fieldAnnotationCache), field, annotationClass).None? ==>
        fieldAnnotationCache == Store(old(fieldAnnotationCache), field, annotationClass, annotation)
    {
      annotation := FindCachedAnnotation(field, annotationClass);
      if annotation.None? {
        annotation := FieldAnnotation(field, annotationClass);
        SetCachedAnnotation(field, annotationClass, annotation);
      }
    }

    method FindCachedAnnotation(field: Field, annotationClass: AnnotationType) returns (annotation: Option<Annotation>)
      ensures annotation == Lookup(fieldAnnotationCache, field, annotationClass)
    {
      annotation := if field in fieldAnnotationCache && annotationClass in fieldAnnotationCache[field]
        then fieldAnnotationCache[field][annotationClass] else None;
    }

    method SetCachedAnnotation(field: Field, annotationClass: AnnotationType, annotation: Option<Annotation>)
      requires Valid() && annotation == FieldAnnotation(field, annotationClass)
      modifies this
      ensures Valid()
      ensures fieldAnnotationCache == Store(old(fieldAnnotationCache), field, annotationClass, annotation)
    {
      StoreKeepsFaithful(fieldAnnotationCache, FieldAnnotationOracle(), field, annotationClass);
      var annotationMap := if field in fieldAnnotationCache then fieldAnnotationCache[field] else map[];
      fieldAnnotationCache := fieldAnnotationCache[field := annotationMap[annotationClass := annotation]];
    }
  }

  /** internal/reflection/ClassAnnotationRetriever.kt */
  class ClassAnnotationRetriever {
    const schema: Schema
    var classAnnotationCache: Cache<JType, AnnotationType, Annotation>

    function Oracle(): (JType, AnnotationType) -> Option<Annotation>
    {
      (t, at) => ClassAnnotation(schema, t, at)
    }

    ghost predicate Valid()
      reads this
    {
      Faithful(classAnnotationCache, Oracle())
    }

    constructor(schema: Schema)
      ensures this.schema == schema && Valid() && classAnnotationCache == map[]
    {
      this.schema := schema;
      classAnnotationCache := map[];
    }

    /** `findAnnotation(parentClass, annotationClass)`. */
    method FindAnnotation(parentClass: JType, annotationClass: AnnotationType) returns (annotation: Option<Annotation>)
      requires Valid()
      modifies this
      ensures Valid()
      ensures annotation == ClassAnnotation(schema, parentClass, annotationClass)
      ensures Lookup(old(classAnnotationCache), parentClass, annotationClass).Some? ==> classAnnotationCache == old(classAnnotationCache)
      ensures Lookup(old(classAnnotationCache), parentClass, annotationClass).None? ==>
        classAnnotationCache == Store(old(classAnnotationCache), parentClass, annotationClass, annotation)
    {
      annotation := FindCachedAnnotation(parentClass, annotationClass);
      if annotation.None? {
        annotation := ClassAnnotation(schema, parentClass, annotationClass);
        SetCachedAnnotation(parentClass, annotationClass, annotation);
      }
    }

    method FindCachedAnnotation(parentClass: JType, annotationClass: AnnotationType) returns (annotation: Option<Annotation>)
      ensures annotation == Lookup(classAnnotationCache, parentClass, annotationClass)
    {
      annotation := if parentClass in classAnnotationCache && annotationClass in classAnnotationCache[parentClass]
        then classAnnotationCache[parentClass][annotationClass] else None;
    }

    method SetCachedAnnotation(parentClass: JType, annotationClass: AnnotationType, annotation: Option<Annotation>)
      requires Valid() && annotation == ClassAnnotation(schema, parentClass, annotationClass)
      modifies this
      ensures Valid()
      ensures classAnnotationCache == Store(old(classAnnotationCache), parentClass, annotationClass, annotation)
    {
      StoreKeepsFaithful(classAnnotationCache, Oracle(), parentClass, annotationClass);
      var annotationMap := if parentClass in classAnnotationCache then classAnnotationCache[parentClass] else map[];
      classAnnotationCache := classAnnotationCache[parentClass := annotationMap[annotationClass := annotation]];
    }
  }
}

/** The caching retrievers of the older reflection package, used by the Java
    persister (reflection/FieldRetriever.java and AnnotationRetriever.java;
    the Kotlin files of the same names there are ports of them). */
module Reflection {
  import opened Wrappers
  import opened Metadata
  import opened Caches
  import FieldLookup

  class FieldRetriever {
    const schema: Schema
    var fieldCache: Cache<JType, string, Field>
    var fieldTypeCache: Cache<JType, JType, Field>

    function KeyOracle(): (JType, string) -> Option<Field>
    {
      (t, key) => FieldLookup.FindField(schema, t, key)
    }

    function TypeOracle(): (JType, JType) -> Option<Field>
    {
      (t, fieldClass) => FieldLookup.FindFirstFieldOfType(schema, t, fieldClass)
    }

    ghost predicate Valid()
      reads this
    {
      Faithful(fieldCache, KeyOracle()) && Faithful(fieldTypeCache, TypeOracle())
    }

    constructor(schema: Schema)
      ensures this.schema == schema && Valid()
      ensures fieldCache == map[] && fieldTypeCache == map[]
    {
      this.schema := schema;
      fieldCache := map[];
      fieldTypeCache := map[];
    }

    /** `getField(modelClass, name)`. */
    method GetField(modelClass: JType, name: string) returns (field: Option<Field>)
      requires Valid()
      modifies this
      ensures Valid()
      ensures field == FieldLookup.FindField(schema, modelClass, name)
      ensures fieldTypeCache == old(fieldTypeCache)
      ensures Lookup(old(fieldCache), modelClass, name).Some? ==> fieldCache == old(fieldCache)
      ensures Lookup(old(fieldCache), modelClass, name).None? ==>
        fieldCache == Store(old(fieldCache), modelClass, name, field)
    {
      field := Lookup(fieldCache, modelClass, name);
      if field.None? {
        field := FieldLookup.FindField(schema, modelClass, name);
        StoreKeepsFaithful(fieldCache, KeyOracle(), modelClass, name);
        fieldCache := Store(fieldCache, modelClass, name, field);
      }
    }

    /** `getFirstFieldOfType(parentClass, fieldClass)`. */
    method GetFirstFieldOfType(parentClass: JType, fieldClass: JType) returns (field: Option<Field>)
      requires Valid()
      modifies this
      ensures Valid()
      ensures field == FieldLookup.FindFirstFieldOfType(schema, parentClass, fieldClass)
      ensures fieldCache == old(fieldCache)
      ensures Lookup(old(fieldTypeCache), parentClass, fieldClass).Some? ==> fieldTypeCache == old(fieldTypeCache)
      ensures Lookup(old(fieldTypeCache), parentClass, fieldClass).None? ==>
        fieldTypeCache == Store(old(fieldTypeCache), parentClass, fieldClass, field)
    {
      field := Lookup(fieldTypeCache, parentClass, fieldClass);
      if field.None? {
        field := FieldLookup.FindFirstFieldOfType(schema, parentClass, fieldClass);
        StoreKeepsFaithful(fieldTypeCache, TypeOracle(), parentClass, fieldClass);
        fieldTypeCache := Store(fieldTypeCache, parentClass, fieldClass, field);
      }
    }
  }

  class AnnotationRetriever {
    const schema: Schema
    var fieldAnnotationCache: Cache<Field, AnnotationType, Annotation>
    var classAnnotationCache: Cache<JType, AnnotationType, Annotation>

    function FieldOracle(): (Field, AnnotationType) -> Option<Annotation>
    {
      (f, at) => FieldAnnotation(f, at)
    }

    function ClassOracle(): (JType, AnnotationType) -> Option<Annotation>
    {
      (t, at) => ClassAnnotation(schema, t, at)
    }

    ghost predicate Valid()
      reads this
    {
      Faithful(fieldAnnotationCache, FieldOracle()) && Faithful(classAnnotationCache, ClassOracle())
    }

    constructor(schema: Schema)
      ensures this.schema == schema && Valid()
      ensures fieldAnnotationCache == map[] && classAnnotationCache == map[]
    {
      this.schema := schema;
      fieldAnnotationCache := map[];
      classAnnotationCache := map[];
    }

    /** `getAnnotation(field, annotationClass)`. */
    method GetFieldAnnotation(field: Field, annotationClass: AnnotationType) returns (annotation: Option<Annotation>)
      requires Valid()
      modifies this
      ensures Valid()
      ensures annotation == FieldAnnotation(field, annotationClass)
      ensures classAnnotationCache == old(classAnnotationCache)
      ensures Lookup(old(fieldAnnotationCache), field, annotationClass).Some? ==> fieldAnnotationCache == old(fieldAnnotationCache)
      ensures Lookup(old(fieldAnnotationCache), field, annotationClass).None? ==>
        fieldAnnotationCache == Store(old(fieldAnnotationCache), field, annotationClass, annotation)
    {
      annotation := Lookup(fieldAnnotationCache, field, annotationClass);
      if annotation.None? {
        annotation := FieldAnnotation(field, annotationClass);
        StoreKeepsFaithful(fieldAnnotationCache, FieldOracle(), field, annotationClass);
        fieldAnnotationCache := Store(fieldAnnotationCache, field, annotationClass, annotation);
      }
    }

    /** `getAnnotation(parentClass, annotationClass)`. */
    method GetClassAnnotation(parentClass: JType, annotationClass: AnnotationType) returns (annotation: Option<Annotation>)
      requires Valid()
      modifies this
      ensures Valid()
      ensures annotation == ClassAnnotation(schema, parentClass, annotationClass)
      ensures fieldAnnotationCache == old(fieldAnnotationCache)
      ensures Lookup(old(classAnnotationCache), parentClass, annotationClass).Some? ==> classAnnotationCache == old(classAnnotationCache)
      ensures Lookup(old(classAnnotationCache), parentClass, annotationClass).None? ==>
        classAnnotationCache == Store(old(classAnnotationCache), parentClass, annotationClass, annotation)
    {
      annotation := Lookup(classAnnotationCache, parentClass, annotationClass);
      if annotation.None? {
        annotation := ClassAnnotation(schema, parentClass, annotationClass);
        StoreKeepsFaithful(classAnnotationCache, ClassOracle(), parentClass, annotationClass);
        classAnnotationCache := Store(classAnnotationCache, parentClass, annotationClass, annotation);
      }
    }
  }
}
