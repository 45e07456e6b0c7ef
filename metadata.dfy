/** The reflective view of the model classes that the persister consults:
    Java types, the OrmLite and Poetry annotations on fields and classes,
    declared fields and the superclass chain. A program's model classes form a
    schema, a sequence indexed by class id. */
module Metadata {
  import opened Wrappers

  type ClassId = nat

  datatype Prim = IntP | LongP | ShortP | ByteP | BooleanP | FloatP | DoubleP | CharP

  /** A Java type as `Field.getType()` reports it. */
  datatype JType =
    | Primitive(prim: Prim)
    | Boxed(boxed: Prim)
      /** String, CharSequence or any other CharSequence implementation */
    | CharSequenceType(typeName: string)
      /** OrmLite's ForeignCollection */
    | ForeignCollectionType
      /** a model class of the schema */
    | ModelType(id: ClassId)
    | OtherType(otherName: string)

  /** The attributes of OrmLite's `@DatabaseField` that the persister reads. */
  datatype DatabaseFieldInfo = DatabaseFieldInfo(
    columnName: string,
    id: bool,
    generatedId: bool,
    foreign: bool,
    foreignAutoRefresh: bool,
    foreignColumnName: string)

  datatype Annotation =
    | DatabaseTable(tableName: string)
    | DatabaseField(info: DatabaseFieldInfo)
    | ForeignCollectionField
    | ManyToManyField(targetType: JType)
    | ForeignCollectionFieldSingleTarget(targetField: string)
    | MapFrom(value: string)

  /** The annotation classes, the key `getAnnotation` is asked with. */
  datatype AnnotationType =
    | DatabaseTableType
    | DatabaseFieldType
    | ForeignCollectionFieldType
    | ManyToManyFieldType
    | SingleTargetType
    | MapFromType

  function TypeOf(a: Annotation): AnnotationType
  {
    match a
    case DatabaseTable(_) => DatabaseTableType
    case DatabaseField(_) => DatabaseFieldType
    case ForeignCollectionField => ForeignCollectionFieldType
    case ManyToManyField(_) => ManyToManyFieldType
    case ForeignCollectionFieldSingleTarget(_) => SingleTargetType
    case MapFrom(_) => MapFromType
  }

  /** `getAnnotation(type)` on an annotated element: its annotation of that
      class, if present. */
  function AnnotationOf(annotations: seq<Annotation>, t: AnnotationType): (r: Option<Annotation>)
    ensures r.Some? ==> r.value in annotations && TypeOf(r.value) == t
    ensures r.None? ==> forall a | a in annotations :: TypeOf(a) != t
  {
    if annotations == [] then None
    else if TypeOf(annotations[0]) == t then Some(annotations[0])
    else AnnotationOf(annotations[1..], t)
  }

  /** A declared field: its name, declaring class, type, the type argument of a
      generic type (the element class of a ForeignCollection) and annotations. */
  datatype Field = Field(
    name: string,
    declaringClass: ClassId,
    fieldType: JType,
    typeArgument: JType,
    annotations: seq<Annotation>)

  datatype ModelClass = ModelClass(
    name: string,
    simpleName: string,
    annotations: seq<Annotation>,
    declaredFields: seq<Field>,
    superclass: Option<ClassId>)

  type Schema = seq<ModelClass>

  /** The schema lists every class after its superclass, as a class cannot
      extend itself. */
  predicate WellFormed(schema: Schema)
  {
    forall c | 0 <= c < |schema| :: schema[c].superclass.Some? ==> schema[c].superclass.value < c
  }

  /** The model class a type denotes, if it is one of the schema's. Other
      types carry none of the annotations the persister looks for. */
  function ClassOf(schema: Schema, t: JType): (r: Option<ClassId>)
    ensures r.Some? ==> r.value < |schema| && t == ModelType(r.value)
  {
    if t.ModelType? && t.id < |schema| then Some(t.id) else None
  }

  /** `getSuperclass()` restricted to model classes; a link that does not
      point to an earlier class ends the chain (it cannot occur in a
      well-formed schema). */
  function Superclass(schema: Schema, c: ClassId): (r: Option<ClassId>)
    requires c < |schema|
    ensures r.Some? ==> r.value < c
    ensures WellFormed(schema) ==> r == schema[c].superclass
  {
    match schema[c].superclass
    case Some(p) => if p < c then Some(p) else None
    case None => None
  }

  function FieldAnnotation(f: Field, t: AnnotationType): Option<Annotation>
  {
    AnnotationOf(f.annotations, t)
  }

  function ClassAnnotation(schema: Schema, t: JType, at: AnnotationType): Option<Annotation>
  {
    match ClassOf(schema, t)
    case Some(c) => AnnotationOf(schema[c].annotations, at)
    case None => None
  }

  /** The field's `@DatabaseField`, if any. */
  function DatabaseFieldOf(f: Field): (r: Option<DatabaseFieldInfo>)
    ensures r.Some? <==> FieldAnnotation(f, DatabaseFieldType).Some?
    ensures r.Some? ==> FieldAnnotation(f, DatabaseFieldType) == Some(DatabaseField(r.value))
  {
    match FieldAnnotation(f, DatabaseFieldType)
    case Some(a) => Some(a.info)
    case None => None
  }

  /** The fields of a class followed by those of its superclasses, nearest
      first: the order in which every inherited lookup visits them. */
  function ChainFields(schema: Schema, c: ClassId): seq<Field>
    requires c < |schema|
    decreases c
  {
    schema[c].declaredFields +
      (match Superclass(schema, c)
       case Some(p) => ChainFields(schema, p)
       case None => [])
  }

  /** The first field of `fields` satisfying `p`. */
  function FirstMatch(fields: seq<Field>, p: Field -> bool): (r: Option<Field>)
    ensures r.Some? ==> p(r.value)
    ensures r.Some? ==> exists i | 0 <= i < |fields| :: fields[i] == r.value && forall k | 0 <= k < i :: !p(fields[k])
    ensures r.None? ==> forall k | 0 <= k < |fields| :: !p(fields[k])
  {
    if fields == [] then None
    else if p(fields[0]) then Some(fields[0])
    else
      var r := FirstMatch(fields[1..], p);
      if r.Some? then
        var i :| 0 <= i < |fields[1..]| && fields[1..][i] == r.value && forall k | 0 <= k < i :: !p(fields[1..][k]);
        assert fields[i + 1] == r.value;
        r
      else r
  }

  /** Searching a concatenation is searching the first part, then the second. */
  lemma {:induction false} FirstMatchAppend(a: seq<Field>, b: seq<Field>, p: Field -> bool)
    ensures FirstMatch(a + b, p) == if FirstMatch(a, p).Some? then FirstMatch(a, p) else FirstMatch(b, p)
  {
    if a == [] {
      assert a + b == b;
    } else {
      assert (a + b)[1..] == a[1..] + b;
      FirstMatchAppend(a[1..], b, p);
    }
  }

  /** `findClass.isAssignableFrom(type)`: a model class accepts itself and its
      subclasses; any other type only itself. */
  predicate IsAssignableFrom(schema: Schema, findClass: JType, t: JType)
  {
    match ClassOf(schema, t)
    case Some(c) => IsSubclassOf(schema, c, findClass)
    case None => findClass == t
  }

  predicate IsSubclassOf(schema: Schema, c: ClassId, ancestor: JType)
    requires c < |schema|
    decreases c
  {
    ancestor == ModelType(c) ||
      (match Superclass(schema, c)
       case Some(p) => IsSubclassOf(schema, p, ancestor)
       case None => false)
  }

  /** A KClass's `javaObjectType`: the boxed class for a primitive. */
  function JavaObjectType(t: JType): (r: JType)
    ensures !r.Primitive?
    ensures !t.Primitive? ==> r == t
  {
    if t.Primitive? then Boxed(t.prim) else t
  }
}
