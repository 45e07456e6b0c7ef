/** Column, id and foreign-key lookups over fields and classes
    (internal/reflection/FieldAnnotations.kt and ClassAnnotations.kt). */
module FieldAnnotations {
  import opened Wrappers
  import opened Metadata

  const FOREIGN_ID_FIELD_SUFFIX: string := "_id"

  /** `DatabaseField.isForeign()`. */
  predicate IsForeign(df: DatabaseFieldInfo)
  {
    df.foreign || df.foreignAutoRefresh || df.foreignColumnName != ""
  }

  /** `DatabaseField.isId()`. */
  predicate IsId(df: DatabaseFieldInfo)
  {
    df.id || df.generatedId
  }

  /** `getColumnNameForField(field, databaseField)`: the declared column name,
      else the field name, suffixed with "_id" for a foreign field. */
  function ColumnNameForField(f: Field, df: DatabaseFieldInfo): (r: string)
    ensures df.columnName != "" ==> r == df.columnName
    ensures df.columnName == "" && IsForeign(df) ==> r == f.name + FOREIGN_ID_FIELD_SUFFIX
    ensures df.columnName == "" && !IsForeign(df) ==> r == f.name
  {
    if df.columnName != "" then df.columnName
    else if IsForeign(df) then f.name + FOREIGN_ID_FIELD_SUFFIX
    else f.name
  }

  /** `getColumnNameForField(field)`: throws when the field has no
      `@DatabaseField`. */
  function ColumnNameForFieldOrThrow(f: Field): (r: Result<string>)
    ensures r.Success? <==> DatabaseFieldOf(f).Some?
    ensures r.Success? ==> r.value == ColumnNameForField(f, DatabaseFieldOf(f).value)
    ensures r.Failure? ==> r.error.RuntimeException?
  {
    match DatabaseFieldOf(f)
    case Some(df) => Success(ColumnNameForField(f, df))
    case None => Failure(RuntimeException("DatabaseField annotation not found in " + f.name))
  }

  /** `Field.getForeignCollectionParameterType()`: the element class of a
      ForeignCollection field; any other field type is refused. */
  function ForeignCollectionParameterType(f: Field): (r: Result<JType>)
    ensures r.Success? <==> f.fieldType == ForeignCollectionType
    ensures r.Success? ==> r.value == f.typeArgument
    ensures r.Failure? ==> r.error.RuntimeException?
  {
    if f.fieldType != ForeignCollectionType then
      Failure(RuntimeException("the field \"" + f.name + "\" is not a ForeignCollection but is annotated by ForeignCollectionField"))
    else
      Success(f.typeArgument)
  }

  predicate IsIdField(f: Field)
  {
    DatabaseFieldOf(f).Some? && IsId(DatabaseFieldOf(f).value)
  }

  function FindIdFieldIn(schema: Schema, c: ClassId): Option<Field>
    requires c < |schema|
    decreases c
  {
    var own := FirstMatch(schema[c].declaredFields, IsIdField);
    if own.Some? then own
    else match Superclass(schema, c)
      case Some(p) => FindIdFieldIn(schema, p)
      case None => None
  }

  /** `findIdField(modelClass)`: the first field marked id or generatedId,
      looking at the class's own fields before its superclasses'. */
  function FindIdField(schema: Schema, t: JType): (r: Option<Field>)
    ensures r.Some? ==> IsIdField(r.value)
    ensures ClassOf(schema, t).None? ==> r.None?
  {
    match ClassOf(schema, t)
    case Some(c) =>
      FindIdFieldSearchesChain(schema, c);
      FindIdFieldIn(schema, c)
    case None => None
  }

  /** The id field is the first id-annotated field along the superclass chain:
      no field before it, inherited or not, is an id. */
  lemma {:induction false} FindIdFieldSearchesChain(schema: Schema, c: ClassId)
    requires c < |schema|
    ensures FindIdFieldIn(schema, c) == FirstMatch(ChainFields(schema, c), IsIdField)
    decreases c
  {
    match Superclass(schema, c)
    case Some(p) =>
      FindIdFieldSearchesChain(schema, p);
      FirstMatchAppend(schema[c].declaredFields, ChainFields(schema, p), IsIdField);
    case None =>
      FirstMatchAppend(schema[c].declaredFields, [], IsIdField);
      assert schema[c].declaredFields + [] == schema[c].declaredFields;
  }

  /** `findIdFieldOrThrow(modelClass)`. */
  function FindIdFieldOrThrow(schema: Schema, t: JType): (r: Result<Field>)
    ensures r.Success? <==> FindIdField(schema, t).Some?
    ensures r.Success? ==> r.value == FindIdField(schema, t).value
    ensures r.Failure? ==> r.error.RuntimeException?
  {
    match FindIdField(schema, t)
    case Some(f) => Success(f)
    case None => Failure(RuntimeException("Failed to find id field"))
  }

  /** A foreign `@DatabaseField` whose type is `findClass` or a subclass of it. */
  predicate IsForeignFieldFor(schema: Schema, findClass: JType, f: Field)
  {
    DatabaseFieldOf(f).Some? && IsForeign(DatabaseFieldOf(f).value) && IsAssignableFrom(schema, findClass, f.fieldType)
  }

  function ForeignMatcher(schema: Schema, findClass: JType): Field -> bool
  {
    f => IsForeignFieldFor(schema, findClass, f)
  }

  function FindForeignFieldIn(schema: Schema, c: ClassId, findClass: JType): Option<Field>
    requires c < |schema|
    decreases c
  {
    var own := FirstMatch(schema[c].declaredFields, ForeignMatcher(schema, findClass));
    if own.Some? then own
    else match Superclass(schema, c)
      case Some(p) => FindForeignFieldIn(schema, p, findClass)
      case None => None
  }

  /** `findForeignField(parentClass, findClass)`: the first foreign field of
      `parentClass` (own fields first) that can refer to `findClass`. */
  function FindForeignField(schema: Schema, parentClass: JType, findClass: JType): (r: Option<Field>)
    ensures r.Some? ==> IsForeignFieldFor(schema, findClass, r.value)
    ensures ClassOf(schema, parentClass).None? ==> r.None?
  {
    match ClassOf(schema, parentClass)
    case Some(c) =>
      FindForeignFieldSearchesChain(schema, c, findClass);
      FindForeignFieldIn(schema, c, findClass)
    case None => None
  }

  /** `findForeignFieldOrThrow(parentClass, findClass)`: `findForeignField`,
      throwing when there is none. */
  function FindForeignFieldOrThrow(schema: Schema, parentClass: JType, findClass: JType): (r: Result<Field>)
    ensures r.Success? <==> FindForeignField(schema, parentClass, findClass).Some?
    ensures r.Success? ==> r.value == FindForeignField(schema, parentClass, findClass).value
    ensures r.Failure? ==> r.error.RuntimeException?
  {
    match FindForeignField(schema, parentClass, findClass)
    case Some(f) => Success(f)
    case None => Failure(RuntimeException("Failed to find foreign field"))
  }

  /** `findAnnotationOrThrow(field, DatabaseField)`: the field's
      `@DatabaseField`, throwing when it has none. */
  function DatabaseFieldOrThrow(f: Field): (r: Result<DatabaseFieldInfo>)
    ensures r.Success? <==> DatabaseFieldOf(f).Some?
    ensures r.Success? ==> r.value == DatabaseFieldOf(f).value
    ensures r.Failure? ==> r.error.RuntimeException?
  {
    match DatabaseFieldOf(f)
    case Some(df) => Success(df)
    case None => Failure(RuntimeException("DatabaseField annotation not found in " + f.name))
  }

  /** `checkNotNull(findAnnotation(field, DatabaseField))`: the same lookup,
      failing with Kotlin's IllegalStateException. */
  function DatabaseFieldNotNull(f: Field): (r: Result<DatabaseFieldInfo>)
    ensures r.Success? <==> DatabaseFieldOf(f).Some?
    ensures r.Success? ==> r.value == DatabaseFieldOf(f).value
    ensures r.Failure? ==> r.error.IllegalStateException?
  {
    match DatabaseFieldOf(f)
    case Some(df) => Success(df)
    case None => Failure(IllegalStateException("Required value was null."))
  }

  /** The foreign field found is the first match along the superclass chain. */
  lemma {:induction false} FindForeignFieldSearchesChain(schema: Schema, c: ClassId, findClass: JType)
    requires c < |schema|
    ensures FindForeignFieldIn(schema, c, findClass) == FirstMatch(ChainFields(schema, c), ForeignMatcher(schema, findClass))
    decreases c
  {
    var m := ForeignMatcher(schema, findClass);
    match Superclass(schema, c)
    case Some(p) =>
      FindForeignFieldSearchesChain(schema, p, findClass);
      FirstMatchAppend(schema[c].declaredFields, ChainFields(schema, p), m);
    case None =>
      FirstMatchAppend(schema[c].declaredFields, [], m);
      assert schema[c].declaredFields + [] == schema[c].declaredFields;
  }

  /** `getTableName(modelClass, tableAnnotation)`: the declared table name,
      else the class's simple name. */
  function TableName(cls: ModelClass, tableName: string): (r: string)
    ensures tableName != "" ==> r == tableName
    ensures tableName == "" ==> r == cls.simpleName
  {
    if tableName != "" then tableName else cls.simpleName
  }

  /** `getTableNameOrThrow(modelClass)`: throws when the class has no
      `@DatabaseTable`. */
  function TableNameOrThrow(schema: Schema, t: JType): (r: Result<string>)
    ensures r.Success? <==> ClassAnnotation(schema, t, DatabaseTableType).Some?
    ensures r.Success? ==> r.value == TableName(schema[ClassOf(schema, t).value], ClassAnnotation(schema, t, DatabaseTableType).value.tableName)
    ensures r.Failure? ==> r.error.RuntimeException?
  {
    match ClassAnnotation(schema, t, DatabaseTableType)
    case Some(a) => Success(TableName(schema[ClassOf(schema, t).value], a.tableName))
    case None => Failure(RuntimeException("DatabaseTable annotation not found"))
  }
}
