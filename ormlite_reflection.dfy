/** The older reflection helpers (reflection/OrmliteReflection.kt) used by the
    Java persister. They search with explicit loops over the declared fields;
    the lemmas below prove each one equal to its counterpart in
    FieldAnnotations, so both persister generations see the same metadata. */
module OrmliteReflection {
  import opened Wrappers
  import opened Metadata
  import FieldAnnotations

  /** `getTableName(modelClass, tableAnnotation)`. */
  function TableName(cls: ModelClass, tableName: string): (r: string)
    ensures r == FieldAnnotations.TableName(cls, tableName)
  {
    if tableName != "" then tableName else cls.simpleName
  }

  /** `getTableName(annotationRetriever, modelClass)`: throws without a
      `@DatabaseTable`. */
  function TableNameOrThrow(schema: Schema, t: JType): (r: Result<string>)
    ensures r == FieldAnnotations.TableNameOrThrow(schema, t)
  {
    var ann := ClassAnnotation(schema, t, DatabaseTableType);
    if ann.None? then Failure(RuntimeException("DatabaseTable annotation not found"))
    else Success(TableName(schema[ClassOf(schema, t).value], ann.value.tableName))
  }

  /** `isForeign(databaseField)`. */
  predicate IsForeign(df: DatabaseFieldInfo)
  {
    df.foreign || df.foreignAutoRefresh || |df.foreignColumnName| != 0
  }

  /** `getFieldName(field, databaseField)`: the column a field is stored in. */
  function FieldName(f: Field, df: DatabaseFieldInfo): (r: string)
    ensures r == FieldAnnotations.ColumnNameForField(f, df)
  {
    if |df.columnName| != 0 then df.columnName
    else if IsForeign(df) then f.name + "_id"
    else f.name
  }

  /** `getFieldName(annotationRetriever, field)`: throws without a
      `@DatabaseField`. */
  function FieldNameOrThrow(f: Field): (r: Result<string>)
    ensures r == FieldAnnotations.ColumnNameForFieldOrThrow(f)
  {
    var ann := FieldAnnotation(f, DatabaseFieldType);
    if ann.None? then Failure(RuntimeException("DatabaseField annotation not found in " + f.name))
    else Success(FieldName(f, ann.value.info))
  }

  /** `isId(databaseField)`. */
  predicate IsId(df: DatabaseFieldInfo)
  {
    df.generatedId || df.id
  }

  /** `getForeignCollectionParameterType(field)`. */
  function ForeignCollectionParameterType(f: Field): (r: Result<JType>)
    ensures r == FieldAnnotations.ForeignCollectionParameterType(f)
  {
    if f.fieldType == ForeignCollectionType then Success(f.typeArgument)
    else Failure(RuntimeException("the field \"" + f.name + "\" is not a ForeignCollection but is annotated by ForeignCollectionField"))
  }

  /** The loop of `findIdField` from the `i`-th declared field on. */
  function FindIdFieldFrom(schema: Schema, c: ClassId, i: nat): Option<Field>
    requires c < |schema| && i <= |schema[c].declaredFields|
    decreases c, |schema[c].declaredFields| - i
  {
    var fields := schema[c].declaredFields;
    if i < |fields| then
      match FieldAnnotation(fields[i], DatabaseFieldType)
      case None => FindIdFieldFrom(schema, c, i + 1)
      case Some(a) => if IsId(a.info) then Some(fields[i]) else FindIdFieldFrom(schema, c, i + 1)
    else match Superclass(schema, c)
      case Some(p) => FindIdFieldFrom(schema, p, 0)
      case None => None
  }

  /** `findIdField(annotationRetriever, modelClass)`. */
  function FindIdField(schema: Schema, t: JType): Option<Field>
  {
    match ClassOf(schema, t)
    case Some(c) => FindIdFieldFrom(schema, c, 0)
    case None => None
  }

  lemma {:induction false} FindIdFieldFromAgrees(schema: Schema, c: ClassId, i: nat)
    requires c < |schema| && i <= |schema[c].declaredFields|
    ensures FindIdFieldFrom(schema, c, i) ==
      (var own := FirstMatch(schema[c].declaredFields[i..], FieldAnnotations.IsIdField);
       if own.Some? then own
       else match Superclass(schema, c)
         case Some(p) => FieldAnnotations.FindIdFieldIn(schema, p)
         case None => None)
    decreases c, |schema[c].declaredFields| - i
  {
    var fields := schema[c].declaredFields;
    if i < |fields| {
      assert fields[i..][1..] == fields[i + 1..];
      FindIdFieldFromAgrees(schema, c, i + 1);
    } else {
      match Superclass(schema, c)
      case Some(p) =>
        FindIdFieldFromAgrees(schema, p, 0);
        assert schema[p].declaredFields[0..] == schema[p].declaredFields;
      case None =>
    }
  }

  /** The loop-based `findIdField` finds the same field as the inherited
      search of FieldAnnotations. */
  lemma FindIdFieldGenerationsAgree(schema: Schema, t: JType)
    ensures FindIdField(schema, t) == FieldAnnotations.FindIdField(schema, t)
  {
    match ClassOf(schema, t)
    case Some(c) =>
      FindIdFieldFromAgrees(schema, c, 0);
      assert schema[c].declaredFields[0..] == schema[c].declaredFields;
    case None =>
  }

  /** The loop of `findForeignField` from the `i`-th declared field on. */
  function FindForeignFieldFrom(schema: Schema, c: ClassId, i: nat, findClass: JType): Option<Field>
    requires c < |schema| && i <= |schema[c].declaredFields|
    decreases c, |schema[c].declaredFields| - i
  {
    var fields := schema[c].declaredFields;
    if i < |fields| then
      var ann := FieldAnnotation(fields[i], DatabaseFieldType);
      if ann.Some? && IsForeign(ann.value.info) && IsAssignableFrom(schema, findClass, fields[i].fieldType) then Some(fields[i])
      else FindForeignFieldFrom(schema, c, i + 1, findClass)
    else match Superclass(schema, c)
      case Some(p) => FindForeignFieldFrom(schema, p, 0, findClass)
      case None => None
  }

  /** `findForeignField(annotationRetriever, parentClass, findClass)`. */
  function FindForeignField(schema: Schema, parentClass: JType, findClass: JType): Option<Field>
  {
    match ClassOf(schema, parentClass)
    case Some(c) => FindForeignFieldFrom(schema, c, 0, findClass)
    case None => None
  }

  lemma {:induction false} FindForeignFieldFromAgrees(schema: Schema, c: ClassId, i: nat, findClass: JType)
    requires c < |schema| && i <= |schema[c].declaredFields|
    ensures FindForeignFieldFrom(schema, c, i, findClass) ==
      (var own := FirstMatch(schema[c].declaredFields[i..], FieldAnnotations.ForeignMatcher(schema, findClass));
       if own.Some? then own
       else match Superclass(schema, c)
         case Some(p) => FieldAnnotations.FindForeignFieldIn(schema, p, findClass)
         case None => None)
    decreases c, |schema[c].declaredFields| - i
  {
    var fields := schema[c].declaredFields;
    if i < |fields| {
      assert fields[i..][1..] == fields[i + 1..];
      FindForeignFieldFromAgrees(schema, c, i + 1, findClass);
    } else {
      match Superclass(schema, c)
      case Some(p) =>
        FindForeignFieldFromAgrees(schema, p, 0, findClass);
        assert schema[p].declaredFields[0..] == schema[p].declaredFields;
      case None =>
    }
  }

  /** The loop-based `findForeignField` finds the same field as the
      inherited search of FieldAnnotations. */
  lemma FindForeignFieldGenerationsAgree(schema: Schema, parentClass: JType, findClass: JType)
    ensures FindForeignField(schema, parentClass, findClass) == FieldAnnotations.FindForeignField(schema, parentClass, findClass)
  {
    match ClassOf(schema, parentClass)
    case Some(c) =>
      FindForeignFieldFromAgrees(schema, c, 0, findClass);
      assert schema[c].declaredFields[0..] == schema[c].declaredFields;
    case None =>
  }
}
