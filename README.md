# Poetry: a Dafny model of the JSON-to-database persister

Poetry writes a tree of JSON objects and arrays into an SQLite database
through ORMLite-annotated model classes. Each JSON object becomes one row
of its model class's table; each JSON key maps to a column, to the row's id,
or to a foreign collection; arrays of objects are meant to be written
element by element and arrays of plain values to become one row each in a
helper table (the Kotlin array iterators, as written, skip the first element
and throw on every non-empty array: see Findings), and
many-to-many and one-to-many collections are reconciled so that the
parent's links match the JSON afterwards. Everything happens inside one
database transaction that commits only when the whole write returned.

The repository holds three generations of the engine, and this project
models all three, each against a specification of what it does to the
store:

- `Poetry.kt` (the newest): `writeObject` / `writeArray`. The id goes into
  the same ContentValues buffer as the other columns; an existing row (found
  with `queryFirst`) is updated by `ROWID`, otherwise the whole row is
  inserted, and the rowid is returned. Modules `PoetrySpec` (functions on the
  store's contents) and `PoetryWriter` (the class `Poetry`, with methods that
  change a `Databases.Database`).
- `JsonPersister.kt` (the middle one): the id member creates the row if it
  does not exist (`createRowIfNotExists`), the other columns follow in one
  `update`, a second id member throws. Modules `JsonPersisterSpec`,
  `JsonPersisterWriter`, `JsonPersisterLaws`.
- `json/JsonPersister.java` (the oldest): the same flow, but a second id
  member overwrites the first, and an insert that answers `-1` is a failure.
  Modules `JavaPersisterSpec`, `JavaPersisterWriter`, `JavaPersisterLaws`;
  the laws module proves where the Java generation agrees with the Kotlin
  one.

Around the engines:

- `JsonModel`: the org.json values. Objects keep their members in key
  order, numbers are Java ints, longs or opaque doubles.
- `Values` and `ContentValuesExt`: the runtime values and the ContentValues
  buffer with its `put` / `putOrThrow` type dispatch.
- `JsonUtils` and `LegacyJsonUtils`: the two generations of `getValue` and
  `copyContentValue`, and the array iterators.
- `QueryUtils` and `LegacyQueryUtils`: `parseAttribute` and the IN clause.
- `JsonPath`: the dotted-path resolver.
- `Options`: the option bit mask.
- `Metadata`: the model classes, their fields and annotations, given as
  data.
- `FieldAnnotations`, `OrmliteReflection`, `Entries`: the naming rules, the
  id and foreign field searches along the superclass chain, and the
  classification of a JSON key.
- `FieldLookup`, `Caches`, `InternalReflection`, `Reflection`: the
  memoising field and annotation retrievers, as classes whose caches are
  maps updated in place. Each is proved to answer exactly what the uncached
  lookup answers.
- `Store`: the relational contents (tables of rows with rowids and an
  optional integer primary key alias) and WHERE predicates with SQL's null
  logic.
- `Databases`: the handle with nested transaction levels, a snapshot for
  rollback and `createRowIfNotExists`.

`Int32`, `Int64`, `Int16` and `Int8` are subset types of `int`, and the
coercions that truncate, wrap or saturate are written out in `JavaInts`.

## Model

| member | source | states |
|---|---|---|
| JavaInts.WrapInt32 | src/main/java/poetry/internal/JsonUtils.kt:51-52 | `getInt` on a long keeps its low 32 bits: the result is congruent to the input modulo 2^32 and equals it when it already fits |
| JavaInts.SaturateInt32 | src/main/java/poetry/internal/JsonUtils.kt:51-52 | `getInt` on a double clamps to the int range: unchanged inside it, the largest or smallest int outside |
| JavaInts.SaturateInt64 | src/main/java/poetry/internal/JsonUtils.kt:53-54 | `getLong` on a double clamps to the long range the same way |
| JavaInts.WrapInt32Periodic | src/main/java/poetry/internal/JsonUtils.kt:51-52 | wrapping forgets any multiple of 2^32 |
| Values.FromJson | src/main/java/poetry/internal/JsonUtils.kt:75 | `get(key)` hands back a String for a string member, an Integer or a Long for integral members, and a non-storable object for objects, arrays and NULL |
| Values.TextOfFromJson | src/main/java/poetry/internal/JsonUtils.kt:75-77 | the text of the object `get` returns is the member's JSON text |
| Decimal.NatText | src/main/java/poetry/internal/database/QueryUtils.kt:17-26 | the digits of a natural number: at least one, all decimal digits, no leading zero |
| Decimal.DecimalText | src/main/java/poetry/internal/database/QueryUtils.kt:17-26 | `Long.toString`: non-empty, starting with '-' exactly for negative values |
| Decimal.NatTextRoundTrip | src/main/java/poetry/internal/database/QueryUtils.kt:21-26 | the digits written for a natural number read back as that number |
| Decimal.ParseDecimalText | src/main/java/poetry/internal/database/QueryUtils.kt:21-26 | the decimal text of every integer reads back as that integer |
| Decimal.DecimalTextInjective | src/main/java/poetry/internal/database/QueryUtils.kt:21-26 | distinct integers give distinct query arguments |
| JsonModel.Keys | src/main/java/poetry/JsonPersister.kt:128 | `keys()` lists the member names in insertion order |
| JsonModel.IndexOf | src/main/java/poetry/internal/JsonUtils.kt:47 | the first member carrying the name, or proof that none does |
| JsonModel.Opt | src/main/java/poetry/internal/JsonUtils.kt:47 | `opt(key)` finds a value exactly for a key in `keys()`, and the value is smaller than the object |
| JsonModel.MemberSmaller | src/main/java/poetry/JsonPersister.kt:240-243 | every member value is smaller than its object, so the persister's recursion ends |
| JsonModel.ItemSmaller | src/main/java/poetry/JsonPersister.kt:192-196 | every array element is smaller than its array |
| JsonModel.Get | src/main/java/poetry/internal/JsonUtils.kt:72-75 | `get(key)` succeeds exactly for a present key, with the member's value, and throws a JSONException otherwise |
| JsonModel.OptJSONObject | src/main/java/poetry/JsonPersister.kt:240 | `optJSONObject(key)` is the member exactly when it is an object |
| JsonModel.OptJSONArray | src/main/java/poetry/JsonPersister.kt:149 | `optJSONArray(key)` is the member exactly when it is an array |
| JsonModel.GetJSONArray | src/main/java/poetry/json/JsonPersister.java:214 | `getJSONArray(key)` succeeds exactly when `optJSONArray` finds an array, and throws a JSONException otherwise |
| JsonModel.ArrayGet | src/main/java/poetry/json/JsonPersister.java:291 | `get(index)` succeeds exactly for an index in range, with that element |
| JsonModel.GetJSONObjectAt | src/main/java/poetry/json/JsonPersister.java:269 | `getJSONObject(index)` succeeds exactly for an index in range holding an object |
| JsonModel.AsInt | src/main/java/poetry/internal/JsonUtils.kt:51-52 | ints are read as they are, longs wrapped to 32 bits, doubles clamped; objects, arrays, booleans and NULL are refused |
| JsonModel.AsLong | src/main/java/poetry/internal/JsonUtils.kt:53-54 | ints and longs are read as they are, doubles clamped; objects, arrays, booleans and NULL are refused |
| JsonModel.AsBoolean | src/main/java/poetry/internal/JsonUtils.kt:55-56 | booleans are read as they are; only booleans and strings can be read as booleans |
| JsonModel.AsDouble | src/main/java/poetry/internal/JsonUtils.kt:59-62 | doubles are read as they are; objects, arrays, booleans and NULL are refused |
| JsonModel.GetInt | src/main/java/poetry/internal/JsonUtils.kt:51-52 | `getInt` succeeds exactly for a present member `AsInt` accepts, with its value; otherwise a JSONException |
| JsonModel.GetLong | src/main/java/poetry/internal/JsonUtils.kt:53-54 | `getLong` succeeds exactly for a present member `AsLong` accepts, with its value; otherwise a JSONException |
| JsonModel.GetBoolean | src/main/java/poetry/internal/JsonUtils.kt:55-56 | `getBoolean` succeeds exactly for a present member `AsBoolean` accepts; otherwise a JSONException |
| JsonModel.GetDouble | src/main/java/poetry/internal/JsonUtils.kt:59-62 | `getDouble` succeeds exactly for a present member `AsDouble` accepts; otherwise a JSONException |
| JsonModel.GetString | src/main/java/poetry/internal/JsonUtils.kt:57-58 | `getString` succeeds for every present member, with its text |
| JsonModel.ToText | src/main/java/poetry/internal/JsonUtils.kt:57-58 | a string is its own text and an integer its decimal text |
| JsonModel.NumericStringCoercion | src/main/java/poetry/internal/JsonUtils.kt:51-54 | a string member holding the decimal text of a long of magnitude at most 2^53 is read by `getLong` as that long, and by `getInt` when it fits an int |
| ContentValuesExt.Stored | src/main/java/poetry/internal/database/ContentValuesExtensions.kt:6-37 | `put` stores every value but an instance of an unsupported class; a Date is stored as its text, everything else as it is |
| ContentValuesExt.StoredIdempotent | src/main/java/poetry/internal/database/ContentValuesExtensions.kt:12-31 | storing a stored value again changes nothing |
| ContentValuesExt.PutResult | src/main/java/poetry/internal/database/ContentValuesExtensions.kt:6-37 | `put` answers true exactly when it stores; then the key holds the stored value, the other keys are untouched, and a refused value leaves the buffer unchanged |
| ContentValuesExt.UnsupportedType | src/main/java/poetry/internal/database/ContentValuesExtensions.kt:41-43 | the refusal of `putOrThrow` is a RuntimeException |
| ContentValuesExt.ContentValues.constructor | src/main/java/poetry/internal/database/ContentValuesExtensions.kt:6 | a new buffer is empty |
| ContentValuesExt.ContentValues.PutNull | src/main/java/poetry/internal/database/ContentValuesExtensions.kt:7-9 | stores NULL under the key |
| ContentValuesExt.ContentValues.PutString | src/main/java/poetry/internal/database/ContentValuesExtensions.kt:28-31 | stores the text under the key |
| ContentValuesExt.ContentValues.Put | src/main/java/poetry/internal/database/ContentValuesExtensions.kt:6-37 | the answer and the new buffer are those of `PutResult` |
| ContentValuesExt.ContentValues.PutOrThrow | src/main/java/poetry/internal/database/ContentValuesExtensions.kt:39-45 | succeeds exactly when `put` stores; otherwise throws the unsupported-type RuntimeException and leaves the buffer unchanged |
| Options.CombinationNeedsEachPart | src/main/java/poetry/PoetryOptions.kt:24 | a combination of flags is enabled only if each flag is |
| Options.PartsEnableCombination | src/main/java/poetry/PoetryOptions.kt:24 | a combination is enabled once each flag is |
| Options.AddingEnables | src/main/java/poetry/PoetryOptions.kt:24 | or-ing flags into a set enables them |
| Options.NamedOptionsIndependent | src/main/java/poetry/PoetryOptions.kt:9-15 | the default enables neither named option and neither option enables the other |
| QueryUtils.ParseAttribute | src/main/java/poetry/internal/database/QueryUtils.kt:17-48 | null gives "NULL"; every supported value gives its `toString` text; any other class throws InvalidParameterException |
| QueryUtils.ParseAttributeAcceptsWhatPutStores | src/main/java/poetry/internal/database/QueryUtils.kt:17-48 | a value is accepted as a query argument exactly when `put` can store it |
| QueryUtils.InSelectorPlaceholders | src/main/java/poetry/internal/database/InClause.kt:5-21 | the selector has one `?` per value and one comma fewer |
| QueryUtils.FirstUnsupported | src/main/java/poetry/internal/database/InClause.kt:9-12 | the first value `parseAttribute` refuses, every value before it accepted; none means all are accepted |
| QueryUtils.FirstUnsupportedIs | src/main/java/poetry/internal/database/InClause.kt:9-12 | a refused value after accepted ones is the first refused one |
| QueryUtils.ArgumentTexts | src/main/java/poetry/internal/database/InClause.kt:6-12 | one argument per value, each the value's `parseAttribute` text |
| QueryUtils.InClauseOf | src/main/java/poetry/internal/database/InClause.kt:5-21 | succeeds exactly when every value is accepted, with the selector `IN (?,...)` and the argument texts; otherwise fails with the first refused value's exception |
| LegacyQueryUtils.ParseAttribute | src/main/java/poetry/utils/QueryUtils.kt:16-46 | every supported non-null value gives its `toString` text; any other class throws InvalidParameterException |
| LegacyQueryUtils.ParseAttributeGenerationsAgree | src/main/java/poetry/utils/QueryUtils.kt:16-46 | on every non-null value the two generations of `parseAttribute` agree |
| LegacyQueryUtils.Unwrapped | src/main/java/poetry/utils/QueryUtils.kt:55-77 | the filled argument array, entry by entry |
| LegacyQueryUtils.CreateInClause | src/main/java/poetry/utils/QueryUtils.kt:55-77 | an argument array of the wrong length is refused untouched; otherwise every entry is filled with its id's argument text and the selector is `IN (?,...)`, or the first refused id's exception is thrown |
| JsonUtils.ReadAs | src/main/java/poetry/internal/JsonUtils.kt:51-62 | the typed read dispatches on int, long, boolean and CharSequence in that order, never yields null, and fails only with a JSONException |
| JsonUtils.GetValue | src/main/java/poetry/internal/JsonUtils.kt:45-66 | a missing key and an unsupported type are RuntimeExceptions; otherwise the typed read of the member, never null |
| JsonUtils.NonNumericLongIdIsJsonError | src/main/java/poetry/internal/JsonUtils.kt:53-54 | a Long field given a string with no digit that does not spell `NaN` or `Infinity` (which `Double.parseDouble` refuses) is refused with a JSONException |
| JsonUtils.IntegerIdReadsBack | src/main/java/poetry/internal/JsonUtils.kt:51-54 | an integral member read as int, Integer, long or Long keeps its value |
| JsonUtils.CopyContentValue | src/main/java/poetry/internal/JsonUtils.kt:70-79 | a missing member copies nothing and answers false; a present one is `put` under the column, with `put`'s answer |
| JsonUtils.CopySucceedsForScalars | src/main/java/poetry/internal/JsonUtils.kt:70-79 | copying succeeds exactly for scalar members, not for objects, arrays or JSON null |
| JsonUtils.JsonArrayAnyIterator.constructor | src/main/java/poetry/internal/JsonUtils.kt:9-11 | the iterator starts at index 0 over its array |
| JsonUtils.JsonArrayAnyIterator.Next | src/main/java/poetry/internal/JsonUtils.kt:15 | `next()` increments the index first and then reads the element at the new index |
| JsonUtils.JsonArrayJsonObjectIterator.constructor | src/main/java/poetry/internal/JsonUtils.kt:18-20 | the iterator starts at index 0 over its array |
| JsonUtils.JsonArrayJsonObjectIterator.Next | src/main/java/poetry/internal/JsonUtils.kt:24 | `next()` increments the index first and then reads the object at the new index |
| JsonUtils.DrainAsWritten | src/main/java/poetry/internal/JsonUtils.kt:9-16 | a `hasNext()`/`next()` loop over the iterator as written yields exactly `AsWrittenFrom(arr, 0)` |
| JsonUtils.AsWrittenFromFails | src/main/java/poetry/internal/JsonUtils.kt:13-15 | from any index inside a non-empty array the as-written iteration throws |
| JsonUtils.AsWrittenIterationFails | src/main/java/poetry/internal/JsonUtils.kt:13-15 | iterating any non-empty array as written throws a JSONException |
| JsonUtils.AsWrittenErrorIsJson | src/main/java/poetry/internal/JsonUtils.kt:15 | the as-written iteration fails only with a JSONException |
| JsonUtils.ArrayIterator.constructor | src/main/java/poetry/internal/JsonUtils.kt:9-11 | the corrected iterator starts at index 0 |
| JsonUtils.ArrayIterator.Next | src/main/java/poetry/internal/JsonUtils.kt:15 | the corrected `next()` reads the element at the index, then advances |
| JsonUtils.Drain | src/main/java/poetry/internal/JsonUtils.kt:27-34 | draining the corrected iterator yields every element once, in order |
| JsonUtils.ObjectsOf | src/main/java/poetry/internal/JsonUtils.kt:36-43 | the objects of an array in order; it fails with a JSONException exactly when some element is not an object |
| JsonUtils.ObjectsFrom | src/main/java/poetry/internal/JsonUtils.kt:36-43 | the same from a given index on |
| LegacyJsonUtils.GetValue | src/main/java/poetry/json/JsonUtils.kt:10-31 | a missing key gives null; an unsupported type is a RuntimeException; a present value is never null |
| LegacyJsonUtils.GetValueGenerationsAgree | src/main/java/poetry/json/JsonUtils.kt:10-31 | on a present key the older `getValue` reads what the newer one reads, failures included |
| LegacyJsonUtils.CopyValue | src/main/java/poetry/json/JsonUtils.kt:43-69 | `copyValue` answers and stores exactly as `put` does |
| LegacyJsonUtils.CopyContentValue | src/main/java/poetry/json/JsonUtils.kt:33-41 | a missing member copies nothing; a present one is copied as `put` copies it |
| Metadata.AnnotationOf | src/main/java/poetry/internal/reflection/FieldAnnotationRetriever.kt:26 | `getAnnotation(type)` finds an annotation of that class when there is one, and none otherwise |
| Metadata.ClassOf | src/main/java/poetry/internal/reflection/FieldAnnotations.kt:73-80 | a type names a model class only as that class's own type |
| Metadata.Superclass | src/main/java/poetry/internal/reflection/FieldAnnotations.kt:74-79 | `getSuperclass()` always moves to an earlier class, so the chain ends, and in a well-formed schema is the declared superclass |
| Metadata.DatabaseFieldOf | src/main/java/poetry/internal/reflection/FieldAnnotations.kt:18 | a field's `@DatabaseField` is present exactly when `getAnnotation` finds one |
| Metadata.FirstMatch | src/main/java/poetry/internal/reflection/FieldAnnotations.kt:99-102 | `firstOrNull`: a match that no earlier field matches, or proof that no field matches |
| Metadata.FirstMatchAppend | src/main/java/poetry/internal/reflection/FieldAnnotations.kt:73-80 | searching own fields, then the superclass's, is searching their concatenation |
| Metadata.JavaObjectType | src/main/java/poetry/JsonPersister.kt:264 | `javaObjectType` boxes a primitive and leaves other types alone |
| FieldAnnotations.ColumnNameForField | src/main/java/poetry/internal/reflection/FieldAnnotations.kt:30-34 | the declared column name, else the field name with `_id` for a foreign field, else the field name |
| FieldAnnotations.ColumnNameForFieldOrThrow | src/main/java/poetry/internal/reflection/FieldAnnotations.kt:17-21 | succeeds exactly for a field with `@DatabaseField`, with its column name; otherwise a RuntimeException |
| FieldAnnotations.ForeignCollectionParameterType | src/main/java/poetry/internal/reflection/FieldAnnotations.kt:56-64 | succeeds exactly for a ForeignCollection field, with its element class; otherwise a RuntimeException |
| FieldAnnotations.FindIdField | src/main/java/poetry/internal/reflection/FieldAnnotations.kt:73-80 | the field found is marked id or generatedId; a type that is not a model class has none |
| FieldAnnotations.FindIdFieldSearchesChain | src/main/java/poetry/internal/reflection/FieldAnnotations.kt:73-103 | the id field is the first id field along the superclass chain, own fields first |
| FieldAnnotations.FindIdFieldOrThrow | src/main/java/poetry/internal/reflection/FieldAnnotations.kt:82-89 | succeeds exactly when `findIdField` finds a field; otherwise a RuntimeException |
| FieldAnnotations.FindForeignField | src/main/java/poetry/internal/reflection/FieldAnnotations.kt:112-120 | the field found is a foreign `@DatabaseField` whose type the wanted class accepts |
| FieldAnnotations.FindForeignFieldSearchesChain | src/main/java/poetry/internal/reflection/FieldAnnotations.kt:112-129 | the foreign field is the first match along the superclass chain |
| FieldAnnotations.FindForeignFieldOrThrow | src/main/java/poetry/Poetry.kt:197 | succeeds exactly when `findForeignField` finds a field; otherwise a RuntimeException |
| FieldAnnotations.DatabaseFieldOrThrow | src/main/java/poetry/Poetry.kt:236 | succeeds exactly for a field with `@DatabaseField`; otherwise a RuntimeException |
| FieldAnnotations.DatabaseFieldNotNull | src/main/java/poetry/JsonPersister.kt:268-269 | `checkNotNull(findAnnotation(...))` succeeds exactly for a field with `@DatabaseField`; otherwise an IllegalStateException |
| FieldAnnotations.TableName | src/main/java/poetry/internal/reflection/ClassAnnotations.kt:24-26 | the declared table name, else the class's simple name |
| FieldAnnotations.TableNameOrThrow | src/main/java/poetry/internal/reflection/ClassAnnotations.kt:11-15 | succeeds exactly for a class with `@DatabaseTable`, with its table name; otherwise a RuntimeException |
| FieldLookup.FindField | src/main/java/poetry/internal/reflection/FieldRetriever.kt:69-91 | the field found answers to the key by name or `@MapFrom`; a non-model type has none |
| FieldLookup.FindFieldSearchesChain | src/main/java/poetry/internal/reflection/FieldRetriever.kt:69-91 | the field found is the first matching field along the superclass chain |
| FieldLookup.FindFirstFieldOfType | src/main/java/poetry/internal/reflection/FieldRetriever.kt:148-156 | the field found has exactly the wanted type; a non-model type has none |
| FieldLookup.FindFirstFieldOfTypeSearchesChain | src/main/java/poetry/internal/reflection/FieldRetriever.kt:148-156 | the field found is the first field of that type along the superclass chain |
| FieldLookup.FindFirstFieldOfTypeOrThrow | src/main/java/poetry/internal/reflection/FieldRetriever.kt:99-103 | succeeds exactly when a field of the type exists; otherwise an IllegalStateException |
| Caches.Lookup | src/main/java/poetry/internal/reflection/FieldRetriever.kt:46-49 | a hit is the value stored under both keys |
| Caches.Store | src/main/java/poetry/internal/reflection/FieldRetriever.kt:51-60 | the value is stored under both keys, creating the inner map when missing, and every other entry is kept |
| Caches.StoreKeepsFaithful | src/main/java/poetry/internal/reflection/FieldRetriever.kt:36-41 | storing the uncached answer keeps a cache that only holds uncached answers |
| InternalReflection.FieldRetriever.constructor | src/main/java/poetry/internal/reflection/FieldRetriever.kt:18-22 | both caches start empty |
| InternalReflection.FieldRetriever.GetField | src/main/java/poetry/internal/reflection/FieldRetriever.kt:31-44 | returns exactly the uncached search result; a hit leaves the cache alone, a miss (or cached null) stores the result |
| InternalReflection.FieldRetriever.GetCachedField | src/main/java/poetry/internal/reflection/FieldRetriever.kt:46-49 | the entry under both keys, or null |
| InternalReflection.FieldRetriever.SetCachedField | src/main/java/poetry/internal/reflection/FieldRetriever.kt:51-60 | stores the entry and keeps the cache faithful |
| InternalReflection.FieldRetriever.FindFirstFieldOfTypeOrThrow | src/main/java/poetry/internal/reflection/FieldRetriever.kt:99-103 | the uncached result or its IllegalStateException |
| InternalReflection.FieldRetriever.FindFirstFieldOfType | src/main/java/poetry/internal/reflection/FieldRetriever.kt:111-123 | returns exactly the uncached search result; a miss stores it |
| InternalReflection.FieldRetriever.GetCachedFieldOfType | src/main/java/poetry/internal/reflection/FieldRetriever.kt:125-128 | the entry under both keys, or null |
| InternalReflection.FieldRetriever.SetCachedFieldOfType | src/main/java/poetry/internal/reflection/FieldRetriever.kt:130-139 | stores the entry and keeps the cache faithful |
| InternalReflection.FieldAnnotationRetriever.constructor | src/main/java/poetry/internal/reflection/FieldAnnotationRetriever.kt:9-10 | the cache starts empty |
| InternalReflection.FieldAnnotationRetriever.FindAnnotation | src/main/java/poetry/internal/reflection/FieldAnnotationRetriever.kt:20-33 | returns exactly the field's annotation of that class; a miss stores it |
| InternalReflection.FieldAnnotationRetriever.FindCachedAnnotation | src/main/java/poetry/internal/reflection/FieldAnnotationRetriever.kt:35-38 | the entry under both keys, or null |
| InternalReflection.FieldAnnotationRetriever.SetCachedAnnotation | src/main/java/poetry/internal/reflection/FieldAnnotationRetriever.kt:40-49 | stores the entry and keeps the cache faithful |
| InternalReflection.ClassAnnotationRetriever.constructor | src/main/java/poetry/internal/reflection/ClassAnnotationRetriever.kt:9-10 | the cache starts empty |
| InternalReflection.ClassAnnotationRetriever.FindAnnotation | src/main/java/poetry/internal/reflection/ClassAnnotationRetriever.kt:20-33 | returns exactly the class's annotation of that class; a miss stores it |
| InternalReflection.ClassAnnotationRetriever.FindCachedAnnotation | src/main/java/poetry/internal/reflection/ClassAnnotationRetriever.kt:35-39 | the entry under both keys, or null |
| InternalReflection.ClassAnnotationRetriever.SetCachedAnnotation | src/main/java/poetry/internal/reflection/ClassAnnotationRetriever.kt:41-50 | stores the entry and keeps the cache faithful |
| Reflection.FieldRetriever.constructor | src/main/java/poetry/reflection/FieldRetriever.java:19-23 | both caches start empty |
| Reflection.FieldRetriever.GetField | src/main/java/poetry/reflection/FieldRetriever.java:32-95 | returns exactly the uncached search result; a miss stores it |
| Reflection.FieldRetriever.GetFirstFieldOfType | src/main/java/poetry/reflection/FieldRetriever.java:104-158 | returns exactly the uncached first field of the exact type; a miss stores it |
| Reflection.AnnotationRetriever.constructor | src/main/java/poetry/reflection/AnnotationRetriever.java:19-21 | both caches start empty |
| Reflection.AnnotationRetriever.GetFieldAnnotation | src/main/java/poetry/reflection/AnnotationRetriever.java:31-62 | returns exactly the field's annotation; a miss stores it and the class cache is untouched |
| Reflection.AnnotationRetriever.GetClassAnnotation | src/main/java/poetry/reflection/AnnotationRetriever.java:72-104 | returns exactly the class's annotation; a miss stores it and the field cache is untouched |
| OrmliteReflection.TableName | src/main/java/poetry/reflection/OrmliteReflection.kt:38-40 | the older `getTableName` names the same table as the newer one |
| OrmliteReflection.TableNameOrThrow | src/main/java/poetry/reflection/OrmliteReflection.kt:24-29 | the older lookup succeeds and fails exactly as the newer one |
| OrmliteReflection.FieldName | src/main/java/poetry/reflection/OrmliteReflection.kt:63-71 | the older `getFieldName` gives the same column as `getColumnNameForField` |
| OrmliteReflection.FieldNameOrThrow | src/main/java/poetry/reflection/OrmliteReflection.kt:49-54 | the older lookup succeeds and fails exactly as the newer one |
| OrmliteReflection.ForeignCollectionParameterType | src/main/java/poetry/reflection/OrmliteReflection.kt:102-112 | the older element-class lookup agrees with the newer one |
| OrmliteReflection.FindIdFieldFromAgrees | src/main/java/poetry/reflection/OrmliteReflection.kt:121-137 | the loop from any declared field on finds the first id field of the rest of the chain |
| OrmliteReflection.FindIdFieldGenerationsAgree | src/main/java/poetry/reflection/OrmliteReflection.kt:121-137 | the loop-based `findIdField` finds the same field as the newer recursive one |
| OrmliteReflection.FindForeignFieldFromAgrees | src/main/java/poetry/reflection/OrmliteReflection.kt:147-163 | the loop from any declared field on finds the first foreign match of the rest of the chain |
| OrmliteReflection.FindForeignFieldGenerationsAgree | src/main/java/poetry/reflection/OrmliteReflection.kt:147-163 | the loop-based `findForeignField` finds the same field as the newer one |
| Store.RowidOf | src/main/java/poetry/internal/database/Database.kt:15-16 | a value written to the rowid alias gives the integer it stands for |
| Store.Insert | src/main/java/poetry/internal/database/Database.kt:15-16 | an insert appends exactly one row to the named table, answers its rowid and leaves every other table alone; a missing table is an SQLiteException |
| Store.InsertStatement | src/main/java/poetry/internal/database/native/NativeDatabase.kt:51-65 | with no values the row is inserted only through the null-column hack, otherwise SQLite refuses it |
| Store.UpdateRows | src/main/java/poetry/internal/database/Database.kt:17 | every selected row gets the new values, every other row stays, in order |
| Store.MaxRowid | src/main/java/poetry/internal/database/Database.kt:17 | a bound above every rowid of the rows |
| Store.Update | src/main/java/poetry/internal/database/Database.kt:17 | an update changes only the selected rows of the named table |
| Store.CountSelected | src/main/java/poetry/internal/database/Database.kt:17-18 | the count `update` and `delete` answer: zero exactly when no row is selected |
| Store.DeleteRows | src/main/java/poetry/internal/database/Database.kt:18 | the rows left are exactly the unselected ones |
| Store.Delete | src/main/java/poetry/internal/database/Database.kt:18 | a delete removes exactly the selected rows of the named table and fails only for a missing table or a clause SQLite cannot compile |
| Store.FirstSelected | src/main/java/poetry/internal/database/Database.kt:14 | a selected row of the table, or proof that none is |
| Store.HasRow | src/main/java/poetry/internal/database/native/NativeDatabase.kt:42-49 | true exactly when some row has `column = value` |
| Store.QueryFirst | src/main/java/poetry/internal/database/Database.kt:14 | the rowid of a row with `column = value`, or null exactly when there is none |
| Store.InsertedRowidIsFresh | src/main/java/poetry/internal/database/Database.kt:15-16 | a new row never reuses a rowid the table holds |
| Store.InsertKeepsValid | src/main/java/poetry/internal/database/Database.kt:15-16 | inserts keep rowids unique |
| Store.UpdateKeepsValid | src/main/java/poetry/internal/database/Database.kt:17 | updates keep rowids unique |
| Store.DeleteRowsSubsequence | src/main/java/poetry/internal/database/Database.kt:18 | the rows a delete keeps still have distinct rowids |
| Store.DeleteKeepsValid | src/main/java/poetry/internal/database/Database.kt:18 | deletes keep rowids unique |
| Store.RowidEqualsSelectsThatRow | src/main/java/poetry/JsonPersister.kt:172-174 | `ROWID = ?` bound to an id's decimal text selects exactly the row with that rowid |
| Store.RealTextReadsBack | src/main/java/poetry/Poetry.kt:250-253 | the text `Double.toString` gives a Double parent id (`a.b`, `a.bE<n>`) compiles when spliced into the cleanup WHERE clause and compares as itself |
| Databases.EndLevels | src/main/java/poetry/internal/database/native/NativeDatabase.kt:26-31 | ending a level closes the innermost one, and an unsuccessful level dooms the one around it |
| Databases.Database.constructor | src/main/java/poetry/internal/database/native/NativeDatabase.kt:10-13 | a connection starts outside any transaction |
| Databases.Database.BeginTransaction | src/main/java/poetry/internal/database/native/NativeDatabase.kt:19-24 | opens a level; the outermost one remembers the contents to roll back to |
| Databases.Database.SetTransactionSuccessful | src/main/java/poetry/internal/database/native/NativeDatabase.kt:35-40 | marks the innermost level, and throws IllegalStateException when there is none or it is already marked |
| Databases.Database.EndTransaction | src/main/java/poetry/internal/database/native/NativeDatabase.kt:26-31 | closing the outermost level keeps the changes only when it and every level in it succeeded, and rolls back otherwise |
| Databases.Database.EndTransactionSafely | src/main/java/poetry/internal/database/Database.kt:36-44 | ends a transaction only when one is open, swallowing the exception |
| Databases.Database.FinishTransaction | src/main/java/poetry/internal/database/Database.kt:21-34 | a failing block's exception passes through and a lone transaction rolls back; a returning block commits |
| Databases.Database.QueryFirst | src/main/java/poetry/internal/database/Database.kt:14 | answers the store's first matching rowid and changes nothing |
| Databases.Database.HasRow | src/main/java/poetry/internal/database/SQLiteDatabaseExtensions.kt:47-50 | answers whether a matching row exists and changes nothing |
| Databases.Database.Insert | src/main/java/poetry/internal/database/native/NativeDatabase.kt:51-57 | the new rowid and contents, or -1 with the contents unchanged |
| Databases.Database.InsertOrThrow | src/main/java/poetry/internal/database/native/NativeDatabase.kt:59-65 | the new rowid and contents, or the exception with the contents unchanged |
| Databases.Database.Update | src/main/java/poetry/internal/database/native/NativeDatabase.kt:67-72 | the store's update, answering how many rows it selected |
| Databases.Database.Delete | src/main/java/poetry/internal/database/native/NativeDatabase.kt:74-79 | the store's delete, answering how many rows it removed |
| Databases.Database.CreateRowIfNotExists | src/main/java/poetry/internal/database/SQLiteDatabaseExtensions.kt:46-60 | leaves the contents alone when a row has the id, else inserts one holding just the id |
| Databases.CreateRowEnsuresRow | src/main/java/poetry/internal/database/SQLiteDatabaseExtensions.kt:37-60 | afterwards a row with the id exists; at most one row, holding just the id, was added |
| Databases.InsertedIdReadsBack | src/main/java/poetry/internal/database/SQLiteDatabaseExtensions.kt:53-57 | the row the insert adds is one `idColumn = id` selects |
| Entries.ToEntry | src/main/java/poetry/internal/JsonKeyAndFieldToEntry.kt:16-38 | a `@DatabaseField` gives a column entry; a ForeignCollectionField gives a many-to-many or many-to-one entry carrying the member's array, or a JSONException when it is not an array; anything else is invalid |
| Entries.ToEntryIsEntryOf | src/main/java/poetry/internal/JsonKeyAndFieldToEntry.kt:27-33 | the array an entry carries is the object's member under its key |
| Entries.JsonKeyAndFieldOf | src/main/java/poetry/Poetry.kt:257-268 | a key is kept exactly when the retriever finds a field for it |
| Entries.EntriesFrom | src/main/java/poetry/Poetry.kt:112-115 | every entry comes from the object and a field matching its key, at most one per key |
| Entries.EntriesOf | src/main/java/poetry/Poetry.kt:112-115 | the same for all of the object's keys |
| Entries.IgnoredKeysContributeNothing | src/main/java/poetry/Poetry.kt:260-264 | a key no field takes yields no entry |
| Entries.MatchedKeysYieldEntries | src/main/java/poetry/Poetry.kt:112-115 | every key a field takes yields the entry `toEntry` makes of it |
| Entries.FieldEntries | src/main/java/poetry/Poetry.kt:117 | keeps exactly the column entries |
| JsonPath.Split | src/main/java/poetry/JsonPathResolver.kt:95 | `split(".")` gives at least one piece and no piece holds a dot |
| JsonPath.JoinSplit | src/main/java/poetry/JsonPathResolver.kt:95 | joining the pieces with dots gives the path back |
| JsonPath.DropTrailingEmpty | src/main/java/poetry/JsonPathResolver.kt:95 | `dropLastWhile { it.isEmpty() }` keeps a prefix, drops only empty pieces, and the last piece kept is not empty |
| JsonPath.ToKeysFromPath | src/main/java/poetry/JsonPathResolver.kt:95 | the keys are the path's pieces up to the trailing empty ones |
| JsonPath.KeysJoinBack | src/main/java/poetry/JsonPathResolver.kt:95 | a path not ending in a dot is exactly its keys joined |
| JsonPath.LastPieceNonEmpty | src/main/java/poetry/JsonPathResolver.kt:95 | a path not ending in a dot ends in a non-empty piece |
| JsonPath.DotHasNoKeys | src/main/java/poetry/JsonPathResolver.kt:95 | the path "." has no keys, so resolving it reports that mapping failed |
| JsonPath.Child | src/main/java/poetry/JsonPathResolver.kt:89-93 | the member under the key, or a JsonPathException when there is none |
| JsonPath.ResolveObject | src/main/java/poetry/JsonPathResolver.kt:22-51 | the loop returns or throws exactly what the key-by-key walk does |
| JsonPath.ResolveArray | src/main/java/poetry/JsonPathResolver.kt:63-86 | the loop returns or throws exactly what the key-by-key walk does |
| JsonPath.ResolveObjectFromFollows | src/main/java/poetry/JsonPathResolver.kt:30-48 | from any key on, the walk succeeds exactly when the remaining keys lead through objects to an object, and returns it |
| JsonPath.ResolveObjectFollowsPath | src/main/java/poetry/JsonPathResolver.kt:22-51 | `resolveObject` returns exactly the object the path's keys lead to, and otherwise throws JsonPathException |
| JsonPath.ResolveArrayFromFollows | src/main/java/poetry/JsonPathResolver.kt:71-83 | from any key on, the walk succeeds exactly when the remaining keys lead through objects to an array, and returns it |
| JsonPath.ResolveArrayFollowsPath | src/main/java/poetry/JsonPathResolver.kt:63-86 | `resolveArray` returns exactly the array the path's keys lead to, and otherwise (the empty path included) throws JsonPathException |
| PoetrySpec.LongIds | src/main/java/poetry/Poetry.kt:157-161 | each Kotlin `Long` id is handed on as the same `Long` |
| PoetrySpec.InsertJunctionRows | src/main/java/poetry/Poetry.kt:213-219 | the junction inserts keep the junction table |
| PoetrySpec.InClauseArgs | src/main/java/poetry/Poetry.kt:241 | `inClauseOf` succeeds exactly when every id is of a supported type, with their texts; otherwise InvalidParameterException |
| PoetrySpec.InsertBaseValues | src/main/java/poetry/Poetry.kt:167-171 | one rowid, a `Long`, per element of the array |
| PoetrySpec.WriteArrayAsWrittenStep | src/main/java/poetry/internal/JsonUtils.kt:24 | with the iterator as written, the `i`-th round fetches element `i + 1`, writes it, then the rest follow from the contents it leaves |
| PoetrySpec.WriteArrayAsWrittenFails | src/main/java/poetry/Poetry.kt:157-161 | as written, `writeArrayOfObjects` fails from every position inside a non-empty array |
| PoetrySpec.BaseTypesAsWrittenFail | src/main/java/poetry/Poetry.kt:164-172 | as written, `writeArrayOfBaseTypes` fails on every non-empty array, with a JSONException once the table name is found, before any insert; on the empty array it agrees with the corrected one |
| PoetrySpec.MissingTableFailsFirst | src/main/java/poetry/Poetry.kt:107-109 | a class without `@DatabaseTable` fails before anything is written, with the lookup's RuntimeException |
| PoetrySpec.FoldColumnsPutsEveryColumn | src/main/java/poetry/Poetry.kt:117-125 | every column entry reaches the ContentValues under its column name, and nothing put earlier is lost |
| PoetrySpec.IdLookupsFindStoredRows | src/main/java/poetry/Poetry.kt:128-134 | every id the lookups answer is the rowid of a stored row |
| PoetrySpec.ExistingIdIsStoredRow | src/main/java/poetry/Poetry.kt:128-135 | an object without an id field is never found; one that is found is a stored row |
| PoetrySpec.NoIdNoLookups | src/main/java/poetry/Poetry.kt:128-130 | with no id entry there is no lookup at all |
| PoetrySpec.WriteRowTargetsOneRow | src/main/java/poetry/Poetry.kt:137-142 | an object found by id is updated in place (that row only) and keeps its id; one not found is inserted as exactly one new row under a fresh rowid; other tables stay |
| PoetrySpec.Linked | src/main/java/poetry/Poetry.kt:206-219 | the target cells of the junction rows that read the parent, at most one per row |
| PoetrySpec.NothingLinked | src/main/java/poetry/Poetry.kt:206 | after the junction `delete` no row reads the parent |
| PoetrySpec.TargetCells | src/main/java/poetry/Poetry.kt:216 | the cell each target id leaves in the target column |
| PoetrySpec.JunctionInsertLinks | src/main/java/poetry/Poetry.kt:214-218 | one junction insert links the parent to one more target, at the end |
| PoetrySpec.JunctionRowsFrom | src/main/java/poetry/Poetry.kt:213-219 | the inserts of the remaining ids add exactly those links, in order |
| PoetrySpec.JunctionRowsAreTheIds | src/main/java/poetry/Poetry.kt:204-219 | after `processManyToMany` the parent is linked to exactly the target ids written, in order; the junction rows of other parents stay as they were, and so do all other tables |
| PoetrySpec.ClearKeepsUnlinked | src/main/java/poetry/Poetry.kt:204-206 | the delete of the parent's junction rows keeps every row that does not read the parent, in order |
| PoetrySpec.SetColumnReads | src/main/java/poetry/Poetry.kt:238-246 | setting the foreign column changes that column only |
| PoetrySpec.NotSelectedNotListed | src/main/java/poetry/Poetry.kt:246 | a row `IN (...)` does not select holds no listed id |
| PoetrySpec.LinkedRowsReadParent | src/main/java/poetry/Poetry.kt:238-246 | after the update every listed child reads the parent, and no other row changes |
| PoetrySpec.LinkTargetsLinksExactlyTheTargets | src/main/java/poetry/Poetry.kt:241-254 | every listed child reads the parent; with cleanup the rows left reading the parent are listed ones; without it no row is removed; rows neither listed nor reading the parent stay as they were, and so do all other tables |
| PoetrySpec.CleanupKeepsListedRows | src/main/java/poetry/Poetry.kt:250-253 | a row the cleanup spares while it reads the parent is a listed one |
| PoetrySpec.LinkUpdateKeepsBystanders | src/main/java/poetry/Poetry.kt:238-246 | the update of the listed children leaves every row that is neither listed nor reads the parent as it was |
| PoetrySpec.CleanupSelectsParentRows | src/main/java/poetry/Poetry.kt:250-253 | the cleanup clause compiles for a literal parent id and selects only rows that read the parent |
| PoetrySpec.CleanupKeepsBystanders | src/main/java/poetry/Poetry.kt:250-253 | the cleanup delete keeps every row that is neither listed nor reads the parent |
| PoetrySpec.LongParentReadsBack | src/main/java/poetry/Poetry.kt:250 | a `Long` parent id's stored text, its spliced literal and what SQLite reads back all agree |
| PoetryWriter.Poetry.constructor | src/main/java/poetry/Poetry.kt:48-57 | a persister over a database with its model classes and options |
| PoetryWriter.Poetry.WriteObject | src/main/java/poetry/Poetry.kt:68-74 | the object's rowid or the write's exception; outside any other transaction it commits the write on success and leaves the contents as they were on failure |
| PoetryWriter.Poetry.WriteArray | src/main/java/poetry/Poetry.kt:87-93 | the elements' rowids in order, all written in one transaction that commits or rolls back as a whole |
| PoetryWriter.Poetry.WriteArrayAsWritten | src/main/java/poetry/Poetry.kt:87-93 | with the iterator as written, `writeArray` of a non-empty array always fails, and outside any other transaction the contents are rolled back to what they were |
| PoetryWriter.Poetry.WriteObjectInternal | src/main/java/poetry/Poetry.kt:106-154 | answers and changes exactly what the write of the object, its row and its relations, does |
| PoetryWriter.Poetry.ColumnValues | src/main/java/poetry/Poetry.kt:117-125 | a fresh ContentValues holding exactly the fold's columns |
| PoetryWriter.Poetry.FindExistingId | src/main/java/poetry/Poetry.kt:128-135 | the first id lookup's answer, with nothing changed |
| PoetryWriter.Poetry.LookupId | src/main/java/poetry/Poetry.kt:130-134 | one id entry's `queryFirst`, with nothing changed |
| PoetryWriter.Poetry.WriteRow | src/main/java/poetry/Poetry.kt:137-142 | the update of the found row or the insert of a new one |
| PoetryWriter.Poetry.ProcessDatabaseField | src/main/java/poetry/Poetry.kt:174-191 | null, the nested object's rowid after writing it, the foreign id read as the id field's type, or the plain value |
| PoetryWriter.Poetry.ProcessRelations | src/main/java/poetry/Poetry.kt:146-151 | the relations, in entry order, each written with the parent's id |
| PoetryWriter.Poetry.ProcessRelation | src/main/java/poetry/Poetry.kt:147-150 | one relation entry, then the rest |
| PoetryWriter.Poetry.WriteArrayOfObjects | src/main/java/poetry/Poetry.kt:156-161 | every element written in order, answering their rowids |
| PoetryWriter.Poetry.WriteElement | src/main/java/poetry/Poetry.kt:158-159 | one element written, then the rest |
| PoetryWriter.Poetry.WriteArrayOfObjectsAsWritten | src/main/java/poetry/Poetry.kt:157-161 | a `hasNext()`/`next()` loop over `JsonArrayJsonObjectIterator` as written, writing each object fetched, does what `WriteArrayAsWrittenFrom` says |
| PoetryWriter.Poetry.WriteNextAsWritten | src/main/java/poetry/internal/JsonUtils.kt:24 | one `next()` advances the iterator by one and fetches the element after the old index, which is then written |
| PoetryWriter.Poetry.WriteArrayOfBaseTypes | src/main/java/poetry/Poetry.kt:163-172 | one row per element, its text in the target column, answering the rowids |
| PoetryWriter.Poetry.InsertBaseValue | src/main/java/poetry/Poetry.kt:169-170 | one element's row, then the rest |
| PoetryWriter.Poetry.ProcessManyToMany | src/main/java/poetry/Poetry.kt:193-220 | the targets written, the parent's junction rows deleted and one inserted per target |
| PoetryWriter.Poetry.ReplaceJunction | src/main/java/poetry/Poetry.kt:200-219 | the junction `delete`, then the inserts |
| PoetryWriter.Poetry.InsertJunction | src/main/java/poetry/Poetry.kt:208-219 | the target column looked up, then one insert per target |
| PoetryWriter.Poetry.InsertJunctionRows | src/main/java/poetry/Poetry.kt:213-219 | one `insertOrThrow` of (parent, target) per target, in order |
| PoetryWriter.Poetry.InsertJunctionRow | src/main/java/poetry/Poetry.kt:214-218 | one junction row, then the rest |
| PoetryWriter.Poetry.ProcessManyToOne | src/main/java/poetry/Poetry.kt:222-255 | the children written, linked to the parent and, unless disabled, the stale ones removed |
| PoetryWriter.Poetry.WriteChildren | src/main/java/poetry/Poetry.kt:228-234 | the children as objects, or as base values when the field names a single target |
| PoetryWriter.Poetry.ForeignColumn | src/main/java/poetry/Poetry.kt:236-240 | the children's foreign column and the ContentValues that sets it to the parent |
| PoetryWriter.Poetry.PlanLink | src/main/java/poetry/Poetry.kt:236-243 | the lookups before the statements, with nothing changed |
| PoetryWriter.Poetry.LinkChildren | src/main/java/poetry/Poetry.kt:236-254 | the lookups, then the update and the optional cleanup |
| PoetryWriter.Poetry.LinkTargets | src/main/java/poetry/Poetry.kt:245-254 | the update of the listed children, then the cleanup unless disabled |
| JsonPersisterSpec.ProcessKey | src/main/java/poetry/JsonPersister.kt:128-163 | one key: the collections it records are members of the object |
| JsonPersisterSpec.ProcessKeys | src/main/java/poetry/JsonPersister.kt:128-163 | the key loop records only collections that are members of the object |
| JsonPersisterSpec.UpdateValues | src/main/java/poetry/JsonPersister.kt:172-174 | no update is issued when there are no values; otherwise only the model's table changes, and in it exactly the rows whose id column holds the id take the values (the Java engine, json/JsonPersister.java:245-247, uses the same step) |
| JsonPersisterSpec.PersistArrayFrom | src/main/java/poetry/JsonPersister.kt:191-196 | one id per element of the array |
| JsonPersisterSpec.PersistArrayAsWrittenStep | src/main/java/poetry/internal/JsonUtils.kt:24 | with the iterator as written, the `i`-th round fetches element `i + 1`, persists it, then the rest follow |
| JsonPersisterSpec.PersistArrayAsWrittenFails | src/main/java/poetry/JsonPersister.kt:191-196 | as written, `persistArrayOfObjects` fails from every position inside a non-empty array |
| JsonPersisterSpec.BaseTypesAsWrittenFail | src/main/java/poetry/JsonPersister.kt:202-219 | as written, `persistArrayOfBaseTypes` fails on every non-empty array, with a JSONException once the table name is found, before any insert; on the empty array it agrees with the corrected one |
| JsonPersisterLaws.ProcessKeyId | src/main/java/poetry/JsonPersister.kt:135-145 | a key changes the id only when it is an id member, which is refused once the id is set; the id it sets is that member's value |
| JsonPersisterLaws.IdSetOnceStep | src/main/java/poetry/JsonPersister.kt:128-163 | one key followed by the rest sets the id at most once |
| JsonPersisterLaws.KeysSetIdOnce | src/main/java/poetry/JsonPersister.kt:128-163 | the key loop sets the id at most once, and exactly when an id member is present, to its value |
| JsonPersisterLaws.TwoIdMembersRefused | src/main/java/poetry/JsonPersister.kt:139-141 | an object with two id members is refused |
| JsonPersisterLaws.PersistedIdIsTheJsonId | src/main/java/poetry/JsonPersister.kt:165-176 | the id returned is the id member's value, or without one the rowid of the row inserted for the object |
| JsonPersisterLaws.CreatedRowHoldsTheId | src/main/java/poetry/JsonPersister.kt:224-231 | after `createRowIfNotExists` a row holds the id, and at most one row was added |
| JsonPersisterLaws.ModelClassRowIsNew | src/main/java/poetry/JsonPersister.kt:332-341 | `insertRowFromModelClass` appends one row under a fresh rowid and answers it as a Long |
| JsonPersisterLaws.JunctionRowsAgree | src/main/java/poetry/JsonPersister.kt:281-287 | for Long ids the junction inserts are the same statements `Poetry` issues |
| JsonPersisterLaws.JunctionLinksExactlyTheTargets | src/main/java/poetry/JsonPersister.kt:258-288 | after `processManyToMany` a Long parent is linked to exactly its Long targets, in order; the junction rows of other parents stay as they were, and so do all other tables |
| JsonPersisterLaws.ChildrenLinkedToParent | src/main/java/poetry/JsonPersister.kt:290-330 | every written child reads the parent; unless disabled, the cleanup leaves no other child reading it; disabled, no row is removed; rows neither written nor reading the parent stay as they were, and so do all other tables |
| JsonPersisterWriter.InClauseArgs | src/main/java/poetry/JsonPersister.kt:314-315 | the argument array `createInClause` fills holds exactly the ids' texts, or its exception |
| JsonPersisterWriter.JsonPersister.constructor | src/main/java/poetry/JsonPersister.kt:60-63 | a persister over a database with its model classes and options |
| JsonPersisterWriter.JsonPersister.PersistObject | src/main/java/poetry/JsonPersister.kt:74-83 | the object's id or the write's exception; outside any other transaction it commits the write on success and leaves the contents as they were on failure |
| JsonPersisterWriter.JsonPersister.PersistArray | src/main/java/poetry/JsonPersister.kt:94-103 | the elements' ids in order, written in one transaction that commits or rolls back as a whole |
| JsonPersisterWriter.JsonPersister.PersistArrayAsWritten | src/main/java/poetry/JsonPersister.kt:94-103 | with the iterator as written, `persistArray` of a non-empty array always fails, and outside any other transaction the contents are rolled back to what they were |
| JsonPersisterWriter.JsonPersister.PersistObjectInternal | src/main/java/poetry/JsonPersister.kt:114-189 | answers and changes exactly what the write of the object, its row and its collections, does |
| JsonPersisterWriter.JsonPersister.ProcessKeys | src/main/java/poetry/JsonPersister.kt:128-163 | the key loop, every key in order, into the ContentValues |
| JsonPersisterWriter.JsonPersister.ProcessKeyAt | src/main/java/poetry/JsonPersister.kt:128-163 | one turn of the key loop, then the rest |
| JsonPersisterWriter.JsonPersister.ProcessKey | src/main/java/poetry/JsonPersister.kt:129-162 | one key: the id row, a column value, a recorded collection, or nothing |
| JsonPersisterWriter.JsonPersister.CreateRowIfNotExists | src/main/java/poetry/JsonPersister.kt:224-231 | the row for the id and the id's descriptor |
| JsonPersisterWriter.JsonPersister.ProcessDatabaseField | src/main/java/poetry/JsonPersister.kt:233-256 | the column's value put, a nested object written first, or the foreign id read as its field's type |
| JsonPersisterWriter.JsonPersister.ResolveId | src/main/java/poetry/JsonPersister.kt:165-174 | the id member's descriptor, or a row inserted for the object |
| JsonPersisterWriter.JsonPersister.ProcessMappings | src/main/java/poetry/JsonPersister.kt:179-186 | the recorded collections, in order, with the parent's id |
| JsonPersisterWriter.JsonPersister.ProcessMappingAt | src/main/java/poetry/JsonPersister.kt:179-186 | one collection, then the rest |
| JsonPersisterWriter.JsonPersister.ProcessMapping | src/main/java/poetry/JsonPersister.kt:180-185 | a many-to-many or a one-to-many collection |
| JsonPersisterWriter.JsonPersister.PersistArrayOfObjects | src/main/java/poetry/JsonPersister.kt:191-196 | every element written in order, answering their ids |
| JsonPersisterWriter.JsonPersister.PersistArrayOfObjectsAsWritten | src/main/java/poetry/JsonPersister.kt:191-196 | a `hasNext()`/`next()` loop over `JsonArrayJsonObjectIterator` as written, persisting each object fetched, does what `PersistArrayAsWrittenFrom` says |
| JsonPersisterWriter.JsonPersister.PersistNextAsWritten | src/main/java/poetry/internal/JsonUtils.kt:24 | one `next()` advances the iterator by one and fetches the element after the old index, which is then persisted |
| JsonPersisterWriter.JsonPersister.PersistElement | src/main/java/poetry/JsonPersister.kt:192-195 | one element written, then the rest |
| JsonPersisterWriter.JsonPersister.PersistArrayOfBaseTypes | src/main/java/poetry/JsonPersister.kt:202-219 | one row per element, its text in the target column, answering the rowids |
| JsonPersisterWriter.JsonPersister.InsertBaseValues | src/main/java/poetry/JsonPersister.kt:209-218 | the element loop, in order |
| JsonPersisterWriter.JsonPersister.InsertBaseValue | src/main/java/poetry/JsonPersister.kt:210-217 | one element's row, then the rest |
| JsonPersisterWriter.JsonPersister.ProcessManyToMany | src/main/java/poetry/JsonPersister.kt:258-288 | the targets written, the parent's junction rows deleted and one inserted per target |
| JsonPersisterWriter.JsonPersister.PersistJunction | src/main/java/poetry/JsonPersister.kt:266-287 | the targets written, then the junction replaced |
| JsonPersisterWriter.JsonPersister.ReplaceJunction | src/main/java/poetry/JsonPersister.kt:267-287 | the junction `delete`, then the inserts |
| JsonPersisterWriter.JsonPersister.ClearJunction | src/main/java/poetry/JsonPersister.kt:267-274 | the junction lookups and its `delete` |
| JsonPersisterWriter.JsonPersister.InsertJunctionRows | src/main/java/poetry/JsonPersister.kt:281-287 | one `insertOrThrow` of (parent, target) per target, in order |
| JsonPersisterWriter.JsonPersister.InsertJunctionRow | src/main/java/poetry/JsonPersister.kt:282-286 | one junction row, then the rest |
| JsonPersisterWriter.JsonPersister.ProcessManyToOne | src/main/java/poetry/JsonPersister.kt:290-330 | the children written, linked to the parent and, unless disabled, the stale ones removed |
| JsonPersisterWriter.JsonPersister.PersistChildren | src/main/java/poetry/JsonPersister.kt:298-304 | the children as objects, or as base values when the field names a single target |
| JsonPersisterWriter.JsonPersister.ForeignColumn | src/main/java/poetry/JsonPersister.kt:306-312 | the children's foreign column and the ContentValues that sets it to the parent |
| JsonPersisterWriter.JsonPersister.PlanLink | src/main/java/poetry/JsonPersister.kt:306-319 | the lookups before the statements, with nothing changed |
| JsonPersisterWriter.JsonPersister.TargetQuery | src/main/java/poetry/JsonPersister.kt:314-319 | the IN clause's arguments, the children's table and their id column |
| JsonPersisterWriter.JsonPersister.LinkChildren | src/main/java/poetry/JsonPersister.kt:306-329 | the lookups, then the update and the optional cleanup |
| JsonPersisterWriter.JsonPersister.LinkTargets | src/main/java/poetry/JsonPersister.kt:321-329 | the update of the listed children, then the cleanup unless disabled |
| JavaPersisterSpec.ProcessKey | src/main/java/poetry/json/JsonPersister.java:180-220 | one key: the collections it records are members of the object |
| JavaPersisterSpec.ProcessKeys | src/main/java/poetry/json/JsonPersister.java:180-220 | the key loop records only collections that are members of the object |
| JavaPersisterSpec.PersistArrayFrom | src/main/java/poetry/json/JsonPersister.java:265-277 | one id per element of the array |
| JavaPersisterSpec.ColumnOf | src/main/java/poetry/json/JsonPersister.java:432-433 | the column of a field with `@DatabaseField`; without one, the NullPointerException of `getFieldName(field, null)` |
| JavaPersisterLaws.IdFieldCreatesTheRow | src/main/java/poetry/json/JsonPersister.java:320-355 | `processIdField` makes the row `createRowIfNotExists` makes and answers the id read from the JSON; a member of the wrong type is a RuntimeException; afterwards a row holds the id |
| JavaPersisterLaws.IdKeySetsId | src/main/java/poetry/json/JsonPersister.java:203-205 | an id member sets the id to its value, whatever it was before |
| JavaPersisterLaws.OtherKeyKeepsId | src/main/java/poetry/json/JsonPersister.java:187-219 | any other key leaves the id as it was |
| JavaPersisterLaws.ProcessKeyId | src/main/java/poetry/json/JsonPersister.java:180-220 | one key changes the id exactly when it is an id member, and then to its value |
| JavaPersisterLaws.LastIdWinsStep | src/main/java/poetry/json/JsonPersister.java:180-220 | one key followed by the rest keeps the last id member's value |
| JavaPersisterLaws.KeysKeepLastId | src/main/java/poetry/json/JsonPersister.java:180-220 | the key loop leaves the value of the last id member, and without one the id it started with |
| JavaPersisterLaws.PersistedIdIsTheLastIdMember | src/main/java/poetry/json/JsonPersister.java:222-242 | the id returned is the last id member's value, or without one the rowid of the row inserted for the object |
| JavaPersisterLaws.SecondIdMemberWins | src/main/java/poetry/json/JsonPersister.java:203-205 | an object with two id members, which the Kotlin persister refuses, is written under the second one's value |
| JavaPersisterLaws.BaseRowsAgree | src/main/java/poetry/json/JsonPersister.java:290-303 | where `persistArrayOfBaseTypes` succeeds it leaves the contents and rowids the Kotlin generation does |
| JavaPersisterLaws.BaseRowsFailOnlyOnMinusOne | src/main/java/poetry/json/JsonPersister.java:296-300 | where the Kotlin base-value inserts succeed and no rowid is -1, the Java ones succeed too |
| JavaPersisterLaws.JunctionRowsGenerationsAgree | src/main/java/poetry/json/JsonPersister.java:442-456 | where the Java junction inserts succeed the Kotlin ones do, with the same contents; where only the Kotlin ones do, the Java failure is a RuntimeException |
| JavaPersisterLaws.ReplaceJunctionGenerationsAgree | src/main/java/poetry/json/JsonPersister.java:431-456 | the same for the delete and the inserts together |
| JavaPersisterLaws.JunctionLinksExactlyTheTargets | src/main/java/poetry/json/JsonPersister.java:400-457 | after `processManyToMany` a Long parent is linked to exactly its Long targets, in order; the junction rows of other parents stay as they were, and so do all other tables |
| JavaPersisterLaws.ForeignKeyGenerationsAgree | src/main/java/poetry/json/JsonPersister.java:491-498 | the foreign column and its ContentValues are found exactly when the Kotlin persister finds them, and are the same |
| JavaPersisterLaws.TargetQueryGenerationsAgree | src/main/java/poetry/json/JsonPersister.java:500-505 | the IN arguments, table and id column are found exactly when the Kotlin persister finds them, and are the same |
| JavaPersisterLaws.PlanLinkGenerationsAgree | src/main/java/poetry/json/JsonPersister.java:491-505 | the lookups of `processManyToOne` succeed exactly when the Kotlin ones do, and agree |
| JavaPersisterLaws.LinkChildrenGenerationsAgree | src/main/java/poetry/json/JsonPersister.java:491-514 | the Java linking of children succeeds exactly when the Kotlin one does and leaves the same contents |
| JavaPersisterWriter.JsonPersister.constructor | src/main/java/poetry/json/JsonPersister.java:51-64 | a persister over a database with its model classes and options |
| JavaPersisterWriter.JsonPersister.PersistObject | src/main/java/poetry/json/JsonPersister.java:75-93 | the object's id or the write's exception; outside any other transaction it commits the write on success and leaves the contents as they were on failure |
| JavaPersisterWriter.JsonPersister.PersistArray | src/main/java/poetry/json/JsonPersister.java:104-124 | the elements' ids in order, written in one transaction that commits or rolls back as a whole |
| JavaPersisterWriter.JsonPersister.PersistObjectInternal | src/main/java/poetry/json/JsonPersister.java:162-263 | answers and changes exactly what the write of the object, its row and its collections, does |
| JavaPersisterWriter.JsonPersister.ProcessKeys | src/main/java/poetry/json/JsonPersister.java:180-220 | the key loop, every key in order, into the ContentValues |
| JavaPersisterWriter.JsonPersister.ProcessKeyAt | src/main/java/poetry/json/JsonPersister.java:180-220 | one turn of the key loop, then the rest |
| JavaPersisterWriter.JsonPersister.ProcessKey | src/main/java/poetry/json/JsonPersister.java:181-219 | one key: the id row, a column value, a recorded collection (null included), or nothing |
| JavaPersisterWriter.JsonPersister.ProcessIdField | src/main/java/poetry/json/JsonPersister.java:320-355 | the row for the id and the id read from the JSON |
| JavaPersisterWriter.JsonPersister.ProcessDatabaseField | src/main/java/poetry/json/JsonPersister.java:357-398 | the column's value copied, a nested object written first, or the foreign id read as its field's type |
| JavaPersisterWriter.JsonPersister.ResolveId | src/main/java/poetry/json/JsonPersister.java:222-242 | the id member's value, or a row inserted for the object |
| JavaPersisterWriter.JsonPersister.ProcessMappings | src/main/java/poetry/json/JsonPersister.java:252-260 | the recorded collections, in order, with the parent's id |
| JavaPersisterWriter.JsonPersister.ProcessMapping | src/main/java/poetry/json/JsonPersister.java:253-259 | a many-to-many or a one-to-many collection |
| JavaPersisterWriter.JsonPersister.PersistArrayOfObjects | src/main/java/poetry/json/JsonPersister.java:265-277 | every element written in order, answering their ids |
| JavaPersisterWriter.JsonPersister.PersistElement | src/main/java/poetry/json/JsonPersister.java:269-274 | one element written, then the rest |
| JavaPersisterWriter.JsonPersister.PersistArrayOfBaseTypes | src/main/java/poetry/json/JsonPersister.java:279-306 | one row per element, its text in the target column; an insert answering -1 is an SQLiteException |
| JavaPersisterWriter.JsonPersister.InsertBaseRows | src/main/java/poetry/json/JsonPersister.java:290-303 | the element loop, in order |
| JavaPersisterWriter.JsonPersister.InsertBaseRow | src/main/java/poetry/json/JsonPersister.java:291-302 | one element's row, then the rest |
| JavaPersisterWriter.JsonPersister.ProcessManyToMany | src/main/java/poetry/json/JsonPersister.java:400-457 | a null collection is passed over; otherwise the targets written, the parent's junction rows deleted and one inserted per target |
| JavaPersisterWriter.JsonPersister.PersistJunction | src/main/java/poetry/json/JsonPersister.java:428-456 | the targets written, then the junction replaced |
| JavaPersisterWriter.JsonPersister.ReplaceJunction | src/main/java/poetry/json/JsonPersister.java:431-456 | the junction `delete`, then the inserts |
| JavaPersisterWriter.JsonPersister.ClearJunction | src/main/java/poetry/json/JsonPersister.java:431-436 | the junction lookups and its `delete` |
| JavaPersisterWriter.JsonPersister.InsertJunctionRows | src/main/java/poetry/json/JsonPersister.java:442-456 | one insert of (parent, target) per target, in order |
| JavaPersisterWriter.JsonPersister.InsertJunctionRow | src/main/java/poetry/json/JsonPersister.java:443-455 | one junction row, then the rest; a failed copy or a -1 rowid is a RuntimeException |
| JavaPersisterWriter.JsonPersister.ProcessManyToOne | src/main/java/poetry/json/JsonPersister.java:459-515 | a null collection is passed over; otherwise the children written, linked to the parent and, unless disabled, the stale ones removed |
| JavaPersisterWriter.JsonPersister.PersistChildren | src/main/java/poetry/json/JsonPersister.java:481-489 | the children as objects, or as base values when the field names a single target |
| JavaPersisterWriter.JsonPersister.PlanLink | src/main/java/poetry/json/JsonPersister.java:491-505 | the lookups before the statements, with nothing changed |
| JavaPersisterWriter.JsonPersister.TargetQuery | src/main/java/poetry/json/JsonPersister.java:500-505 | the IN clause's arguments, the children's table and their id column |
| JavaPersisterWriter.JsonPersister.ForeignKey | src/main/java/poetry/json/JsonPersister.java:491-498 | the children's foreign column and the ContentValues the parent id is copied into |
| JavaPersisterWriter.JsonPersister.LinkChildren | src/main/java/poetry/json/JsonPersister.java:491-514 | the lookups, then the update and the optional cleanup |
| JavaPersisterWriter.JsonPersister.LinkTargets | src/main/java/poetry/json/JsonPersister.java:507-514 | the update of the listed children, then the cleanup unless disabled |

## Left out

- Write-ahead logging (`enableWriteAheadLoggingSafely`), every `Log.*` call and the main-thread warning: they do not change the database contents.
- Float and double values are opaque. A double is kept as the text `toString` gives and its value truncated toward zero, so rounding and the textual format of floating point are not modelled.
- SQLite column affinity: the store compares values by their text, so an integer column holding `"1"` and `1` are the same value here.
- SQL text is not parsed. WHERE clauses are a small predicate datatype (`=`, `IN`, `NOT IN`, an inline literal, `AND`), built where the source formats the string. An inline literal is read as SQLite reads it when it is an integer, a real number in the form `Double.toString` writes (`1.5`, `1.0E10`), `NULL`, `true` or `false`; any other text fails to compile.
- Java reflection is given as data: classes, fields, annotations and superclass links form a `Metadata.Schema`. A superclass reference that does not point to an earlier class ends the chain.
- The memoising retrievers are proved against the uncached lookup functions. Thread safety of their HashMaps is not modelled.
- `findAnnotationOrThrow`, `findForeignFieldOrThrow` and `queryFirst` are not defined in the files modelled. They are modelled as a lookup that throws when nothing is found, and as the rowid of the first row whose column reads the argument.
- `classAnnotationRetriever.getTableName(targetClass)`, which `JsonPersister.kt` calls at lines 267 and 318, is not defined on the internal annotation retriever either. It is modelled as `Metadata.TableNameOrThrow`, the table name of `getTableNameOrThrow`, failing when the class has no `@DatabaseTable`.
- `getFirstFieldOfType` and `createInClause`, as `JsonPersister.kt` calls them on the internal classes, are modelled with the meaning the `reflection` and `utils` versions give them.
- The Kotlin ports `reflection/AnnotationRetriever.kt` and `reflection/FieldRetriever.kt` behave as the Java classes beside them, which the `Reflection` module models. They have no members of their own here.
- Exception messages are abbreviated: the model keeps each exception's kind and a short reason, not the interpolated key, path or class name.
- `NativeDatabase`, the ORMLite DAO layer, table creation, JSON text parsing and the HTTP client are not part of this model.
- JavaPersisterLaws.BaseRowsAgree: one direction only. Where the Java insert answers `-1` the Java generation fails and the Kotlin one does not, so only Java success implies Kotlin success with the same rows.
- JavaPersisterLaws.JunctionRowsGenerationsAgree: one direction only, for the same `-1` reason, plus the kind of error when both fail.
- JavaPersisterLaws.ReplaceJunctionGenerationsAgree: one direction only, for the same `-1` reason.
- PoetrySpec.JunctionRowsAreTheIds: stated for a parent whose id and targets are Long values. Other id types need the column text to be read back exactly, which the model does not prove.
- JsonPersisterLaws.JunctionLinksExactlyTheTargets: stated for Long parents and targets, for the same reason.
- JavaPersisterLaws.JunctionLinksExactlyTheTargets: stated for Long parents and targets, for the same reason.
- JsonPersisterLaws.ChildrenLinkedToParent: stated for a Long parent id, for the same reason.
- PoetrySpec.InsertBaseValues: models the corrected iteration of the `JsonUtils.kt:15` finding (every element, in order). As written, `toIterable()` throws a JSONException on any non-empty array before the first insert (`PoetrySpec.BaseTypesAsWrittenFail`).
- PoetryWriter.Poetry.WriteArray: models the corrected iteration of the `JsonUtils.kt:15` finding (every element, in order). As written, any non-empty array throws and the transaction rolls back (`PoetryWriter.Poetry.WriteArrayAsWritten`).
- PoetryWriter.Poetry.WriteArrayOfObjects: models the corrected iteration of the `JsonUtils.kt:15` finding (every element, in order). As written, element 0 is skipped and the last `next()` throws after the elements before it were written (`PoetryWriter.Poetry.WriteArrayOfObjectsAsWritten`).
- PoetryWriter.Poetry.WriteElement: models the corrected iteration of the `JsonUtils.kt:15` finding (every element, in order). As written, round `i` fetches element `i + 1` (`PoetryWriter.Poetry.WriteNextAsWritten`).
- PoetryWriter.Poetry.WriteArrayOfBaseTypes: models the corrected iteration of the `JsonUtils.kt:15` finding (every element, in order). As written, any non-empty array throws a JSONException before the first insert (`PoetrySpec.BaseTypesAsWrittenFail`).
- PoetryWriter.Poetry.InsertBaseValue: models the corrected iteration of the `JsonUtils.kt:15` finding (every element, in order). As written, no element is ever inserted from a non-empty array.
- PoetryWriter.Poetry.ProcessManyToMany: models the corrected iteration of the `JsonUtils.kt:15` finding (every element, in order). As written, a non-empty many-to-many array fails the whole write.
- PoetryWriter.Poetry.ProcessManyToOne: models the corrected iteration of the `JsonUtils.kt:15` finding (every element, in order). As written, a non-empty one-to-many array fails the whole write.
- PoetryWriter.Poetry.WriteChildren: models the corrected iteration of the `JsonUtils.kt:15` finding (every element, in order). As written, writing any non-empty array of children fails.
- JsonPersisterSpec.PersistArrayFrom: models the corrected iteration of the `JsonUtils.kt:15` finding (every element, in order). As written, any non-empty array fails (`JsonPersisterSpec.PersistArrayAsWrittenFails`).
- JsonPersisterWriter.JsonPersister.PersistArray: models the corrected iteration of the `JsonUtils.kt:15` finding (every element, in order). As written, any non-empty array throws and the transaction rolls back (`JsonPersisterWriter.JsonPersister.PersistArrayAsWritten`).
- JsonPersisterWriter.JsonPersister.PersistArrayOfObjects: models the corrected iteration of the `JsonUtils.kt:15` finding (every element, in order). As written, element 0 is skipped and the last `next()` throws after the elements before it were persisted (`JsonPersisterWriter.JsonPersister.PersistArrayOfObjectsAsWritten`).
- JsonPersisterWriter.JsonPersister.PersistElement: models the corrected iteration of the `JsonUtils.kt:15` finding (every element, in order). As written, round `i` fetches element `i + 1` (`JsonPersisterWriter.JsonPersister.PersistNextAsWritten`).
- JsonPersisterWriter.JsonPersister.PersistArrayOfBaseTypes: models the corrected iteration of the `JsonUtils.kt:15` finding (every element, in order). As written, any non-empty array throws a JSONException before the first insert (`JsonPersisterSpec.BaseTypesAsWrittenFail`).
- JsonPersisterWriter.JsonPersister.InsertBaseValues: models the corrected iteration of the `JsonUtils.kt:15` finding (every element, in order). As written, no row is inserted from a non-empty array.
- JsonPersisterWriter.JsonPersister.InsertBaseValue: models the corrected iteration of the `JsonUtils.kt:15` finding (every element, in order). As written, no element is ever inserted from a non-empty array.
- JsonPersisterWriter.JsonPersister.ProcessManyToMany: models the corrected iteration of the `JsonUtils.kt:15` finding (every element, in order). As written, a non-empty many-to-many array fails the whole write.
- JsonPersisterWriter.JsonPersister.PersistJunction: models the corrected iteration of the `JsonUtils.kt:15` finding (every element, in order). As written, the target ids come from an array that fails when non-empty.
- JsonPersisterWriter.JsonPersister.ProcessManyToOne: models the corrected iteration of the `JsonUtils.kt:15` finding (every element, in order). As written, a non-empty one-to-many array fails the whole write.
- JsonPersisterWriter.JsonPersister.PersistChildren: models the corrected iteration of the `JsonUtils.kt:15` finding (every element, in order). As written, persisting any non-empty array of children fails.
- JsonModel.AsInt: a numeric string is read only when it is an optionally signed run of digits. `Double.parseDouble` also accepts fractions and exponents (`"1.5"` gives 1, `"1e3"` gives 1000), surrounding whitespace, `d`/`f` suffixes, `NaN` (0) and `Infinity` (clamped), which the model refuses, because doubles are opaque here.
- JsonModel.AsLong: the same integer-only reading of numeric strings; in addition, integers of magnitude above 2^53 go through a double in the source and are rounded, which the model does not do.
- JsonModel.AsDouble: the same integer-only reading of numeric strings; other numeric strings are refused instead of parsed, because doubles are opaque here.
- JsonModel.NumericStringCoercion: stated for magnitudes up to 2^53 only; beyond that the source rounds through a double and the model, reading the digits exactly, does not say what the source answers.
- JsonUtils.NonNumericLongIdIsJsonError: stated only for strings without a digit that do not spell `NaN` or `Infinity`; strings that `Double.parseDouble` accepts but the model does not (`"1.5"`, `" 7 "`) are read by the source and refused by the model.
- Databases.Database.FinishTransaction: the new state is stated fully only for a lone transaction. Nested levels are covered by `EndTransaction` and `EndLevels`.

## Findings

| source | as written | input that shows it | evidently intended | confidence | as-written member | corrected member |
|---|---|---|---|---|---|---|
| src/main/java/poetry/internal/JsonUtils.kt:15 | `next()` returns `array[++currentIndex]` (also `getJSONObject(++currentIndex)` at line 24): the index is advanced before it is read | any non-empty array, e.g. `[{}]`: element 0 is skipped and the last `next()` reads index `length()`, which throws JSONException | `array[currentIndex++]`, yielding every element once in order | not executed | JsonUtils.AsWrittenIterationFails | JsonUtils.Drain |
