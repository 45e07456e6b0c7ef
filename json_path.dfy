/** Following a dotted path such as "root.key" into nested JSON objects
    (JsonPathResolver.kt). */
module JsonPath {
  import opened Wrappers
  import opened JsonModel

  // ---------------------------------------------------------------------
  // Path text

  /** Kotlin's `split(".")`: the pieces between dots, empty ones included, so
      the empty string splits into one empty piece. */
  function Split(s: string): (parts: seq<string>)
    ensures |parts| >= 1
    ensures forall i | 0 <= i < |parts| :: '.' !in parts[i]
  {
    if s == [] then [""]
    else if s[0] == '.' then [""] + Split(s[1..])
    else
      var rest := Split(s[1..]);
      [[s[0]] + rest[0]] + rest[1..]
  }

  /** The pieces joined back with dots. */
  function Join(parts: seq<string>): string
    requires |parts| >= 1
  {
    if |parts| == 1 then parts[0] else parts[0] + "." + Join(parts[1..])
  }

  /** Splitting loses nothing: joining the pieces gives the path back. */
  lemma {:induction false} JoinSplit(s: string)
    ensures Join(Split(s)) == s
  {
    if s == [] {
    } else if s[0] == '.' {
      JoinSplit(s[1..]);
      assert Split(s)[1..] == Split(s[1..]);
    } else {
      JoinSplit(s[1..]);
      var rest := Split(s[1..]);
      if |rest| > 1 {
        assert Split(s)[1..] == rest[1..];
        assert Join(rest) == rest[0] + "." + Join(rest[1..]);
      }
    }
  }

  /** `dropLastWhile { it.isEmpty() }`. */
  function DropTrailingEmpty(parts: seq<string>): (r: seq<string>)
    ensures |r| <= |parts| && r == parts[..|r|]
    ensures r != [] ==> r[|r| - 1] != ""
    ensures forall i | |r| <= i < |parts| :: parts[i] == ""
  {
    if parts == [] then []
    else if parts[|parts| - 1] == "" then DropTrailingEmpty(parts[..|parts| - 1])
    else parts
  }

  /** `toKeysFromPath`: the keys of a dotted path, without the empty ones a
      trailing dot leaves. */
  function ToKeysFromPath(path: string): (keys: seq<string>)
    ensures |keys| <= |Split(path)| && keys == Split(path)[..|keys|]
    ensures forall i | |keys| <= i < |Split(path)| :: Split(path)[i] == ""
    ensures keys != [] ==> keys[|keys| - 1] != ""
    ensures forall i | 0 <= i < |keys| :: '.' !in keys[i]
  {
    DropTrailingEmpty(Split(path))
  }

  /** A path that does not end in a dot is exactly its keys, joined. */
  lemma KeysJoinBack(path: string)
    requires path != [] && path[|path| - 1] != '.'
    ensures ToKeysFromPath(path) == Split(path)
    ensures Join(ToKeysFromPath(path)) == path
  {
    JoinSplit(path);
    LastPieceNonEmpty(path);
  }

  lemma {:induction false} LastPieceNonEmpty(s: string)
    requires s != [] && s[|s| - 1] != '.'
    ensures Split(s)[|Split(s)| - 1] != ""
  {
    if |s| > 1 {
      assert s[1..][|s[1..]| - 1] == s[|s| - 1];
      LastPieceNonEmpty(s[1..]);
    }
  }

  /** A path made only of dots yields no keys at all. */
  lemma DotHasNoKeys()
    ensures ToKeysFromPath(".") == []
  {
    assert Split(".") == ["", ""];
  }

  // ---------------------------------------------------------------------
  // Reference: where a key path leads

  /** The value reached by looking up each key in turn, passing only through
      objects; None when a key is missing or a step meets a non-object. */
  function Follow(current: JsonObject, keys: seq<string>): Option<Json>
    decreases |keys|
  {
    if keys == [] then Some(current)
    else match Opt(current, keys[0])
      case None => None
      case Some(child) =>
        if |keys| == 1 then Some(child)
        else if child.JObject? then Follow(child, keys[1..])
        else None
  }

  // ---------------------------------------------------------------------
  // The resolver

  /** `getChildOrJsonPathException`. */
  function Child(current: JsonObject, key: string): (r: Result<Json>)
    ensures r.Success? <==> Opt(current, key).Some?
    ensures r.Success? ==> r.value == Opt(current, key).value
  {
    match Opt(current, key)
    case Some(v) => Success(v)
    case None => Failure(JsonPathException("failed to fetch element \"" + key + "\""))
  }

  function PathError<T>(message: string): Result<T>
  {
    Failure(JsonPathException(message))
  }

  function MappingFailed<T>(): Result<T>
  {
    PathError("json path mapping failed")
  }

  /** `resolveObject`'s walk from key `i` on, starting at `current`. */
  function ResolveObjectFrom(current: JsonObject, keys: seq<string>, i: nat): Result<JsonObject>
    requires i < |keys|
    decreases |keys| - i
  {
    var child :- Child(current, keys[i]);
    if child.JArray? then
      PathError(if i == |keys| - 1 then "last element is an array and not an object" else "array element cannot be parsed")
    else if child.JObject? then
      if i == |keys| - 1 then Success(child) else ResolveObjectFrom(child, keys, i + 1)
    else
      PathError("can't parse element because the type is not supported")
  }


  /** What `resolveObject(jsonObject, path)` returns or throws. */
  function ResolveObjectPath(obj: JsonObject, path: string): Result<JsonObject>
  {
    if path == "" then Success(obj)
    else
      var keys := ToKeysFromPath(path);
      if keys == [] then MappingFailed() else ResolveObjectFrom(obj, keys, 0)
  }

  /** `resolveObject`: replaces `current` by each child object in turn. */
  method ResolveObject(obj: JsonObject, path: string) returns (r: Result<JsonObject>)
    ensures r == ResolveObjectPath(obj, path)
  {
    if path == "" {
      return Success(obj);
    }
    var keys := ToKeysFromPath(path);
    var current: JsonObject := obj;
    var keyIndex := 0;
    while keyIndex < |keys|
      invariant keys == [] ==> keyIndex == 0
      invariant keys != [] ==> keyIndex < |keys| && ResolveObjectPath(obj, path) == ResolveObjectFrom(current, keys, keyIndex)
      decreases |keys| - keyIndex
    {
      var key := keys[keyIndex];
      var childObject := Child(current, key);
      if childObject.Failure? {
        return Failure(childObject.error);
      }
      var child := childObject.value;
      if child.JArray? {
        if keyIndex == |keys| - 1 {
          return Failure(JsonPathException("last element is an array and not an object"));
        } else {
          return Failure(JsonPathException("array element cannot be parsed"));
        }
      } else if child.JObject? {
        if keyIndex == |keys| - 1 {
          return Success(child);
        } else {
          current := child;
        }
      } else {
        return Failure(JsonPathException("can't parse element because the type is not supported"));
      }
      keyIndex := keyIndex + 1;
    }
    return MappingFailed();
  }

  /** `resolveArray`'s walk from key `i` on, starting at `current`. */
  function ResolveArrayFrom(current: JsonObject, keys: seq<string>, i: nat): Result<JsonArray>
    requires i < |keys|
    decreases |keys| - i
  {
    var child :- Child(current, keys[i]);
    if child.JArray? then
      if i == |keys| - 1 then Success(child)
      else PathError("array element is not the last element on the path")
    else if child.JObject? then
      if i == |keys| - 1 then MappingFailed() else ResolveArrayFrom(child, keys, i + 1)
    else
      PathError("can't parse element because the type is not supported")
  }

  /** What `resolveArray(jsonObject, path)` returns or throws. */
  function ResolveArrayPath(obj: JsonObject, path: string): Result<JsonArray>
  {
    if path == "" then Failure(JsonPathException("root of JSONObject can never be a JSONArray"))
    else
      var keys := ToKeysFromPath(path);
      if keys == [] then MappingFailed() else ResolveArrayFrom(obj, keys, 0)
  }

  /** `resolveArray`: walks objects until the last key, which must name an array. */
  method ResolveArray(obj: JsonObject, path: string) returns (r: Result<JsonArray>)
    ensures r == ResolveArrayPath(obj, path)
  {
    if path == "" {
      return Failure(JsonPathException("root of JSONObject can never be a JSONArray"));
    }
    var keys := ToKeysFromPath(path);
    var current: JsonObject := obj;
    var keyIndex := 0;
    while keyIndex < |keys|
      invariant keys == [] ==> keyIndex == 0
      invariant keys != [] ==> keyIndex < |keys| && ResolveArrayPath(obj, path) == ResolveArrayFrom(current, keys, keyIndex)
      decreases |keys| - keyIndex
    {
      var key := keys[keyIndex];
      var childObject := Child(current, key);
      if childObject.Failure? {
        return Failure(childObject.error);
      }
      var child := childObject.value;
      if child.JArray? {
        if keyIndex == |keys| - 1 {
          return Success(child);
        } else {
          return Failure(JsonPathException("array element is not the last element on the path"));
        }
      } else if child.JObject? {
        if keyIndex == |keys| - 1 {
          return MappingFailed();
        }
        current := child;
      } else {
        return Failure(JsonPathException("can't parse element because the type is not supported"));
      }
      keyIndex := keyIndex + 1;
    }
    return MappingFailed();
  }

  // ---------------------------------------------------------------------
  // The resolver against the reference

  lemma {:induction false} ResolveObjectFromFollows(current: JsonObject, keys: seq<string>, i: nat)
    requires i < |keys|
    ensures ResolveObjectFrom(current, keys, i).Success? <==> Follow(current, keys[i..]).Some? && Follow(current, keys[i..]).value.JObject?
    ensures ResolveObjectFrom(current, keys, i).Success? ==> Follow(current, keys[i..]) == Some(ResolveObjectFrom(current, keys, i).value)
    ensures ResolveObjectFrom(current, keys, i).Failure? ==> ResolveObjectFrom(current, keys, i).error.JsonPathException?
    decreases |keys| - i
  {
    assert keys[i..][0] == keys[i];
    assert keys[i..][1..] == keys[i + 1..];
    match Opt(current, keys[i]) {
      case None =>
      case Some(child) =>
        if i < |keys| - 1 && child.JObject? {
          ResolveObjectFromFollows(child, keys, i + 1);
        }
    }
  }

  /** `resolveObject` returns exactly the object the keys of the path lead to,
      and throws a path error when they lead nowhere or to a non-object. */
  lemma ResolveObjectFollowsPath(obj: JsonObject, path: string)
    requires path != ""
    ensures ResolveObjectPath(obj, path).Success? <==>
      ToKeysFromPath(path) != [] && Follow(obj, ToKeysFromPath(path)).Some? && Follow(obj, ToKeysFromPath(path)).value.JObject?
    ensures ResolveObjectPath(obj, path).Success? ==> Follow(obj, ToKeysFromPath(path)) == Some(ResolveObjectPath(obj, path).value)
    ensures ResolveObjectPath(obj, path).Failure? ==> ResolveObjectPath(obj, path).error.JsonPathException?
  {
    var keys := ToKeysFromPath(path);
    if keys != [] {
      ResolveObjectFromFollows(obj, keys, 0);
      assert keys[0..] == keys;
    }
  }

  lemma {:induction false} ResolveArrayFromFollows(current: JsonObject, keys: seq<string>, i: nat)
    requires i < |keys|
    ensures ResolveArrayFrom(current, keys, i).Success? <==> Follow(current, keys[i..]).Some? && Follow(current, keys[i..]).value.JArray?
    ensures ResolveArrayFrom(current, keys, i).Success? ==> Follow(current, keys[i..]) == Some(ResolveArrayFrom(current, keys, i).value)
    ensures ResolveArrayFrom(current, keys, i).Failure? ==> ResolveArrayFrom(current, keys, i).error.JsonPathException?
    decreases |keys| - i
  {
    assert keys[i..][0] == keys[i];
    assert keys[i..][1..] == keys[i + 1..];
    match Opt(current, keys[i]) {
      case None =>
      case Some(child) =>
        if i < |keys| - 1 && child.JObject? {
          ResolveArrayFromFollows(child, keys, i + 1);
        }
    }
  }

  /** `resolveArray` returns exactly the array the keys lead to, and throws a
      path error otherwise (the empty path included). */
  lemma ResolveArrayFollowsPath(obj: JsonObject, path: string)
    ensures ResolveArrayPath(obj, path).Success? <==>
      path != "" && ToKeysFromPath(path) != [] && Follow(obj, ToKeysFromPath(path)).Some? && Follow(obj, ToKeysFromPath(path)).value.JArray?
    ensures ResolveArrayPath(obj, path).Success? ==> Follow(obj, ToKeysFromPath(path)) == Some(ResolveArrayPath(obj, path).value)
    ensures ResolveArrayPath(obj, path).Failure? ==> ResolveArrayPath(obj, path).error.JsonPathException?
  {
    var keys := ToKeysFromPath(path);
    if path != "" && keys != [] {
      ResolveArrayFromFollows(obj, keys, 0);
      assert keys[0..] == keys;
    }
  }
}
