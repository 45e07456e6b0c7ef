/** Query-argument text (internal/database/QueryUtils.kt) and the `IN (...)`
    clause built from a list of ids (internal/database/InClause.kt). */
module QueryUtils {
  import opened Wrappers
  import opened Values
  import opened ContentValuesExt

  /** `parseAttribute(Any?)`: the text a value takes as a query argument or
      inline literal. Null becomes the SQL keyword NULL; numbers, booleans,
      CharSequences and Dates their `toString`; any other class is refused. */
  function ParseAttribute(v: Value): (r: Result<string>)
    ensures v.Null? ==> r == Success("NULL")
    ensures r.Success? <==> !v.OtherV?
    ensures r.Success? && !v.Null? ==> r.value == Text(v)
    ensures r.Failure? ==> r.error.InvalidParameterException?
  {
    match v
    case Null => Success("NULL")
    case OtherV(name, _) => Failure(InvalidParameterException("parameter type not supported: " + name))
    case _ => Success(Text(v))
  }

  /** A value can be written as a query argument exactly when `put` can store
      it in a ContentValues. */
  lemma ParseAttributeAcceptsWhatPutStores(v: Value)
    ensures ParseAttribute(v).Success? <==> Stored(v).Some?
  {
  }

  /** `k` copies of `s`. */
  function Repeat(s: string, k: nat): string
  {
    if k == 0 then "" else Repeat(s, k - 1) + s
  }

  /** `n` question marks separated by commas. */
  function Placeholders(n: nat): string
  {
    if n == 0 then "" else Repeat("?,", n - 1) + "?"
  }

  /** The selector `IN (?,...,?)` with one placeholder per value. */
  function InSelector(n: nat): string
  {
    "IN (" + Placeholders(n) + ")"
  }

  function CountChar(s: string, c: char): nat
  {
    if s == [] then 0 else (if s[0] == c then 1 else 0) + CountChar(s[1..], c)
  }

  lemma {:induction false} CountCharAppend(s: string, t: string, c: char)
    ensures CountChar(s + t, c) == CountChar(s, c) + CountChar(t, c)
  {
    if s == [] {
      assert s + t == t;
    } else {
      assert (s + t)[1..] == s[1..] + t;
      CountCharAppend(s[1..], t, c);
    }
  }

  lemma {:induction false} RepeatCount(k: nat)
    ensures CountChar(Repeat("?,", k), '?') == k
    ensures CountChar(Repeat("?,", k), ',') == k
  {
    if k > 0 {
      RepeatCount(k - 1);
      CountCharAppend(Repeat("?,", k - 1), "?,", '?');
      CountCharAppend(Repeat("?,", k - 1), "?,", ',');
    }
  }

  /** The selector holds exactly one placeholder per value, so the argument
      array it is bound with must have that many entries; commas separate them. */
  lemma InSelectorPlaceholders(n: nat)
    ensures CountChar(InSelector(n), '?') == n
    ensures CountChar(InSelector(n), ',') == if n == 0 then 0 else n - 1
  {
    if n > 0 {
      RepeatCount(n - 1);
      CountCharAppend(Repeat("?,", n - 1), "?", '?');
      CountCharAppend(Repeat("?,", n - 1), "?", ',');
    }
    CountCharAppend("IN (" + Placeholders(n), ")", '?');
    CountCharAppend("IN (", Placeholders(n), '?');
    CountCharAppend("IN (" + Placeholders(n), ")", ',');
    CountCharAppend("IN (", Placeholders(n), ',');
  }

  /** Index of the first value `parseAttribute` refuses, if any. */
  function FirstUnsupported(values: seq<Value>): (r: Option<nat>)
    ensures r.Some? ==> r.value < |values| && ParseAttribute(values[r.value]).Failure?
    ensures r.Some? ==> forall k | 0 <= k < r.value :: ParseAttribute(values[k]).Success?
    ensures r.None? ==> forall k | 0 <= k < |values| :: ParseAttribute(values[k]).Success?
  {
    if values == [] then None
    else if ParseAttribute(values[0]).Failure? then Some(0)
    else match FirstUnsupported(values[1..])
      case None => None
      case Some(k) => Some(k + 1)
  }

  /** A refused value after only supported ones is the first refused one. */
  lemma FirstUnsupportedIs(values: seq<Value>, i: nat)
    requires i < |values| && ParseAttribute(values[i]).Failure?
    requires forall k | 0 <= k < i :: ParseAttribute(values[k]).Success?
    ensures FirstUnsupported(values) == Some(i)
  {
  }

  /** The argument texts of a list of values, all of them supported. */
  function ArgumentTexts(values: seq<Value>): (r: seq<string>)
    requires FirstUnsupported(values).None?
    ensures |r| == |values|
    ensures forall k | 0 <= k < |values| :: r[k] == ParseAttribute(values[k]).value
  {
    seq(|values|, k requires 0 <= k < |values| => ParseAttribute(values[k]).value)
  }

  /** An `IN` clause: the selector and the argument texts it is bound with. */
  datatype InClause = InClause(selector: string, values: seq<string>)

  /** `inClauseOf(values)`: converts every value to its argument text and
      writes one placeholder per value; the first unsupported value aborts
      with its exception. */
  method InClauseOf(values: seq<Value>) returns (r: Result<InClause>)
    ensures r.Success? <==> FirstUnsupported(values).None?
    ensures r.Success? ==> r.value == InClause(InSelector(|values|), ArgumentTexts(values))
    ensures r.Failure? ==> r.error == ParseAttribute(values[FirstUnsupported(values).value]).error
  {
    var idValues := new string[|values|];
    var builder := "IN (";
    for index := 0 to |values|
      invariant FirstUnsupported(values).None? || index <= FirstUnsupported(values).value
      invariant forall k | 0 <= k < index :: idValues[k] == ParseAttribute(values[k]).value
      invariant index < |values| ==> builder == "IN (" + Repeat("?,", index)
      invariant index == |values| > 0 ==> builder == "IN (" + Repeat("?,", index - 1) + "?"
      invariant index == |values| == 0 ==> builder == "IN ("
    {
      var text := ParseAttribute(values[index]);
      if text.Failure? {
        return Failure(text.error);
      }
      idValues[index] := text.value;
      builder := builder + "?";
      if index != |values| - 1 {
        builder := builder + ",";
      }
    }
    builder := builder + ")";
    return Success(InClause(builder, idValues[..]));
  }
}

/** The older query helpers (utils/QueryUtils.kt): `parseAttribute` for
    non-null values and `createInClause`, which fills a caller's argument
    array in place. */
module LegacyQueryUtils {
  import opened Wrappers
  import opened Values
  import QueryUtils

  /** `parseAttribute(Any)`: the text of a non-null value as a query argument. */
  function ParseAttribute(v: Value): (r: Result<string>)
    requires !v.Null?
    ensures r.Success? <==> !v.OtherV?
    ensures r.Success? ==> r.value == Text(v)
    ensures r.Failure? ==> r.error.InvalidParameterException?
  {
    match v
    case OtherV(name, _) => Failure(InvalidParameterException("parameter type not supported: " + name))
    case _ => Success(Text(v))
  }

  /** On every non-null value the two generations of `parseAttribute` agree. */
  lemma ParseAttributeGenerationsAgree(v: Value)
    requires !v.Null?
    ensures ParseAttribute(v) == QueryUtils.ParseAttribute(v)
  {
  }

  /** The selector text once `index` of `n` placeholders are written: each
      but the last is followed by a comma. */
  function BuiltSelector(index: nat, n: nat): string
    requires index <= n
  {
    if index < n then "IN (" + QueryUtils.Repeat("?,", index) else "IN (" + QueryUtils.Placeholders(n)
  }

  lemma BuiltSelectorStep(index: nat, n: nat)
    requires index < n
    ensures BuiltSelector(index + 1, n) == BuiltSelector(index, n) + "?" + (if index != n - 1 then "," else "")
  {
    var prefix := "IN (" + QueryUtils.Repeat("?,", index);
    if index + 1 < n {
      assert QueryUtils.Repeat("?,", index + 1) == QueryUtils.Repeat("?,", index) + "?,";
      assert prefix + "?," == prefix + "?" + ",";
    } else {
      assert QueryUtils.Placeholders(n) == QueryUtils.Repeat("?,", index) + "?";
    }
  }

  /** The argument array once `createInClause` has filled every entry, as the
      arguments a statement is bound with. */
  function Unwrapped(args: seq<Option<string>>): (r: seq<string>)
    requires forall k | 0 <= k < |args| :: args[k].Some?
    ensures |r| == |args| && forall k | 0 <= k < |args| :: r[k] == args[k].value
  {
    seq(|args|, k requires 0 <= k < |args| => args[k].value)
  }

  /** `createInClause(targetIds, outputQueryArgs)`: refuses an argument array of
      the wrong size, otherwise stores each id's text at its index and returns
      the selector. */
  method CreateInClause(targetIds: seq<Value>, outputQueryArgs: array<Option<string>>) returns (r: Result<string>)
    requires forall k | 0 <= k < |targetIds| :: !targetIds[k].Null?
    modifies outputQueryArgs
    ensures outputQueryArgs.Length != |targetIds| ==> r.Failure? && r.error.RuntimeException? && unchanged(outputQueryArgs)
    ensures outputQueryArgs.Length == |targetIds| ==>
      (r.Success? <==> QueryUtils.FirstUnsupported(targetIds).None?)
    ensures outputQueryArgs.Length == |targetIds| && r.Failure? ==>
      r.error == QueryUtils.ParseAttribute(targetIds[QueryUtils.FirstUnsupported(targetIds).value]).error
    ensures r.Success? ==> r.value == QueryUtils.InSelector(|targetIds|)
    ensures r.Success? ==> forall k | 0 <= k < |targetIds| :: outputQueryArgs[k] == Some(ParseAttribute(targetIds[k]).value)
  {
    if outputQueryArgs.Length != |targetIds| {
      return Failure(RuntimeException("targetIds and targetIdArgs must be the same size"));
    }
    var builder := "IN (";
    for index := 0 to |targetIds|
      invariant forall k | 0 <= k < index :: QueryUtils.ParseAttribute(targetIds[k]).Success?
      invariant forall k | 0 <= k < index :: outputQueryArgs[k] == Some(ParseAttribute(targetIds[k]).value)
      invariant builder == BuiltSelector(index, |targetIds|)
    {
      var text := ParseAttribute(targetIds[index]);
      ParseAttributeGenerationsAgree(targetIds[index]);
      if text.Failure? {
        QueryUtils.FirstUnsupportedIs(targetIds, index);
        return Failure(text.error);
      }
      outputQueryArgs[index] := Some(text.value);
      BuiltSelectorStep(index, |targetIds|);
      builder := builder + "?";
      if index != |targetIds| - 1 {
        builder := builder + ",";
      }
    }
    return Success(builder + ")");
  }
}
