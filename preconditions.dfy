/** Argument validators of utils/Preconditions.java: each returns its argument or throws. */
module Preconditions {
  import opened Wrappers

  /** The exception messages: the text, the possibly-null name, then the complaint. */
  function NullParameterMessage(name: Option<string>): string
  {
    "Parameter  " + NullableText(name) + " cannot be null!"
  }

  function EmptyParameterMessage(name: Option<string>): string
  {
    "Parameter  " + NullableText(name) + " cannot be empty!"
  }

  function NullReturnMessage(name: Option<string>): string
  {
    "Return value  " + NullableText(name) + " cannot be null!"
  }

  /** Returns a non-null parameter unchanged; a null one throws IllegalArgumentException. */
  function AssertParameterNotNull<T>(parameter: Option<T>, parameterName: Option<string>): (r: Result<T>)
    ensures r.Ok? <==> parameter.Some?
    ensures r.Ok? ==> r.value == parameter.value
    ensures r.Throws? ==> r.error == IllegalArgument(NullParameterMessage(parameterName))
  {
    match parameter
    case None => Throws(IllegalArgument(NullParameterMessage(parameterName)))
    case Some(p) => Ok(p)
  }

  /** Returns a non-null, non-empty collection unchanged; otherwise throws IllegalArgumentException. */
  function AssertCollectionNotEmpty<T>(parameter: Option<seq<T>>, parameterName: Option<string>): (r: Result<seq<T>>)
    ensures r.Ok? <==> parameter.Some? && |parameter.value| > 0
    ensures r.Ok? ==> r.value == parameter.value
    ensures r.Throws? ==> r.error == IllegalArgument(EmptyParameterMessage(parameterName))
  {
    if parameter.None? || |parameter.value| == 0 then
      Throws(IllegalArgument(EmptyParameterMessage(parameterName)))
    else
      Ok(parameter.value)
  }

  /** Android's TextUtils.isEmpty: null or of length zero. */
  predicate IsEmptyText(s: Option<string>)
  {
    s.None? || |s.value| == 0
  }

  /** Returns a non-empty string unchanged; a null or empty one throws IllegalArgumentException. */
  function AssertStringNotEmpty(parameter: Option<string>, parameterName: Option<string>): (r: Result<string>)
    ensures r.Ok? <==> parameter.Some? && parameter.value != ""
    ensures r.Ok? ==> r.value == parameter.value
    ensures r.Throws? ==> r.error == IllegalArgument(EmptyParameterMessage(parameterName))
  {
    if IsEmptyText(parameter) then
      Throws(IllegalArgument(EmptyParameterMessage(parameterName)))
    else
      Ok(parameter.value)
  }

  /** Returns a non-null return value unchanged; a null one throws IllegalArgumentException. */
  function AssertReturnNotNull<T>(returnVal: Option<T>, parameterName: Option<string>): (r: Result<T>)
    ensures r.Ok? <==> returnVal.Some?
    ensures r.Ok? ==> r.value == returnVal.value
    ensures r.Throws? ==> r.error == IllegalArgument(NullReturnMessage(parameterName))
  {
    match returnVal
    case None => Throws(IllegalArgument(NullReturnMessage(parameterName)))
    case Some(v) => Ok(v)
  }

  /** The two null checks accept and reject the same inputs and return the same value;
      only the exception message differs. */
  lemma ReturnCheckAgreesWithParameterCheck<T>(x: Option<T>, name: Option<string>)
    ensures AssertReturnNotNull(x, name).Ok? == AssertParameterNotNull(x, name).Ok?
    ensures AssertReturnNotNull(x, name).Ok? ==> AssertReturnNotNull(x, name).value == AssertParameterNotNull(x, name).value
    ensures AssertReturnNotNull(x, name).Throws? ==> AssertReturnNotNull(x, name).error != AssertParameterNotNull(x, name).error
  {
    if x.None? {
      assert NullReturnMessage(name)[0] == 'R';
      assert NullParameterMessage(name)[0] == 'P';
    }
  }
}
