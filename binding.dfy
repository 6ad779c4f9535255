/**
 * `Filter::exportParameterValue`: the value bound to one declared
 * constructor parameter, with reflection replaced by an explicit
 * parameter descriptor.
 */
module Binding {
  import opened Wrappers
  import opened Values

  /** What reflection reports of a constructor parameter: its name, its default and its declaring class. */
  datatype Parameter = Parameter(name: string, default: Option<Value>, declaringClass: Option<string>)

  /** The InvalidArgumentException raised for a parameter with no usable value. */
  datatype BindError = Required(parameter: string, declaringClass: Option<string>)

  /**
   * A supplied value is used when it is truthy; otherwise the declared
   * default; otherwise binding fails naming the parameter.
   */
  function ExportParameterValue(params: map<string, Value>, p: Parameter): (r: Result<Value, BindError>)
    ensures Truthy(Lookup(params, p.name)) ==> r == Success(Lookup(params, p.name))
    ensures r.Success? ==> Truthy(r.value) || (p.default.Some? && r.value == p.default.value)
    ensures !Truthy(Lookup(params, p.name)) && p.default.Some? ==> r == Success(p.default.value)
    ensures r.Failure? <==> !Truthy(Lookup(params, p.name)) && p.default.None?
    ensures r.Failure? ==> r.error == Required(p.name, p.declaringClass)
  {
    var supplied := Lookup(params, p.name);
    if Truthy(supplied) then Success(supplied)
    else if p.default.Some? then Success(p.default.value)
    else Failure(Required(p.name, p.declaringClass))
  }

  /** Supplying a falsy value ("", "0", 0, false, null, []) binds the same as supplying nothing. */
  lemma FalsySuppliedIsAbsent(params: map<string, Value>, p: Parameter)
    requires p.name in params && !Truthy(params[p.name])
    ensures ExportParameterValue(params, p) == ExportParameterValue(params - {p.name}, p)
    ensures p.default.Some? ==> ExportParameterValue(params, p) == Success(p.default.value)
  {
  }

  /** The exception message, naming the parameter and, when there is one, the declaring class. */
  function Message(e: BindError): (m: string)
    ensures |m| > 10 + |e.parameter|
    ensures m[..10] == "Argument \""
    ensures m[10..10 + |e.parameter|] == e.parameter
    ensures e.declaringClass.Some? ==>
      m[10 + |e.parameter|..] == "\" for filter \"" + e.declaringClass.value + "\" is required."
    ensures e.declaringClass.None? ==> m[10 + |e.parameter|..] == "\" is required."
  {
    match e.declaringClass
    case Some(c) => "Argument \"" + e.parameter + "\" for filter \"" + c + "\" is required."
    case None => "Argument \"" + e.parameter + "\" is required."
  }
}
