/**
 * The abstract `Filter` class: its fields, the fluent setters that update
 * them in place, the value lifecycle (cast once at construction, setValue,
 * setDefaultValue, isActive, validate), the backend dispatcher and the
 * `make` factory.
 */
module Filters {
  import opened Wrappers
  import opened Values
  import opened SpecParser

  // ---------------------------------------------------------------------
  // Data sources and backend hooks
  // ---------------------------------------------------------------------

  /**
   * The data sources a filter is applied to, by variant: an Eloquent
   * query builder or relation, a collection, an Elastic search model, a
   * log repository, or anything else. The handle stands for the object.
   */
  datatype DataSource =
    | Builder(handle: nat)
    | Relation(handle: nat)
    | Collection(handle: nat)
    | ElasticModel(handle: nat)
    | LogRepository(handle: nat)
    | Other(handle: nat)

  /** The backend hooks a concrete filter class implements. */
  datatype Hook = EloquentHook | CollectionHook | ElasticSearchHook | LogRepositoryHook

  /** The hooks of one concrete filter class: each takes the data source and the filter's value. */
  datatype Hooks = Hooks(
    eloquent: (DataSource, Value) -> DataSource,
    collection: (DataSource, Value) -> DataSource,
    elasticSearch: (DataSource, Value) -> DataSource,
    logRepository: (DataSource, Value) -> DataSource)

  /** What `applyFilter` returns, and which hook it called. */
  datatype Applied = Applied(result: DataSource, called: Option<Hook>)

  /** The hook that serves each variant of data source. */
  function HookFor(ds: DataSource): (r: Option<Hook>)
    ensures r.None? <==> ds.Other?
  {
    match ds
    case Builder(_) => Some(EloquentHook)
    case Relation(_) => Some(EloquentHook)
    case Collection(_) => Some(CollectionHook)
    case ElasticModel(_) => Some(ElasticSearchHook)
    case LogRepository(_) => Some(LogRepositoryHook)
    case Other(_) => None
  }

  /** Running one hook. */
  function RunHook(hooks: Hooks, h: Hook, ds: DataSource, v: Value): DataSource {
    match h
    case EloquentHook => hooks.eloquent(ds, v)
    case CollectionHook => hooks.collection(ds, v)
    case ElasticSearchHook => hooks.elasticSearch(ds, v)
    case LogRepositoryHook => hooks.logRepository(ds, v)
  }

  // ---------------------------------------------------------------------
  // Validation outcome
  // ---------------------------------------------------------------------

  /** What the external validator reports: a pass, or the error messages per field. */
  datatype Verdict = Passes | Fails(errors: map<string, seq<string>>)

  /** `$errors[$key][0] ?? null`. */
  function FirstError(errors: map<string, seq<string>>, key: string): (r: Option<string>)
    ensures r.Some? <==> key in errors && |errors[key]| > 0
    ensures r.Some? ==> r.value == errors[key][0]
  {
    if key in errors && |errors[key]| > 0 then Some(errors[key][0]) else None
  }

  /** The request field of a filter is its name with this prefix. */
  const FIELD_PREFIX: string := "f_"

  // ---------------------------------------------------------------------
  // str_replace('.', '_', ...)
  // ---------------------------------------------------------------------

  /** `str_replace($from, $to, $s)` for single characters. */
  function ReplaceChar(s: string, from: char, to: char): (r: string)
    ensures |r| == |s|
    ensures forall i :: 0 <= i < |s| ==> r[i] == (if s[i] == from then to else s[i])
  {
    if s == [] then [] else [if s[0] == from then to else s[0]] + ReplaceChar(s[1..], from, to)
  }

  // ---------------------------------------------------------------------
  // setValue and setDefaultValue on values
  // ---------------------------------------------------------------------

  /** The value `setValue($v, $force)` leaves when the filter held `current`. */
  function AfterSetValue(current: Value, v: Value, force: bool): Value {
    if !Truthy(current) || force then v else current
  }

  /** The value `setDefaultValue($v)` leaves when the filter held `current`. */
  function AfterSetDefaultValue(current: Value, v: Value): Value {
    if !Truthy(current) then v else current
  }

  /** A forced setValue always stores its argument; an unforced one is first-write-wins on truthy values. */
  lemma SetValueRule(current: Value, v: Value)
    ensures AfterSetValue(current, v, true) == v
    ensures Truthy(current) ==> AfterSetValue(current, v, false) == current
    ensures !Truthy(current) ==> AfterSetValue(current, v, false) == v
  {
  }

  /**
   * The emptiness test is PHP's, not blank(): a stored "0" or 0 is
   * overwritten without force, a stored whitespace string is not.
   */
  lemma SetValueEmptinessTest(v: Value)
    ensures AfterSetValue(Str("0"), v, false) == v
    ensures AfterSetValue(Int(0), v, false) == v
    ensures AfterSetValue(Bool(false), v, false) == v
    ensures AfterSetValue(Str(" "), v, false) == Str(" ") && !Active(Str(" "))
  {
    ActiveExamples();
    assert TrimLeft(" ") == "";
  }

  /**
   * setDefaultValue behaves as an unforced setValue: it never replaces a
   * truthy value, it stores its argument over a falsy one, and applying it
   * again changes nothing.
   */
  lemma SetDefaultValueRule(current: Value, v: Value, w: Value)
    ensures AfterSetDefaultValue(current, v) == AfterSetValue(current, v, false)
    ensures Truthy(current) ==> AfterSetDefaultValue(current, v) == current
    ensures !Truthy(current) ==> AfterSetDefaultValue(current, v) == v
    ensures AfterSetDefaultValue(AfterSetDefaultValue(current, v), v) == AfterSetDefaultValue(current, v)
    ensures Truthy(AfterSetDefaultValue(current, v)) ==>
      AfterSetDefaultValue(AfterSetDefaultValue(current, v), w) == AfterSetDefaultValue(current, v)
  {
  }

  // ---------------------------------------------------------------------
  // The Filter class
  // ---------------------------------------------------------------------

  class Filter {
    var name: string
    var params: map<string, Value>
    var labelValue: Value
    var theme: string
    var value: Value
    var viewPath: Value
    var attributes: map<string, Value>
    var validators: Value
    var error: Option<string>
    var cast: Value

    /** A label or cast is only ever recorded when it is truthy. */
    ghost predicate Valid()
      reads this
    {
      && (labelValue == Null || Truthy(labelValue))
      && (cast == Null || Truthy(cast))
    }

    /**
     * The state construction leaves, given the name, the parameters and
     * the value the subclass's `prepare()` assigns.
     */
    ghost predicate Initialized(name: string, params: map<string, Value>, prepared: Value)
      reads this
    {
      && this.name == name
      && this.params == params
      && labelValue == (if "label" in params && Truthy(params["label"]) then params["label"] else Null)
      && cast == (if Truthy(Lookup(params, "cast")) then Lookup(params, "cast") else Null)
      && value == Cast(prepared, cast)
      && theme == "default"
      && viewPath == Null
      && attributes == map[]
      && validators == Str("")
      && error == None
    }

    /**
     * `__construct($name, $params)`: set the name, the label when the
     * parameters have one, the parameters and the cast; then `prepare()`
     * (modelled by the value it assigns) and the one-time cast.
     */
    constructor (name: string, params: map<string, Value>, prepared: Value)
      ensures Valid() && Initialized(name, params, prepared)
    {
      this.name := "";
      this.params := map[];
      labelValue := Null;
      theme := "default";
      value := Null;
      viewPath := Null;
      attributes := map[];
      validators := Str("");
      error := None;
      cast := Null;
      new;
      var _ := Name(name);
      if "label" in params {
        var _ := Label(Lookup(params, "label"));
      }
      var _ := Params(params);
      value := prepared;
      PrepareCast();
    }

    /** `prepareCast()`: cast the current value by the recorded cast. */
    method PrepareCast()
      requires Valid()
      modifies this`value
      ensures Valid()
      ensures value == Cast(old(value), cast)
    {
      if !Blank(value) && InArray(cast, INT_CASTS) {
        value := Int(ToInt(value));
      }
      if !Blank(value) && InArray(cast, STR_CASTS) {
        value := Str(ToStr(value));
      }
    }

    /** `setValue($value, $force = false)`: store unless a truthy value is already there and it is not forced. */
    method SetValue(v: Value, force: bool := false) returns (self: Filter)
      requires Valid()
      modifies this`value
      ensures Valid() && self == this
      ensures value == AfterSetValue(old(value), v, force)
    {
      if !Truthy(value) || force {
        value := v;
      }
      return this;
    }

    /** `setDefaultValue($value)`: store only over a falsy value. */
    method SetDefaultValue(v: Value) returns (self: Filter)
      requires Valid()
      modifies this`value
      ensures Valid() && self == this
      ensures value == AfterSetDefaultValue(old(value), v)
    {
      if !Truthy(value) {
        value := v;
      }
      return this;
    }

    /** `name($name)`. */
    method Name(n: string) returns (self: Filter)
      modifies this`name
      ensures self == this && name == n
    {
      name := n;
      return this;
    }

    /** `params($params)`: record the parameters, and the cast when it is truthy. */
    method Params(p: map<string, Value>) returns (self: Filter)
      requires Valid()
      modifies this`params, this`cast
      ensures Valid() && self == this
      ensures params == p
      ensures cast == (if Truthy(Lookup(p, "cast")) then Lookup(p, "cast") else old(cast))
    {
      var c := Lookup(p, "cast");
      if Truthy(c) {
        cast := c;
      }
      params := p;
      return this;
    }

    /** `label($label)`: only a truthy label replaces the current one. */
    method Label(l: Value) returns (self: Filter)
      requires Valid()
      modifies this`labelValue
      ensures Valid() && self == this
      ensures labelValue == (if Truthy(l) then l else old(labelValue))
    {
      if Truthy(l) {
        labelValue := l;
      }
      return this;
    }

    /** `validators($validators)`. */
    method Validators(v: Value) returns (self: Filter)
      modifies this`validators
      ensures self == this && validators == v
    {
      validators := v;
      return this;
    }

    /** `theme($theme)`. */
    method Theme(t: string) returns (self: Filter)
      modifies this`theme
      ensures self == this && theme == t
    {
      theme := t;
      return this;
    }

    /** `viewPath($viewPath)`. */
    method ViewPath(p: Value) returns (self: Filter)
      modifies this`viewPath
      ensures self == this && viewPath == p
    {
      viewPath := p;
      return this;
    }

    /** `attributes($attributes = [])`. */
    method Attributes(a: map<string, Value> := map[]) returns (self: Filter)
      modifies this`attributes
      ensures self == this && attributes == a
    {
      attributes := a;
      return this;
    }

    /** `getValue()`. */
    function GetValue(): Value
      reads this
    {
      value
    }

    /** `isActive()`: array_filter for arrays, blank() for anything else. */
    function IsActive(): (r: bool)
      reads this
      ensures r <==> Active(value)
      ensures r ==> !Blank(value)
    {
      ActiveNotBlank(value);
      Active(value)
    }

    /** `preparedName()`: the name with every `.` replaced by `_`. */
    function PreparedName(): (r: string)
      reads this
      ensures |r| == |name| && '.' !in r
      ensures forall i :: 0 <= i < |name| && name[i] != '.' ==> r[i] == name[i]
      ensures forall i :: 0 <= i < |name| && name[i] == '.' ==> r[i] == '_'
    {
      ReplaceChar(name, '.', '_')
    }

    /**
     * `applyFilter($dataSource)`: a blank value returns the data source
     * untouched; otherwise the hook of the data source's variant runs. The
     * log-repository hook's result is dropped and the source returned.
     */
    function ApplyFilter(ds: DataSource, hooks: Hooks): (r: Applied)
      reads this
      ensures Blank(value) ==> r == Applied(ds, None)
      ensures r.called == (if Blank(value) then None else HookFor(ds))
      ensures r.called.Some? && r.called.value != LogRepositoryHook ==>
        r.result == RunHook(hooks, r.called.value, ds, value)
      ensures r.called.None? || r.called.value == LogRepositoryHook ==> r.result == ds
    {
      if Blank(value) then Applied(ds, None)
      else if ds.Builder? || ds.Relation? then Applied(hooks.eloquent(ds, value), Some(EloquentHook))
      else if ds.Collection? then Applied(hooks.collection(ds, value), Some(CollectionHook))
      else if ds.ElasticModel? then Applied(hooks.elasticSearch(ds, value), Some(ElasticSearchHook))
      else if ds.LogRepository? then Applied(ds, Some(LogRepositoryHook))
      else Applied(ds, None)
    }

    /**
     * `validate()`: a falsy value is valid without asking anything.
     * Otherwise the validator judges the request field `f_<name>` by the
     * filter's rules and label; on failure the first error for that field
     * is recorded.
     */
    method Validate(validator: (string, Value, Value) -> Verdict) returns (ok: bool)
      requires Valid()
      modifies this`error
      ensures Valid()
      ensures !Truthy(value) ==> ok && error == old(error)
      ensures Truthy(value) ==> (ok <==> validator(FIELD_PREFIX + name, validators, labelValue).Passes?)
      ensures error == (if ok then old(error)
                        else FirstError(validator(FIELD_PREFIX + name, validators, labelValue).errors, FIELD_PREFIX + name))
    {
      if !Truthy(value) {
        return true;
      }
      var key := FIELD_PREFIX + name;
      var verdict := validator(key, validators, labelValue);
      if verdict.Fails? {
        error := FirstError(verdict.errors, key);
        return false;
      }
      return true;
    }
  }

  /**
   * A valid filter's cast is never the integer 0, so the loose `in_array`
   * of `prepareCast` reads every cast name the same under PHP 7 and PHP 8.
   */
  lemma ValidCastComparesAlike(f: Filter, t: string)
    requires f.Valid()
    requires t in INT_CASTS + STR_CASTS
    ensures f.cast != Int(0)
    ensures LooseEqualsBefore8(f.cast, t) <==> LooseEquals(f.cast, t)
  {
    assert IsCastName(t);
    LooseComparisonVersionsAgree(f.cast, t);
  }

  // ---------------------------------------------------------------------
  // Dispatch properties
  // ---------------------------------------------------------------------

  /** An active filter reaches the backend hook of every data source that has one. */
  lemma ActiveFilterDispatches(f: Filter, ds: DataSource, hooks: Hooks)
    ensures f.IsActive() ==> f.ApplyFilter(ds, hooks).called == HookFor(ds)
  {
  }

  /**
   * Dispatch follows blank(), not isActive(): a filter holding `[0]` is
   * inactive, yet applying it to a query builder runs the Eloquent hook.
   */
  lemma InactiveArrayStillDispatched(f: Filter, hooks: Hooks)
    requires f.value == Arr([Int(0)])
    ensures !f.IsActive()
    ensures f.ApplyFilter(Builder(0), hooks).called == Some(EloquentHook)
  {
    ActiveNotBlank(f.value);
  }

  /** Over a blank value every variant passes through unchanged and no hook runs. */
  lemma BlankFilterPassesThrough(f: Filter, ds: DataSource, hooks: Hooks)
    requires Blank(f.value)
    ensures !f.IsActive()
    ensures f.ApplyFilter(ds, hooks) == Applied(ds, None)
  {
  }

  // ---------------------------------------------------------------------
  // make and createFilter
  // ---------------------------------------------------------------------

  /** The first argument of `make`: an existing filter, or a specification string. */
  datatype TypeArg = Instance(filter: Filter) | Spec(spec: string)

  /** Why `make` fails: a malformed fragment, or a class name with no class behind it. */
  datatype MakeError = Malformed(cause: ParseError) | UnknownClass(className: string)

  /**
   * `createFilter($name, $params, $className)`: construct the named class
   * with the name and the parameters. `classes` are the classes that exist.
   */
  method CreateFilter(name: string, params: map<string, Value>, className: string,
                      classes: set<string>, prepared: Value)
    returns (r: Result<Filter, MakeError>)
    ensures className !in classes ==> r == Failure(UnknownClass(className))
    ensures className in classes ==>
      r.Success? && fresh(r.value) && r.value.Valid() && r.value.Initialized(name, params, prepared)
  {
    if className !in classes {
      return Failure(UnknownClass(className));
    }
    var f := new Filter(name, params, prepared);
    return Success(f);
  }

  /**
   * `make($type, $name)`: an existing filter is returned as it is;
   * a specification string is parsed, its class name derived, and the
   * filter constructed.
   */
  method Make(t: TypeArg, name: string, classes: set<string>, prepared: Value)
    returns (r: Result<Filter, MakeError>)
    ensures t.Instance? ==> r == Success(t.filter)
    ensures t.Spec? && Parse(t.spec).Failure? ==> r == Failure(Malformed(Parse(t.spec).error))
    ensures t.Spec? && Parse(t.spec).Success? ==>
      var parsed := Parse(t.spec).value;
      && (ClassName(parsed.typeId) !in classes ==> r == Failure(UnknownClass(ClassName(parsed.typeId))))
      && (ClassName(parsed.typeId) in classes ==>
            r.Success? && fresh(r.value) && r.value.Valid() && r.value.Initialized(name, parsed.params, prepared))
  {
    match t
    case Instance(f) =>
      return Success(f);
    case Spec(spec) =>
      var typeId := spec;
      var params: map<string, Value> := map[];
      if '|' in spec {
        var i := FirstIndex('|', spec);
        typeId := spec[..i];
        var parsed := ParseParams(spec[i + 1..]);
        if parsed.Failure? {
          return Failure(Malformed(parsed.error));
        }
        params := parsed.value;
      }
      r := CreateFilter(name, params, ClassName(typeId), classes, prepared);
  }
}
