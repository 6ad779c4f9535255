# Filter core of laravel-table, modelled in Dafny

This project models the abstract `Filter` class of the laravel-table package
(`src/Filter.php`). A filter is described by a short specification string
such as `select|label:Status|cast:int`. `Filter::make` parses that string
into a type and a parameter map, derives the concrete class name
(`Merkeleon\Table\Filter\SelectFilter`), and constructs the filter.

A constructed filter holds the value submitted for it. That value is cast
once, when construction ends. It can be replaced through `setValue` and
`setDefaultValue`. `isActive` tests whether the value is set, and
`validate` checks it. `applyFilter` hands the value to one backend hook,
chosen by the variant of the data source: an Eloquent builder or relation,
a collection, an Elastic search model, or a log repository.

Modules:

- `Wrappers` (`wrappers.dfy`): `Option` and `Result`.
- `Values` (`values.dfy`): the PHP values a filter handles. It defines the
  three predicates the class mixes:
  - PHP's own falsiness (`!$x`, `empty($x)`);
  - Laravel's `blank()`, with PHP's `trim`;
  - `array_filter` without a callback.

  It also holds the `(int)` and `(string)` conversions, the loose
  `in_array` test, and the cast policy.
- `SpecParser` (`spec_parser.dfy`): PHP's `explode`, the parameter loop of
  `make`, the whole-string parse, and the class-name derivation. The
  class name uses Laravel's `camel_case`, `studly_case` and `ucfirst`,
  for ASCII.
- `Binding` (`binding.dfy`): `exportParameterValue` over an explicit
  parameter descriptor, with the exception message it raises.
- `Filters` (`filter.dfy`): the `Filter` class with its fields and fluent
  setters. It also holds the dispatcher, `validate`, `createFilter` and
  `make`.
- `Scenarios` (`scenario.dfy`): one filter built by `make` from its
  specification string, end to end.

The class is modelled as a Dafny `class` whose methods update its fields in
place and return the object itself, as the PHP setters return `$this`.
The value predicates, the parser and the dispatch choice are functions with
lemmas.

Where the code's behaviour is easy to misread, the model follows the code:

- Dispatch tests `blank()`, but `isActive` tests `array_filter`. So a filter
  whose value is `[0]` is inactive, yet applying it still runs the backend
  hook (`Filters.InactiveArrayStillDispatched`).
- `setDefaultValue` is exactly an unforced `setValue`, because both test
  PHP falsiness (`Filters.SetDefaultValueRule`).
- `setValue` tests PHP falsiness, not "unset". A stored `"0"` or `0` is
  overwritten without force. A stored `" "` is not overwritten, although
  it is inactive.
- The value `0` counts as active, because `blank(0)` is false. Under an
  integer cast, `"0"` becomes `0` and stays active.
- A fragment such as `k:a:b` binds `k` to `a`. The destructuring of
  `explode(':', ...)` keeps two pieces and drops the rest
  (`SpecParser.ParseFragmentShape`).
- A fragment without `:` is modelled as an error. Plain PHP would emit an
  "undefined offset" notice and bind `null`. Laravel's error handler turns
  that notice into an `ErrorException`, which aborts `make`.
- In the loose `in_array($cast, ['int', 'integer'])`, a cast of `true`
  equals every cast name. The value is then converted to an integer and
  then to a string (`Values.CastTrueConvertsTwice`). PHP 7 and PHP 8 differ
  only when comparing `0` with a non-numeric string. That case cannot arise
  here, because a cast is recorded only when it is truthy
  (`Filters.ValidCastComparesAlike`).

## Model

| member | source | states |
|---|---|---|
| `Values.Truthy` | src/Filter.php:111 | defines PHP's conversion to bool, used by `empty` (line 111), `!$x` (lines 218, 240) and the `if` at lines 63, 158 and 170: null, false, 0, "", "0" and [] are falsy |
| `Values.Trim` | src/Filter.php:201 | defines PHP's `trim` with its default characters, as `blank()` applies it |
| `Values.Blank` | src/Filter.php:121 | defines Laravel's `blank()`, used at lines 98, 103, 121 and 201: null, a string that trims to "", or an empty array |
| `Values.Active` | src/Filter.php:192-202 | defines what `isActive` tests: some truthy element for an array, not blank otherwise |
| `Values.Lookup` | src/Filter.php:63 | `array_get($params, $key)` on a plain key, as at lines 63, 87 and 158: the entry when the key is present, null otherwise |
| `Values.TrimEmptyIff` | src/Filter.php:201 | a string is blank (trims to "") exactly when every character is one `trim` strips |
| `Values.BlankAndFalsyDiffer` | src/Filter.php:111-121 | `blank` and PHP falsiness differ both ways: `0`, `"0"` and `false` are falsy but not blank; `" "` is blank but truthy |
| `Values.BlankVersusFalsy` | src/Filter.php:111-121 | on null and arrays `blank` is falsiness; the only blank truthy values are non-empty whitespace strings |
| `Values.ArrayFilter` | src/Filter.php:196 | `array_filter` keeps exactly the truthy elements and never grows the array |
| `Values.ActiveIff` | src/Filter.php:192-202 | an array is active iff some element is truthy; any other value iff it is not blank |
| `Values.ActiveNotBlank` | src/Filter.php:192-202 | an active value is never blank; `[0]` is inactive yet not blank |
| `Values.ActiveExamples` | src/Filter.php:192-202 | null, `""`, whitespace, `[]`, `["", null]` and `[0, ""]` are inactive; `"x"`, `["", "y"]`, `0`, `"0"` and `false` are active |
| `Values.DecimalRoundTrip` | src/Filter.php:100-105 | reading back the decimal digits of a natural number gives the number |
| `Values.IntDecimalRoundTrip` | src/Filter.php:100-105 | `(int)` of the `(string)` form of any 64-bit integer gives the integer back |
| `Values.Clamp` | src/Filter.php:100 | integers from strings saturate at the 64-bit bounds: below the range gives PHP_INT_MIN, above it PHP_INT_MAX, inside it the number itself |
| `Values.StrToInt` | src/Filter.php:100 | `(int)` on a string: leading white space, a sign and the leading digits, saturated to the 64-bit range it never leaves |
| `Values.IntToDecimal` | src/Filter.php:105 | `(string)` of an integer: a non-empty decimal string that starts with `-` or a digit |
| `Values.ToInt` | src/Filter.php:100 | defines `(int)$v` for each kind of value |
| `Values.ToStr` | src/Filter.php:105 | defines `(string)$v` for each kind of value |
| `Values.LooseEquals` | src/Filter.php:98 | defines PHP 8's loose `==` between a value and a cast name |
| `Values.LooseEqualsBefore8` | src/Filter.php:98 | defines PHP 7's loose `==`, where an integer meets a non-numeric string as 0 |
| `Values.LooseComparisonVersionsAgree` | src/Filter.php:98 | for null or a truthy value, PHP 7 and PHP 8 compare it with a cast name alike |
| `Values.InArray` | src/Filter.php:98 | defines `in_array` with its loose comparison, as at lines 98 and 103 |
| `Values.Cast` | src/Filter.php:96-107 | defines the value `prepareCast` leaves: the integer step, then the string step, each only on a non-blank value |
| `Values.CastDecimalToInt` | src/Filter.php:98-101 | the decimal string of any 64-bit natural number casts under `int` to that number |
| `Values.CastToInt` | src/Filter.php:98-101 | a non-blank value under cast `int`/`integer` becomes the integer `(int)` gives |
| `Values.CastToStr` | src/Filter.php:103-106 | a non-blank value under cast `str`/`string` becomes the string `(string)` gives |
| `Values.CastLeavesAlone` | src/Filter.php:96-107 | a blank value, no cast, or an unknown cast name leaves the value untouched |
| `Values.CastTrueConvertsTwice` | src/Filter.php:98-106 | a cast of `true` loosely matches both lists: the value becomes the string of its integer |
| `Values.CastTypeMatches` | src/Filter.php:96-107 | after casting a non-blank value its type is the one the policy names |
| `Values.CastFortyTwo` | src/Filter.php:98-101 | `"42"` under cast `int` becomes the integer 42 |
| `Values.CastIdempotent` | src/Filter.php:96-107 | casting an already cast value again changes nothing |
| `SpecParser.Explode` | src/Filter.php:35 | explode gives at least one piece, no piece holds the separator, and a single piece exactly when the separator is absent |
| `SpecParser.Join` | src/Filter.php:39 | defines `implode`, the inverse `JoinExplode` and `ExplodeJoin` relate to `explode` |
| `SpecParser.JoinExplode` | src/Filter.php:39 | joining the pieces of a string with the separator gives the string back |
| `SpecParser.ExplodeCons` | src/Filter.php:35 | a separator-free prefix before the first separator is the first piece |
| `SpecParser.ExplodeJoin` | src/Filter.php:39 | splitting joined separator-free pieces gives the pieces back |
| `SpecParser.FirstIndex` | src/Filter.php:34 | the index found holds the separator and none occurs before it |
| `SpecParser.FirstIndexAt` | src/Filter.php:34 | a separator with none before it is the one FirstIndex finds |
| `SpecParser.ExplodeLimitTwo` | src/Filter.php:34-35 | the two-piece explode splits at the first separator: its head is the first full piece and its tail explodes to the remaining pieces |
| `SpecParser.FragmentValue` | src/Filter.php:39 | defines a parameter's value: a list of the comma pieces when there is a comma, the string otherwise |
| `SpecParser.ParseFragment` | src/Filter.php:38-39 | defines the key and value one `key:value` fragment binds, or the error for a fragment without a colon |
| `SpecParser.ParamsOf` | src/Filter.php:36-40 | defines the parameter map of a fragment list, each fragment overwriting earlier bindings of its key |
| `SpecParser.Parse` | src/Filter.php:31-41 | defines the type and the parameters of a specification string |
| `SpecParser.FragmentValueRoundTrip` | src/Filter.php:39 | a value with a comma becomes a list of at least two comma-free strings that join back to it; any other value stays a string |
| `SpecParser.ParseFragmentShape` | src/Filter.php:38-39 | a fragment fails iff it has no colon; otherwise its key is the text before the first colon and its value the text up to the next colon |
| `SpecParser.ParamsOfFailurePersists` | src/Filter.php:36-40 | once a fragment fails, parsing the whole list fails with that error |
| `SpecParser.ParamsOfSucceeds` | src/Filter.php:36-40 | the parameters parse iff every fragment has a colon |
| `SpecParser.ParamsOfFirstFailure` | src/Filter.php:36-40 | the error names the first fragment without a colon |
| `SpecParser.ParamsOfKeys` | src/Filter.php:36-40 | the keys bound are exactly the fragments' keys |
| `SpecParser.ParamsOfLastWins` | src/Filter.php:39 | a fragment whose key no later fragment repeats decides that key's value; a later duplicate overwrites an earlier one |
| `SpecParser.ParseParams` | src/Filter.php:35-40 | the loop that fills the parameter map in place yields the parameters of the fragments, or the first fragment's error |
| `SpecParser.ParseShape` | src/Filter.php:31-41 | without `\|` the type is the whole string and there are no parameters; with `\|` the type is the first `\|`-piece (holding no `\|`) and the parameters are those of the other pieces |
| `SpecParser.FirstIndexAfter` | src/Filter.php:34 | the first separator after a separator-free prefix is at the end of that prefix |
| `SpecParser.ParseFragmentOf` | src/Filter.php:38-39 | `key:value` with no further colon binds the key to the value |
| `SpecParser.ListValueOf` | src/Filter.php:39 | `a,b` becomes the list `[a, b]` |
| `SpecParser.ParamsOfTwo` | src/Filter.php:36-40 | two fragments bind in order, the second winning on the same key |
| `SpecParser.ParseTwoScalars` | src/Filter.php:31-41 | every `t\|k1:v1\|k2:v2` with comma-free values parses to type `t` with two string parameters |
| `SpecParser.ParseTwoParams` | src/Filter.php:31-41 | every `t\|k1:v1\|k2:a,b` parses to type `t` with `k1` bound to `"v1"` and `k2` to `["a", "b"]` |
| `SpecParser.Upper` | src/Filter.php:43 | an upper-cased character is never a lower-case letter |
| `SpecParser.StudlyFrom` | src/Filter.php:43 | the studly form holds no `-`, `_` or space, and does not start with a lower-case letter |
| `SpecParser.Studly` | src/Filter.php:43 | defines Laravel 5's `studly_case` |
| `SpecParser.CamelCase` | src/Filter.php:43 | defines Laravel 5's `camel_case`: the studly form with a lower-case first letter |
| `SpecParser.LcFirst` | src/Filter.php:43 | defines PHP's `lcfirst`, the last step of `camel_case` |
| `SpecParser.UcFirst` | src/Filter.php:43 | defines PHP's `ucfirst` |
| `SpecParser.ClassName` | src/Filter.php:43 | defines the class name: the filter namespace and `ucfirst(camel_case($type . 'Filter'))` |
| `SpecParser.StudlyOfFilter` | src/Filter.php:43 | the suffix `Filter` is unchanged by the studly conversion |
| `SpecParser.StudlyAppendFilter` | src/Filter.php:43 | appending `Filter` to the type appends `Filter` to its studly form |
| `SpecParser.ClassNameShape` | src/Filter.php:43 | the class name is the filter namespace, the studly type and `Filter`; ucfirst undoes camel_case's lcfirst |
| `SpecParser.StudlyOfLowerWord` | src/Filter.php:43 | lower-case letters inside a word pass through unchanged |
| `SpecParser.StudlyWordThen` | src/Filter.php:43 | a run of lower-case letters inside a word passes through ahead of what follows |
| `SpecParser.StudlyOfTwoWords` | src/Filter.php:43 | `w1_w2` becomes `W1W2` |
| `SpecParser.ClassNameOfTwoWords` | src/Filter.php:43 | type `w1_w2` names class `Merkeleon\Table\Filter\W1W2Filter` (as `date_range` names `DateRangeFilter`) |
| `Binding.ExportParameterValue` | src/Filter.php:61-80 | a truthy supplied value is used; a falsy or absent one with a declared default binds exactly that default; binding fails iff neither exists, naming the parameter and its class |
| `Binding.FalsySuppliedIsAbsent` | src/Filter.php:63-70 | supplying a falsy value binds the same as not supplying it, falling through to the default |
| `Binding.Message` | src/Filter.php:71-79 | the message quotes the parameter, then the declaring class when there is one, then "is required." |
| `Filters.FirstError` | src/Filter.php:258 | the recorded error is the first message of the field, or null when it has none |
| `Filters.ReplaceChar` | src/Filter.php:228 | replacing a character keeps the length and changes exactly the replaced positions |
| `Filters.AfterSetValue` | src/Filter.php:111 | defines the value `setValue` leaves: the argument when forced or over an empty value |
| `Filters.AfterSetDefaultValue` | src/Filter.php:218 | defines the value `setDefaultValue` leaves: the argument over a falsy value |
| `Filters.HookFor` | src/Filter.php:126-146 | the hook of each data-source variant; only a source of no known variant has none |
| `Filters.RunHook` | src/Filter.php:128-143 | defines the call of one backend hook with the data source and the filter's value |
| `Filters.SetValueRule` | src/Filter.php:109-117 | a forced setValue stores its argument; an unforced one stores it only over a falsy value |
| `Filters.SetValueEmptinessTest` | src/Filter.php:111 | `"0"`, `0` and `false` are overwritten without force; an inactive `" "` is not |
| `Filters.SetDefaultValueRule` | src/Filter.php:216-224 | setDefaultValue equals an unforced setValue, never replaces a truthy value, and is idempotent |
| `Filters.Filter.Valid` | src/Filter.php:158-173 | the invariant every setter keeps: a recorded label or cast is null or truthy |
| `Filters.Filter.constructor` | src/Filter.php:82-92 | name, label only if given and truthy, params, cast only if truthy, then the prepared value cast once; all other fields at their defaults |
| `Filters.Filter.PrepareCast` | src/Filter.php:96-107 | the value becomes its cast under the recorded cast; nothing else changes |
| `Filters.Filter.SetValue` | src/Filter.php:109-117 | the new value is the setValue rule applied to the old; returns the same object; only the value changes |
| `Filters.Filter.SetDefaultValue` | src/Filter.php:216-224 | the new value is the setDefaultValue rule applied to the old; returns the same object |
| `Filters.Filter.Name` | src/Filter.php:149-154 | sets the name and returns the same object |
| `Filters.Filter.Params` | src/Filter.php:156-166 | sets the parameters; records `cast` only when it is truthy |
| `Filters.Filter.Label` | src/Filter.php:168-176 | replaces the label only with a truthy one |
| `Filters.Filter.Validators` | src/Filter.php:178-183 | sets the rule specification |
| `Filters.Filter.Theme` | src/Filter.php:185-190 | sets the theme |
| `Filters.Filter.ViewPath` | src/Filter.php:204-209 | sets the view path |
| `Filters.Filter.Attributes` | src/Filter.php:231-236 | sets the attributes, empty by default |
| `Filters.Filter.GetValue` | src/Filter.php:211-214 | defines `getValue`: the current value |
| `Filters.Filter.IsActive` | src/Filter.php:192-202 | the filter is active iff its value is; an active filter's value is not blank |
| `Filters.Filter.PreparedName` | src/Filter.php:226-229 | the prepared name has the name's length, each `.` becomes `_`, and every other character is kept |
| `Filters.Filter.ApplyFilter` | src/Filter.php:119-147 | blank value: same source, no hook; otherwise the hook of the variant runs; its result is returned except for the log repository, whose source is returned |
| `Filters.Filter.Validate` | src/Filter.php:238-264 | a falsy value is valid and nothing changes; otherwise the verdict on field `f_<name>` decides, and a failure records the field's first error |
| `Filters.ValidCastComparesAlike` | src/Filter.php:96-107 | a valid filter's cast is never the integer 0, so PHP 7 and PHP 8 read each cast name alike in `prepareCast` |
| `Filters.ActiveFilterDispatches` | src/Filter.php:119-147 | an active filter calls the hook of the data source's variant |
| `Filters.InactiveArrayStillDispatched` | src/Filter.php:119-147 | a filter holding `[0]` is inactive, yet a query builder runs its Eloquent hook |
| `Filters.BlankFilterPassesThrough` | src/Filter.php:121-124 | a blank value returns every data source unchanged without a hook |
| `Filters.CreateFilter` | src/Filter.php:50-59 | an unknown class fails; a known one yields a fresh, initialised filter |
| `Filters.Make` | src/Filter.php:25-48 | an existing filter is returned as is; a string fails with its parse error or an unknown class, or yields a fresh filter with the parsed parameters |
| `Scenarios.MakeStatusFilter` | src/Filter.php:25-59 | `make` on the string `select\|label:Status\|cast:int` yields a fresh filter initialised with the label "Status" and the cast "int" |
| `Scenarios.StatusFilterScenario` | src/Filter.php:82-107 | the filter `make` builds from `select\|label:Status\|cast:int` with value "2" has label "Status", cast "int", value 2, is active, and runs the Eloquent hook with 2 |

## Left out

- `render` and the Blade view template are markup, so they are not modelled.
- The body of `validate` after its falsy short-circuit calls Laravel's
  `validator()` on `request()->all()`. It is modelled as a function
  parameter that gives a verdict for the field key, the rules and the label.
  The request data stays inside that function.
- `Filters.Filter.Validate` states only how the verdict is used, not how the
  verdict is reached.
- `prepare()` is abstract and implemented by the concrete filter classes.
  The constructor takes the value `prepare()` assigns. Any other effect of
  `prepare()` is not modelled.
- The backend hooks (`applyEloquentFilter` and the others) are implemented
  by concrete classes that are not part of this model. They are modelled as
  function-typed parameters.
- `Filters.Filter.ApplyFilter` does not capture the log-repository hook's
  effect on the repository object. The model records that the hook ran and
  that the same source comes back.
- Reflection is replaced by two things:
  - a set of the class names that exist;
  - the base constructor's `(name, params)` signature.

  A concrete class with another constructor signature is not modelled.
- `exportParameterValue` takes an explicit parameter descriptor: a name, an
  optional default, and an optional declaring class. The shown code never
  iterates over the constructor parameters, so no binding loop is modelled.
- `camel_case`, `studly_case` and `ucfirst` are Laravel and PHP helpers. They
  are modelled for ASCII in the Laravel 5 form: `-` and `_` become spaces,
  `ucwords` runs, and the spaces are removed.
- Floats are not modelled. `(int)` on a string reads leading white space, an
  optional sign and the leading digits. A fraction or exponent is ignored,
  so `"1e3"` reads as 1, where PHP gives 1000.
- PHP arrays with string keys are modelled only as the parameter map.
  Array values are lists.
- Data-source objects are numbered handles. Returning "the identical object"
  is modelled as returning the equal handle.
- `Filters.Filter.GetValue`: a plain field read with no contract.
- `Values.ToStr`: an array converts to `"Array"`, as in plain PHP. Under
  Laravel's error handler, the "Array to string conversion" notice raised at
  line 105 becomes an `ErrorException` instead. A string cast of an array
  value then aborts the constructor, and no filter is built. The model
  builds a filter holding `"Array"` in that case.
