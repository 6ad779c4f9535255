/** A filter built from its specification string, end to end. */
module Scenarios {
  import opened Wrappers
  import opened Values
  import opened SpecParser
  import opened Filters

  /**
   * `Filter::make('select|label:Status|cast:int', 'status')` with the
   * submitted value "2", where the class `SelectFilter` exists.
   */
  method MakeStatusFilter() returns (f: Filter)
    ensures fresh(f) && f.Valid()
    ensures f.Initialized("status", map["label" := Str("Status"), "cast" := Str("int")], Str("2"))
  {
    var spec := "select" + ['|'] + "label" + [':'] + "Status" + ['|'] + "cast" + [':'] + "int";
    ParseTwoScalars("select", "label", "Status", "cast", "int");
    var r := Make(Spec(spec), "status", {ClassName("select")}, Str("2"));
    f := r.value;
  }

  /**
   * End to end: `select|label:Status|cast:int` with the submitted value "2"
   * gives the label "Status", the cast "int", the integer 2, an active
   * filter, and a query hook run with 2.
   */
  method StatusFilterScenario(hooks: Hooks) returns (f: Filter)
    ensures fresh(f) && f.Valid()
    ensures f.name == "status"
    ensures f.labelValue == Str("Status") && f.cast == Str("int") && f.value == Int(2)
    ensures f.IsActive()
    ensures f.ApplyFilter(Builder(7), hooks) == Applied(hooks.eloquent(Builder(7), Int(2)), Some(EloquentHook))
  {
    f := MakeStatusFilter();
    CastDecimalToInt(2);
    assert NatToDecimal(2) == "2";
    assert f.value == Int(2);
    assert !Blank(f.value);
  }
}
