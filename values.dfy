/**
 * The PHP values a filter holds, and the three predicates the filter code
 * uses on them: PHP's own boolean conversion (`!$x`, `empty($x)`),
 * Laravel's `blank()` helper, and `array_filter` without a callback.
 * Also the `(int)` and `(string)` conversions that casting applies.
 */
module Values {
  import opened Wrappers

  /** A PHP value, without floats and objects; arrays are lists. */
  datatype Value = Null | Bool(b: bool) | Int(i: int) | Str(s: string) | Arr(elems: seq<Value>)

  /** The range of a 64-bit PHP integer. */
  const PHP_INT_MAX: int := 0x7FFF_FFFF_FFFF_FFFF
  const PHP_INT_MIN: int := -0x8000_0000_0000_0000

  /** PHP's conversion to bool: what `if ($x)` tests and `empty($x)` negates. */
  predicate Truthy(v: Value) {
    match v
    case Null => false
    case Bool(b) => b
    case Int(i) => i != 0
    case Str(s) => s != "" && s != "0"
    case Arr(xs) => |xs| > 0
  }

  /** Laravel's `array_get($array, $key)` on a key without dots: the entry, or null. */
  function Lookup(params: map<string, Value>, key: string): (r: Value)
    ensures key !in params ==> r == Null
    ensures key in params ==> r == params[key]
  {
    if key in params then params[key] else Null
  }

  // ---------------------------------------------------------------------
  // trim() and blank()
  // ---------------------------------------------------------------------

  /** The characters PHP's `trim` strips by default: " \t\n\r\0\x0B". */
  predicate IsTrimChar(c: char) {
    c == ' ' || c == '\t' || c == '\n' || c == '\r' || c == '\0' || c == '\U{000B}'
  }

  predicate AllTrimChars(s: string) {
    forall i :: 0 <= i < |s| ==> IsTrimChar(s[i])
  }

  function TrimLeft(s: string): (r: string)
    ensures r != [] ==> !IsTrimChar(r[0])
    ensures r == [] <==> AllTrimChars(s)
  {
    if s != [] && IsTrimChar(s[0]) then TrimLeft(s[1..]) else s
  }

  function TrimRight(s: string): (r: string)
    ensures |r| <= |s| && r == s[..|r|]
    ensures r == [] <==> AllTrimChars(s)
  {
    if s != [] && IsTrimChar(s[|s| - 1]) then TrimRight(s[..|s| - 1]) else s
  }

  /** PHP's `trim($s)` with the default character list. */
  function Trim(s: string): string {
    TrimRight(TrimLeft(s))
  }

  /** A string trims to "" exactly when every character of it is one that trim strips. */
  lemma TrimEmptyIff(s: string)
    ensures Trim(s) == "" <==> AllTrimChars(s)
  {
    var t := TrimLeft(s);
    if t != [] {
      assert !IsTrimChar(t[0]);
      assert !AllTrimChars(t);
    }
  }

  /**
   * Laravel's `blank($value)`: null, a string that trims to "", or an
   * empty array; never a number or a boolean.
   */
  predicate Blank(v: Value) {
    match v
    case Null => true
    case Str(s) => Trim(s) == ""
    case Int(_) => false
    case Bool(_) => false
    case Arr(xs) => |xs| == 0
  }

  /** blank() and PHP's falsiness are different predicates: each holds where the other does not. */
  lemma BlankAndFalsyDiffer()
    ensures !Blank(Int(0)) && !Truthy(Int(0))
    ensures !Blank(Str("0")) && !Truthy(Str("0"))
    ensures !Blank(Bool(false)) && !Truthy(Bool(false))
    ensures Blank(Str(" ")) && Truthy(Str(" "))
  {
    assert Trim("0") == "0";
    assert TrimLeft(" ") == "";
  }

  /** On null and arrays the two predicates agree; a blank value is never truthy unless it is a whitespace string. */
  lemma BlankVersusFalsy(v: Value)
    ensures v.Null? || v.Arr? ==> (Blank(v) <==> !Truthy(v))
    ensures Blank(v) && Truthy(v) ==> v.Str? && |v.s| > 0 && AllTrimChars(v.s)
  {
    if v.Str? { TrimEmptyIff(v.s); }
  }

  // ---------------------------------------------------------------------
  // array_filter() and isActive()
  // ---------------------------------------------------------------------

  /** PHP's `array_filter($xs)` without a callback: the truthy elements, in order. */
  function ArrayFilter(xs: seq<Value>): (r: seq<Value>)
    ensures |r| <= |xs|
    ensures forall x :: x in r <==> x in xs && Truthy(x)
  {
    if xs == [] then []
    else if Truthy(xs[0]) then [xs[0]] + ArrayFilter(xs[1..])
    else ArrayFilter(xs[1..])
  }

  /**
   * The activity test of a filter's value: an array is active when
   * `array_filter` keeps something of it, anything else when it is not blank.
   */
  predicate Active(v: Value) {
    if v.Arr? then |ArrayFilter(v.elems)| > 0 else !Blank(v)
  }

  /** Active, stated without array_filter. */
  lemma ActiveIff(v: Value)
    ensures v.Arr? ==> (Active(v) <==> exists i :: 0 <= i < |v.elems| && Truthy(v.elems[i]))
    ensures !v.Arr? ==> (Active(v) <==> !Blank(v))
  {
    if v.Arr? {
      var r := ArrayFilter(v.elems);
      if |r| > 0 {
        assert r[0] in r;
        var i :| 0 <= i < |v.elems| && v.elems[i] == r[0];
      }
      if exists i :: 0 <= i < |v.elems| && Truthy(v.elems[i]) {
        var i :| 0 <= i < |v.elems| && Truthy(v.elems[i]);
        assert v.elems[i] in r;
      }
    }
  }

  /** An active value is never blank, but a non-blank array of falsy elements is inactive. */
  lemma ActiveNotBlank(v: Value)
    ensures Active(v) ==> !Blank(v)
    ensures !Active(Arr([Int(0)])) && !Blank(Arr([Int(0)]))
  {
    assert ArrayFilter([Int(0)]) == [];
  }

  /** Which of these values the code treats as active. */
  lemma ActiveExamples()
    ensures !Active(Null) && !Active(Str("")) && !Active(Str(" \t")) && !Active(Arr([]))
    ensures !Active(Arr([Str(""), Null])) && !Active(Arr([Int(0), Str("")]))
    ensures Active(Str("x")) && Active(Arr([Str(""), Str("y")]))
    ensures Active(Int(0)) && Active(Str("0")) && Active(Bool(false))
  {
    assert TrimLeft(" \t") == "";
    assert TrimLeft("x") == "x";
    assert TrimLeft("0") == "0";
    assert ArrayFilter([Str(""), Null]) == [];
    assert ArrayFilter([Int(0), Str("")]) == [];
    assert ArrayFilter([Str(""), Str("y")]) == [Str("y")];
  }

  // ---------------------------------------------------------------------
  // Decimal notation, (int) and (string)
  // ---------------------------------------------------------------------

  predicate IsDigit(c: char) { '0' <= c <= '9' }

  predicate AllDigits(s: string) { forall i :: 0 <= i < |s| ==> IsDigit(s[i]) }

  function DigitChar(d: nat): (c: char)
    requires d < 10
    ensures IsDigit(c)
  {
    ('0' as int + d) as char
  }

  function DigitValue(c: char): (d: nat)
    requires IsDigit(c)
    ensures d < 10
  {
    c as int - '0' as int
  }

  /** The decimal notation of a natural number, without leading zeros. */
  function NatToDecimal(n: nat): (r: string)
    ensures |r| >= 1 && AllDigits(r)
    ensures r[0] == '0' ==> n == 0
  {
    if n < 10 then [DigitChar(n)] else NatToDecimal(n / 10) + [DigitChar(n % 10)]
  }

  /** The number a string of digits denotes. */
  function DecimalValue(ds: string): nat
    requires AllDigits(ds)
  {
    if ds == [] then 0 else DecimalValue(ds[..|ds| - 1]) * 10 + DigitValue(ds[|ds| - 1])
  }

  lemma {:induction false} DecimalRoundTrip(n: nat)
    ensures DecimalValue(NatToDecimal(n)) == n
  {
    if n >= 10 {
      var ds := NatToDecimal(n);
      assert ds[..|ds| - 1] == NatToDecimal(n / 10);
      DecimalRoundTrip(n / 10);
    }
  }

  /** The longest prefix of `s` made of digits. */
  function LeadingDigits(s: string): (r: string)
    ensures AllDigits(r) && |r| <= |s| && r == s[..|r|]
    ensures |r| < |s| ==> !IsDigit(s[|r|])
  {
    if s != [] && IsDigit(s[0]) then [s[0]] + LeadingDigits(s[1..]) else []
  }

  lemma {:induction false} LeadingDigitsOfDigits(s: string)
    requires AllDigits(s)
    ensures LeadingDigits(s) == s
  {
    if s != [] { LeadingDigitsOfDigits(s[1..]); }
  }

  /** The white space PHP skips before a numeric string: " \t\n\r\v\f". */
  predicate IsNumericSpace(c: char) {
    c == ' ' || c == '\t' || c == '\n' || c == '\r' || c == '\U{000B}' || c == '\U{000C}'
  }

  function SkipNumericSpace(s: string): (r: string)
    ensures r != [] ==> !IsNumericSpace(r[0])
  {
    if s != [] && IsNumericSpace(s[0]) then SkipNumericSpace(s[1..]) else s
  }

  /** A 64-bit PHP integer: conversions from strings saturate at the ends of the range. */
  function Clamp(n: int): (r: int)
    ensures PHP_INT_MIN <= r <= PHP_INT_MAX
    ensures PHP_INT_MIN <= n <= PHP_INT_MAX ==> r == n
    ensures n < PHP_INT_MIN ==> r == PHP_INT_MIN
    ensures n > PHP_INT_MAX ==> r == PHP_INT_MAX
  {
    if n < PHP_INT_MIN then PHP_INT_MIN else if n > PHP_INT_MAX then PHP_INT_MAX else n
  }

  /**
   * `(int)$s` on a string: leading white space, an optional sign and the
   * longest run of digits after it; 0 when there are none.
   */
  function StrToInt(s: string): (r: int)
    ensures PHP_INT_MIN <= r <= PHP_INT_MAX
  {
    var t := SkipNumericSpace(s);
    if t != [] && (t[0] == '-' || t[0] == '+') then
      var m: int := DecimalValue(LeadingDigits(t[1..]));
      Clamp(if t[0] == '-' then -m else m)
    else
      Clamp(DecimalValue(LeadingDigits(t)))
  }

  /** `(string)$i` on an integer. */
  function IntToDecimal(i: int): (r: string)
    ensures |r| >= 1 && (r[0] == '-' || IsDigit(r[0]))
  {
    if i < 0 then "-" + NatToDecimal(-i) else NatToDecimal(i)
  }

  /** Printing an integer and reading it back gives the integer. */
  lemma IntDecimalRoundTrip(i: int)
    requires PHP_INT_MIN <= i <= PHP_INT_MAX
    ensures StrToInt(IntToDecimal(i)) == i
  {
    var n: nat := if i < 0 then -i else i;
    var ds := NatToDecimal(n);
    DecimalRoundTrip(n);
    LeadingDigitsOfDigits(ds);
    if i < 0 {
      assert SkipNumericSpace("-" + ds) == "-" + ds;
      assert ("-" + ds)[1..] == ds;
    } else {
      assert SkipNumericSpace(ds) == ds;
    }
  }

  /** `(int)$v`. */
  function ToInt(v: Value): int {
    match v
    case Null => 0
    case Bool(b) => if b then 1 else 0
    case Int(i) => i
    case Str(s) => StrToInt(s)
    case Arr(xs) => if |xs| == 0 then 0 else 1
  }

  /** `(string)$v`; an array converts to "Array" (with a PHP warning). */
  function ToStr(v: Value): string {
    match v
    case Null => ""
    case Bool(b) => if b then "1" else ""
    case Int(i) => IntToDecimal(i)
    case Str(s) => s
    case Arr(_) => "Array"
  }

  // ---------------------------------------------------------------------
  // Cast policy
  // ---------------------------------------------------------------------

  /** The cast names that request an integer, and those that request a string. */
  const INT_CASTS: seq<string> := ["int", "integer"]
  const STR_CASTS: seq<string> := ["str", "string"]

  /**
   * PHP's loose `$v == $t` for a string `t` that is not numeric, as the
   * cast names are: null compares as "", a bool compares with the
   * string's truth value, an integer compares as its decimal string.
   */
  predicate LooseEquals(v: Value, t: string) {
    match v
    case Null => t == ""
    case Bool(b) => b == Truthy(Str(t))
    case Int(i) => IntToDecimal(i) == t
    case Str(s) => s == t
    case Arr(_) => false
  }

  /**
   * The same comparison as PHP 7 makes it: an integer and a non-numeric
   * string compare as numbers, and the string converts to 0.
   */
  predicate LooseEqualsBefore8(v: Value, t: string) {
    match v
    case Int(i) => i == 0
    case _ => LooseEquals(v, t)
  }

  /** A cast name starts with a letter. */
  predicate IsCastName(t: string) {
    |t| > 0 && 'a' <= t[0] <= 'z'
  }

  /**
   * For a value that is null or truthy, as a recorded cast always is, the
   * PHP 7 and the PHP 8 loose comparison with a cast name agree.
   */
  lemma LooseComparisonVersionsAgree(v: Value, t: string)
    requires v == Null || Truthy(v)
    requires IsCastName(t)
    ensures LooseEqualsBefore8(v, t) <==> LooseEquals(v, t)
  {
    if v.Int? {
      var r := IntToDecimal(v.i);
      assert r[0] != t[0];
    }
  }

  /** `in_array($v, $names)` with its default loose comparison. */
  predicate InArray(v: Value, names: seq<string>) {
    exists k :: 0 <= k < |names| && LooseEquals(v, names[k])
  }

  /**
   * The value `prepareCast` leaves: a non-blank value is converted to an
   * integer when the cast names an integer, and then (a non-blank value)
   * to a string when the cast names a string.
   */
  function Cast(v: Value, cast: Value): Value {
    var v1 := if !Blank(v) && InArray(cast, INT_CASTS) then Int(ToInt(v)) else v;
    if !Blank(v1) && InArray(cast, STR_CASTS) then Str(ToStr(v1)) else v1
  }

  /** A non-blank value under an integer cast becomes an integer. */
  lemma CastToInt(v: Value, name: string)
    requires name in INT_CASTS && !Blank(v)
    ensures Cast(v, Str(name)) == Int(ToInt(v))
  {
    assert !InArray(Str(name), STR_CASTS);
  }

  /** A non-blank value under a string cast becomes a string. */
  lemma CastToStr(v: Value, name: string)
    requires name in STR_CASTS && !Blank(v)
    ensures Cast(v, Str(name)) == Str(ToStr(v))
  {
    assert !InArray(Str(name), INT_CASTS);
  }

  /** A blank value is never cast; no cast (null) or an unknown cast name changes nothing. */
  lemma CastLeavesAlone(v: Value, cast: Value)
    requires Blank(v) || cast == Null || (cast.Str? && cast.s !in INT_CASTS + STR_CASTS)
    ensures Cast(v, cast) == v
  {
    if cast.Str? && cast.s !in INT_CASTS + STR_CASTS {
      assert !InArray(cast, INT_CASTS) && !InArray(cast, STR_CASTS);
    }
  }

  /** PHP's loose comparison lets `true` match every cast name: the value ends up a string of an integer. */
  lemma CastTrueConvertsTwice(v: Value)
    requires !Blank(v)
    ensures Cast(v, Bool(true)) == Str(IntToDecimal(ToInt(v)))
  {
    assert LooseEquals(Bool(true), INT_CASTS[0]);
    assert LooseEquals(Bool(true), STR_CASTS[0]);
  }

  /** The result of a cast has the type the policy names. */
  lemma CastTypeMatches(v: Value, cast: Value)
    requires !Blank(v)
    ensures InArray(cast, STR_CASTS) ==> Cast(v, cast).Str?
    ensures InArray(cast, INT_CASTS) && !InArray(cast, STR_CASTS) ==> Cast(v, cast).Int?
  {
  }

  /** Casting "42" under the integer policy yields the integer 42. */
  lemma CastFortyTwo()
    ensures Cast(Str("42"), Str("int")) == Int(42)
  {
    assert TrimLeft("42") == "42";
    CastToInt(Str("42"), "int");
    IntDecimalRoundTrip(42);
    assert IntToDecimal(42) == "42";
  }

  /** The decimal string of any 64-bit natural number casts to that number under `int`. */
  lemma CastDecimalToInt(n: nat)
    requires n <= PHP_INT_MAX
    ensures Cast(Str(NatToDecimal(n)), Str("int")) == Int(n)
  {
    var ds := NatToDecimal(n);
    assert ds[0] != ' ' && !IsTrimChar(ds[0]);
    CastToInt(Str(ds), "int");
    IntDecimalRoundTrip(n);
  }

  /** Values that stay within PHP's integer range. */
  predicate InRange(v: Value) {
    v.Int? ==> PHP_INT_MIN <= v.i <= PHP_INT_MAX
  }

  /** Casting a second time changes nothing: the cast is stable once applied. */
  lemma CastIdempotent(v: Value, cast: Value)
    requires InRange(v)
    ensures Cast(Cast(v, cast), cast) == Cast(v, cast)
  {
    var isInt, isStr := InArray(cast, INT_CASTS), InArray(cast, STR_CASTS);
    if Blank(v) || (!isInt && !isStr) {
    } else if isInt && !isStr {
    } else if !isInt && isStr {
      var s := ToStr(v);
      if Blank(Str(s)) {
      } else {
        assert ToStr(Str(s)) == s;
      }
    } else {
      var k := ToInt(v);
      assert PHP_INT_MIN <= k <= PHP_INT_MAX by {
        if v.Str? { }
      }
      var s := IntToDecimal(k);
      assert Cast(v, cast) == Str(s);
      assert !Blank(Str(s)) by {
        assert !IsTrimChar(s[0]);
        assert !AllTrimChars(s);
        TrimEmptyIff(s);
      }
      IntDecimalRoundTrip(k);
      assert ToInt(Str(s)) == k;
    }
  }
}
