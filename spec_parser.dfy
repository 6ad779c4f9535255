/**
 * The filter specification string `type|key:value|key:a,b` that
 * `Filter::make` takes apart, and the class name it derives from the type.
 */
module SpecParser {
  import opened Wrappers
  import opened Values

  // ---------------------------------------------------------------------
  // explode() and implode()
  // ---------------------------------------------------------------------

  /** PHP's `explode($sep, $s)` without a limit: the pieces between the separators. */
  function Explode(sep: char, s: string): (pieces: seq<string>)
    ensures |pieces| >= 1
    ensures forall i :: 0 <= i < |pieces| ==> sep !in pieces[i]
    ensures sep !in s <==> pieces == [s]
    ensures sep in s <==> |pieces| >= 2
  {
    if s == [] then [""]
    else
      var rest := Explode(sep, s[1..]);
      if s[0] == sep then [""] + rest
      else
        assert [s[0]] + s[1..] == s;
        [[s[0]] + rest[0]] + rest[1..]
  }

  /** PHP's `implode($sep, $pieces)`. */
  function Join(sep: char, pieces: seq<string>): string
    requires |pieces| >= 1
  {
    if |pieces| == 1 then pieces[0] else pieces[0] + [sep] + Join(sep, pieces[1..])
  }

  /** Joining the pieces of a string gives the string back. */
  lemma {:induction false} JoinExplode(sep: char, s: string)
    ensures Join(sep, Explode(sep, s)) == s
  {
    if s != [] {
      var rest := Explode(sep, s[1..]);
      JoinExplode(sep, s[1..]);
      if s[0] == sep {
        assert Explode(sep, s) == [""] + rest;
        assert ([""] + rest)[1..] == rest;
      } else {
        var pieces := Explode(sep, s);
        assert pieces == [[s[0]] + rest[0]] + rest[1..];
        if |rest| > 1 {
          assert pieces[1..] == rest[1..];
        }
        assert s == [s[0]] + s[1..];
      }
    }
  }

  /** Splitting at a first separator that follows a separator-free prefix. */
  lemma {:induction false} ExplodeCons(sep: char, p: string, t: string)
    requires sep !in p
    ensures Explode(sep, p + [sep] + t) == [p] + Explode(sep, t)
  {
    var s := p + [sep] + t;
    if p == [] {
      assert s[1..] == t;
    } else {
      assert s[1..] == p[1..] + [sep] + t;
      ExplodeCons(sep, p[1..], t);
      assert [p[0]] + p[1..] == p;
    }
  }

  /** Splitting joined pieces that hold no separator gives the pieces back. */
  lemma {:induction false} ExplodeJoin(sep: char, pieces: seq<string>)
    requires |pieces| >= 1
    requires forall i :: 0 <= i < |pieces| ==> sep !in pieces[i]
    ensures Explode(sep, Join(sep, pieces)) == pieces
  {
    if |pieces| > 1 {
      ExplodeJoin(sep, pieces[1..]);
      ExplodeCons(sep, pieces[0], Join(sep, pieces[1..]));
      assert [pieces[0]] + pieces[1..] == pieces;
    }
  }

  /** The index of the first occurrence of `sep` in `s`. */
  function FirstIndex(sep: char, s: string): (i: nat)
    requires sep in s
    ensures i < |s| && s[i] == sep && sep !in s[..i]
  {
    if s[0] == sep then 0
    else
      var j := FirstIndex(sep, s[1..]);
      assert s[..j + 1] == [s[0]] + s[1..][..j];
      1 + j
  }

  /**
   * `explode($sep, $s, 2)` splits at the first separator; its head is the
   * first piece of the unlimited explode and its tail splits into the rest.
   */
  lemma ExplodeLimitTwo(sep: char, s: string)
    requires sep in s
    ensures Explode(sep, s)[0] == s[..FirstIndex(sep, s)]
    ensures Explode(sep, s)[1..] == Explode(sep, s[FirstIndex(sep, s) + 1..])
  {
    var i := FirstIndex(sep, s);
    assert s == s[..i] + [sep] + s[i + 1..];
    ExplodeCons(sep, s[..i], s[i + 1..]);
  }

  // ---------------------------------------------------------------------
  // Parameter fragments
  // ---------------------------------------------------------------------

  /** A parameter fragment without the `:` between key and value. */
  datatype ParseError = MissingSeparator(fragment: string)

  function Strs(pieces: seq<string>): (r: seq<Value>)
    ensures |r| == |pieces|
    ensures forall i :: 0 <= i < |r| ==> r[i] == Str(pieces[i])
  {
    seq(|pieces|, i requires 0 <= i < |pieces| => Str(pieces[i]))
  }

  /** The value of a fragment: a list when it contains a comma, a string otherwise. */
  function FragmentValue(valueString: string): Value {
    if ',' in valueString then Arr(Strs(Explode(',', valueString))) else Str(valueString)
  }

  /** The texts of a list of strings. */
  function Texts(xs: seq<Value>): (r: seq<string>)
    requires forall i :: 0 <= i < |xs| ==> xs[i].Str?
    ensures |r| == |xs| && forall i :: 0 <= i < |xs| ==> r[i] == xs[i].s
  {
    seq(|xs|, i requires 0 <= i < |xs| => xs[i].s)
  }

  /**
   * A comma-holding value becomes a list of at least two comma-free
   * strings that join back to it; any other value stays that string.
   */
  lemma FragmentValueRoundTrip(valueString: string)
    ensures ',' !in valueString ==> FragmentValue(valueString) == Str(valueString)
    ensures ',' in valueString ==>
      var r := FragmentValue(valueString);
      && r.Arr? && |r.elems| >= 2
      && (forall i :: 0 <= i < |r.elems| ==> r.elems[i].Str? && ',' !in r.elems[i].s)
      && Join(',', Texts(r.elems)) == valueString
  {
    if ',' in valueString {
      var pieces := Explode(',', valueString);
      assert Texts(Strs(pieces)) == pieces;
      JoinExplode(',', valueString);
    }
  }

  /**
   * One `key:value` fragment. Only the first two `:`-pieces are used:
   * the key, and the value up to a second colon.
   */
  function ParseFragment(fragment: string): Result<(string, Value), ParseError> {
    var parts := Explode(':', fragment);
    if |parts| < 2 then Failure(MissingSeparator(fragment))
    else Success((parts[0], FragmentValue(parts[1])))
  }

  /** What a fragment binds: its key is the text before the first colon, its value the text up to the next one. */
  lemma ParseFragmentShape(fragment: string)
    ensures ':' !in fragment <==> ParseFragment(fragment) == Failure(MissingSeparator(fragment))
    ensures ':' in fragment ==>
      var i := FirstIndex(':', fragment);
      var rest := fragment[i + 1..];
      var value := if ':' in rest then rest[..FirstIndex(':', rest)] else rest;
      ParseFragment(fragment) == Success((fragment[..i], FragmentValue(value)))
  {
    if ':' in fragment {
      ExplodeLimitTwo(':', fragment);
      var i := FirstIndex(':', fragment);
      var rest := fragment[i + 1..];
      if ':' in rest {
        ExplodeLimitTwo(':', rest);
      }
    }
  }

  /** The parameters that fragments bind, in order, a later key overwriting an earlier one. */
  function ParamsOf(fragments: seq<string>): Result<map<string, Value>, ParseError>
    decreases |fragments|
  {
    if fragments == [] then Success(map[])
    else
      match ParamsOf(fragments[..|fragments| - 1])
      case Failure(e) => Failure(e)
      case Success(m) =>
        match ParseFragment(fragments[|fragments| - 1])
        case Failure(e) => Failure(e)
        case Success(kv) => Success(m[kv.0 := kv.1])
  }

  function FragmentKey(fragment: string): string {
    Explode(':', fragment)[0]
  }

  function FragmentBinding(fragment: string): Value
    requires ':' in fragment
  {
    FragmentValue(Explode(':', fragment)[1])
  }

  /** Once a prefix of the fragments fails, the whole list fails with the same error. */
  lemma {:induction false} ParamsOfFailurePersists(fragments: seq<string>, n: nat)
    requires n <= |fragments| && ParamsOf(fragments[..n]).Failure?
    ensures ParamsOf(fragments) == ParamsOf(fragments[..n])
    decreases |fragments| - n
  {
    if n < |fragments| {
      assert fragments[..n + 1][..n] == fragments[..n];
      ParamsOfFailurePersists(fragments, n + 1);
    } else {
      assert fragments[..n] == fragments;
    }
  }

  /** Parsing succeeds exactly when every fragment has a colon. */
  lemma {:induction false} ParamsOfSucceeds(fragments: seq<string>)
    ensures ParamsOf(fragments).Success? <==> forall i :: 0 <= i < |fragments| ==> ':' in fragments[i]
    decreases |fragments|
  {
    if fragments != [] {
      var init := fragments[..|fragments| - 1];
      ParamsOfSucceeds(init);
      assert forall i :: 0 <= i < |init| ==> init[i] == fragments[i];
    }
  }

  /** The error names the first fragment without a colon. */
  lemma {:induction false} ParamsOfFirstFailure(fragments: seq<string>, j: nat)
    requires j < |fragments| && ':' !in fragments[j]
    requires forall i :: 0 <= i < j ==> ':' in fragments[i]
    ensures ParamsOf(fragments) == Failure(MissingSeparator(fragments[j]))
  {
    var pre := fragments[..j];
    ParamsOfSucceeds(pre);
    var upTo := fragments[..j + 1];
    assert upTo[..j] == pre;
    assert ParamsOf(upTo) == Failure(MissingSeparator(fragments[j]));
    ParamsOfFailurePersists(fragments, j + 1);
  }

  /** The keys bound are exactly the keys of the fragments. */
  lemma {:induction false} ParamsOfKeys(fragments: seq<string>)
    requires ParamsOf(fragments).Success?
    ensures ParamsOf(fragments).value.Keys == set i | 0 <= i < |fragments| :: FragmentKey(fragments[i])
    decreases |fragments|
  {
    if fragments != [] {
      var init := fragments[..|fragments| - 1];
      ParamsOfKeys(init);
      assert forall i :: 0 <= i < |init| ==> init[i] == fragments[i];
      var last := |fragments| - 1;
      assert (set i | 0 <= i < |fragments| :: FragmentKey(fragments[i]))
          == (set i | 0 <= i < |init| :: FragmentKey(init[i])) + {FragmentKey(fragments[last])};
    }
  }

  /** A fragment whose key no later fragment repeats decides that key's value. */
  lemma {:induction false} ParamsOfLastWins(fragments: seq<string>, i: nat)
    requires ParamsOf(fragments).Success?
    requires i < |fragments|
    requires forall j :: i < j < |fragments| ==> FragmentKey(fragments[j]) != FragmentKey(fragments[i])
    ensures ':' in fragments[i]
    ensures FragmentKey(fragments[i]) in ParamsOf(fragments).value
    ensures ParamsOf(fragments).value[FragmentKey(fragments[i])] == FragmentBinding(fragments[i])
    decreases |fragments|
  {
    var last := |fragments| - 1;
    var init := fragments[..last];
    assert ParamsOf(init).Success?;
    assert ':' in fragments[last];
    if i < last {
      assert init[i] == fragments[i];
      ParamsOfLastWins(init, i);
    }
  }

  /**
   * The loop of `make` over the `|`-separated fragments: it fills the
   * parameter map one fragment at a time, and stops at the first fragment
   * without a colon.
   */
  method ParseParams(paramString: string) returns (r: Result<map<string, Value>, ParseError>)
    ensures r == ParamsOf(Explode('|', paramString))
  {
    var paramPairs := Explode('|', paramString);
    var params: map<string, Value> := map[];
    var n := 0;
    while n < |paramPairs|
      invariant n <= |paramPairs|
      invariant ParamsOf(paramPairs[..n]) == Success(params)
    {
      var param := paramPairs[n];
      var parts := Explode(':', param);
      assert paramPairs[..n + 1][..n] == paramPairs[..n];
      if |parts| < 2 {
        ParamsOfFailurePersists(paramPairs, n + 1);
        return Failure(MissingSeparator(param));
      }
      var key, valueString := parts[0], parts[1];
      params := params[key := FragmentValue(valueString)];
      n := n + 1;
    }
    assert paramPairs[..n] == paramPairs;
    return Success(params);
  }

  // ---------------------------------------------------------------------
  // The whole specification string
  // ---------------------------------------------------------------------

  /** A parsed specification: the filter type and its parameters. */
  datatype Parsed = Parsed(typeId: string, params: map<string, Value>)

  /**
   * The specification string: without `|` it is all type; otherwise the
   * type is the text before the first `|` and the rest are fragments.
   */
  function Parse(spec: string): Result<Parsed, ParseError> {
    if '|' !in spec then Success(Parsed(spec, map[]))
    else
      var i := FirstIndex('|', spec);
      match ParamsOf(Explode('|', spec[i + 1..]))
      case Failure(e) => Failure(e)
      case Success(m) => Success(Parsed(spec[..i], m))
  }

  /** Parse, stated with one unlimited explode: the type is the first piece and the fragments are the others. */
  lemma ParseShape(spec: string)
    ensures '|' !in spec ==> Parse(spec) == Success(Parsed(spec, map[]))
    ensures '|' in spec ==>
      var pieces := Explode('|', spec);
      && |pieces| >= 2
      && '|' !in pieces[0]
      && (Parse(spec).Success? <==> ParamsOf(pieces[1..]).Success?)
      && (Parse(spec).Success? ==> Parse(spec) == Success(Parsed(pieces[0], ParamsOf(pieces[1..]).value)))
      && (Parse(spec).Failure? ==> Parse(spec).error == ParamsOf(pieces[1..]).error)
  {
    if '|' in spec {
      ExplodeLimitTwo('|', spec);
    }
  }

  /** The first separator after a separator-free prefix is at the prefix's end. */
  lemma FirstIndexAfter(sep: char, t: string, rest: string)
    requires sep !in t
    ensures FirstIndex(sep, t + [sep] + rest) == |t|
  {
    var spec := t + [sep] + rest;
    assert spec[..|t|] == t;
    FirstIndexAt(sep, spec, |t|);
  }

  /** FirstIndex finds the separator that has none before it. */
  lemma {:induction false} FirstIndexAt(sep: char, s: string, k: nat)
    requires k < |s| && s[k] == sep && sep !in s[..k]
    ensures FirstIndex(sep, s) == k
  {
    if s[0] != sep {
      assert s[1..][..k - 1] == s[..k][1..];
      FirstIndexAt(sep, s[1..], k - 1);
    }
  }

  /** A fragment `key:value` with no further colon binds the key to the value. */
  lemma ParseFragmentOf(key: string, valueString: string)
    requires ':' !in key && ':' !in valueString
    ensures ParseFragment(key + [':'] + valueString) == Success((key, FragmentValue(valueString)))
  {
    ExplodeCons(':', key, valueString);
  }

  /** A value `a,b` becomes the list of its two pieces. */
  lemma ListValueOf(a: string, b: string)
    requires ',' !in a && ',' !in b
    ensures FragmentValue(a + [','] + b) == Arr([Str(a), Str(b)])
  {
    ExplodeCons(',', a, b);
    assert Strs([a, b]) == [Str(a), Str(b)];
  }

  /** Two fragments bind their keys in order, the second overwriting the first on the same key. */
  lemma ParamsOfTwo(f1: string, f2: string)
    requires ParseFragment(f1).Success? && ParseFragment(f2).Success?
    ensures var kv1, kv2 := ParseFragment(f1).value, ParseFragment(f2).value;
      ParamsOf([f1, f2]) == Success(map[kv1.0 := kv1.1][kv2.0 := kv2.1])
  {
    var fragments := [f1, f2];
    var kv1, kv2 := ParseFragment(f1).value, ParseFragment(f2).value;
    assert [f1][..0] == [];
    assert ParamsOf([f1]) == Success(map[][kv1.0 := kv1.1]);
    assert fragments[..1] == [f1];
    assert map[][kv1.0 := kv1.1] == map[kv1.0 := kv1.1];
  }

  /** Every specification of the shape `t|k1:v1|k2:a,b` parses to type t, a scalar k1 and a list k2. */
  lemma ParseTwoParams(t: string, k1: string, v1: string, k2: string, a: string, b: string)
    requires '|' !in t && '|' !in k1 && '|' !in v1 && '|' !in k2 && '|' !in a && '|' !in b
    requires ':' !in k1 && ':' !in v1 && ':' !in k2 && ':' !in a && ':' !in b
    requires ',' !in v1 && ',' !in a && ',' !in b
    ensures Parse(t + ['|'] + k1 + [':'] + v1 + ['|'] + k2 + [':'] + a + [','] + b)
         == Success(Parsed(t, map[k1 := Str(v1), k2 := Arr([Str(a), Str(b)])]))
  {
    var ab := a + [','] + b;
    var f1 := k1 + [':'] + v1;
    var f2 := k2 + [':'] + ab;
    var rest := f1 + ['|'] + f2;
    var spec := t + ['|'] + rest;
    assert spec == t + ['|'] + k1 + [':'] + v1 + ['|'] + k2 + [':'] + a + [','] + b;
    FirstIndexAfter('|', t, rest);
    assert spec[..|t|] == t && spec[|t| + 1..] == rest;
    ExplodeCons('|', f1, f2);
    assert Explode('|', rest) == [f1, f2];
    ParseFragmentOf(k1, v1);
    ParseFragmentOf(k2, ab);
    ListValueOf(a, b);
    ParamsOfTwo(f1, f2);
  }

  /** Every specification of the shape `t|k1:v1|k2:v2` parses to type t with two scalar parameters. */
  lemma ParseTwoScalars(t: string, k1: string, v1: string, k2: string, v2: string)
    requires '|' !in t && '|' !in k1 && '|' !in v1 && '|' !in k2 && '|' !in v2
    requires ':' !in k1 && ':' !in v1 && ':' !in k2 && ':' !in v2
    requires ',' !in v1 && ',' !in v2
    ensures Parse(t + ['|'] + k1 + [':'] + v1 + ['|'] + k2 + [':'] + v2)
         == Success(Parsed(t, map[k1 := Str(v1), k2 := Str(v2)]))
  {
    var f1 := k1 + [':'] + v1;
    var f2 := k2 + [':'] + v2;
    var rest := f1 + ['|'] + f2;
    var spec := t + ['|'] + rest;
    assert spec == t + ['|'] + k1 + [':'] + v1 + ['|'] + k2 + [':'] + v2;
    FirstIndexAfter('|', t, rest);
    assert spec[..|t|] == t && spec[|t| + 1..] == rest;
    ExplodeCons('|', f1, f2);
    assert Explode('|', rest) == [f1, f2];
    ParseFragmentOf(k1, v1);
    ParseFragmentOf(k2, v2);
    ParamsOfTwo(f1, f2);
  }

  // ---------------------------------------------------------------------
  // Class-name derivation
  // ---------------------------------------------------------------------

  /** The namespace of the concrete filter classes. */
  const FILTER_NAMESPACE: string := "Merkeleon\\Table\\Filter\\"

  predicate IsLower(c: char) { 'a' <= c <= 'z' }
  predicate IsUpper(c: char) { 'A' <= c <= 'Z' }

  function Upper(c: char): (r: char)
    ensures !IsLower(r)
  {
    if IsLower(c) then (c as int - 32) as char else c
  }

  function Lower(c: char): char {
    if IsUpper(c) then (c as int + 32) as char else c
  }

  /** `-`, `_` and space separate words and are dropped from the studly form. */
  predicate IsWordSeparator(c: char) { c == '-' || c == '_' || c == ' ' }

  /** The other characters after which `ucwords` starts a word: "\t\r\n\f\v". */
  predicate IsOtherWordDelimiter(c: char) {
    c == '\t' || c == '\r' || c == '\n' || c == '\U{000C}' || c == '\U{000B}'
  }

  /**
   * Laravel's `studly_case`: `-` and `_` become spaces, `ucwords`
   * capitalises the first letter of each word, and the spaces are removed.
   */
  function StudlyFrom(s: string, atWordStart: bool): (r: string)
    ensures forall i :: 0 <= i < |r| ==> !IsWordSeparator(r[i])
    ensures atWordStart && r != [] ==> !IsLower(r[0])
  {
    if s == [] then []
    else if IsWordSeparator(s[0]) then StudlyFrom(s[1..], true)
    else if IsOtherWordDelimiter(s[0]) then [s[0]] + StudlyFrom(s[1..], true)
    else [if atWordStart then Upper(s[0]) else s[0]] + StudlyFrom(s[1..], false)
  }

  function Studly(s: string): string {
    StudlyFrom(s, true)
  }

  function LcFirst(s: string): string {
    if s == [] then s else [Lower(s[0])] + s[1..]
  }

  function UcFirst(s: string): string {
    if s == [] then s else [Upper(s[0])] + s[1..]
  }

  /** Laravel's `camel_case`: the studly form with a lower-case first letter. */
  function CamelCase(s: string): string {
    LcFirst(Studly(s))
  }

  /** `'Merkeleon\Table\Filter\' . ucfirst(camel_case($type . 'Filter'))`. */
  function ClassName(typeId: string): string {
    FILTER_NAMESPACE + UcFirst(CamelCase(typeId + "Filter"))
  }

  /** The suffix "Filter" is already in studly form. */
  lemma StudlyOfFilter(atWordStart: bool)
    ensures StudlyFrom("Filter", atWordStart) == "Filter"
  {
    var tail := "ilter";
    assert forall i :: 0 <= i < |tail| ==> IsLower(tail[i]);
    StudlyOfLowerWord(tail);
    assert "Filter"[1..] == tail;
    assert ['F'] + tail == "Filter";
  }

  lemma {:induction false} StudlyAppendFilter(s: string, atWordStart: bool)
    ensures StudlyFrom(s + "Filter", atWordStart) == StudlyFrom(s, atWordStart) + "Filter"
  {
    if s == [] {
      assert s + "Filter" == "Filter";
      StudlyOfFilter(atWordStart);
    } else {
      assert (s + "Filter")[1..] == s[1..] + "Filter";
      StudlyAppendFilter(s[1..], false);
      StudlyAppendFilter(s[1..], true);
    }
  }

  /**
   * The class name is the namespace, the studly form of the type and the
   * suffix "Filter": ucfirst undoes the lcfirst of camel_case.
   */
  lemma ClassNameShape(typeId: string)
    ensures ClassName(typeId) == FILTER_NAMESPACE + Studly(typeId) + "Filter"
    ensures forall i :: 0 <= i < |Studly(typeId)| ==> !IsWordSeparator(Studly(typeId)[i])
  {
    StudlyAppendFilter(typeId, true);
    var st := Studly(typeId + "Filter");
    assert st != [];
    assert UcFirst(LcFirst(st)) == st;
  }

  /** A type `w1_w2` of two lower-case words names the class `W1W2Filter`, as `date_range` names `DateRangeFilter`. */
  lemma ClassNameOfTwoWords(w1: string, w2: string)
    requires |w1| > 0 && |w2| > 0
    requires forall i :: 0 <= i < |w1| ==> IsLower(w1[i])
    requires forall i :: 0 <= i < |w2| ==> IsLower(w2[i])
    ensures ClassName(w1 + ['_'] + w2)
         == FILTER_NAMESPACE + ([Upper(w1[0])] + w1[1..] + [Upper(w2[0])] + w2[1..]) + "Filter"
  {
    var t := w1 + ['_'] + w2;
    ClassNameShape(t);
    StudlyOfTwoWords(w1, w2);
    var st := Studly(t);
    assert ClassName(t) == FILTER_NAMESPACE + st + "Filter";
  }

  lemma StudlyOfTwoWords(w1: string, w2: string)
    requires |w1| > 0 && |w2| > 0
    requires forall i :: 0 <= i < |w1| ==> IsLower(w1[i])
    requires forall i :: 0 <= i < |w2| ==> IsLower(w2[i])
    ensures Studly(w1 + ['_'] + w2) == [Upper(w1[0])] + w1[1..] + [Upper(w2[0])] + w2[1..]
  {
    var tail := ['_'] + w2;
    var t := w1 + tail;
    assert t == w1 + ['_'] + w2;
    var second := [Upper(w2[0])] + w2[1..];
    assert StudlyFrom(w2, true) == second by {
      StudlyOfLowerWord(w2[1..]);
    }
    assert StudlyFrom(tail, false) == second by {
      assert tail[1..] == w2;
    }
    assert StudlyFrom(t[1..], false) == w1[1..] + second by {
      assert t[1..] == w1[1..] + tail;
      StudlyWordThen(w1[1..], tail);
    }
    assert t[0] == w1[0];
  }

  /** Lower-case letters inside a word pass through up to what follows them. */
  lemma {:induction false} StudlyWordThen(w: string, rest: string)
    requires forall i :: 0 <= i < |w| ==> IsLower(w[i])
    ensures StudlyFrom(w + rest, false) == w + StudlyFrom(rest, false)
  {
    if w != [] {
      var s := w + rest;
      assert s[0] == w[0] && s[1..] == w[1..] + rest;
      StudlyWordThen(w[1..], rest);
      assert StudlyFrom(s, false) == [w[0]] + StudlyFrom(s[1..], false);
      assert [w[0]] + (w[1..] + StudlyFrom(rest, false)) == w + StudlyFrom(rest, false);
    } else {
      assert w + rest == rest;
    }
  }

  /** Inside a word, lower-case letters are kept as they are. */
  lemma {:induction false} StudlyOfLowerWord(s: string)
    requires forall i :: 0 <= i < |s| ==> IsLower(s[i])
    ensures StudlyFrom(s, false) == s
  {
    if s != [] {
      StudlyOfLowerWord(s[1..]);
      assert [s[0]] + s[1..] == s;
    }
  }
}
