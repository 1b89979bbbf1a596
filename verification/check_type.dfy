/** `my_lib/check_type.py`: run-time type tests over a dynamically typed value, the
    blank-string test and the CJK code-point test. */
module CheckType {
  import opened Text

  /** A Python value, as far as the library's predicates can tell values apart.
      A `set` carries its elements in the interpreter's iteration order. */
  datatype Value =
    | PyNone
    | Str(s: string)
    | List(items: seq<Value>)
    | Set(items: seq<Value>)
    | Dict(entries: map<string, Value>)
    | Int(i: int)
    | Other

  /** Python truthiness. `bool` is an `int` here; any other object is truthy, as objects
      without `__bool__`/`__len__` are. */
  predicate Truthy(v: Value) {
    match v
    case PyNone => false
    case Str(s) => s != []
    case List(items) => items != []
    case Set(items) => items != []
    case Dict(entries) => |entries| > 0
    case Int(i) => i != 0
    case Other => true
  }

  /** `is_string`: `isinstance(s, str)` */
  predicate IsString(v: Value) {
    v.Str?
  }

  /** `is_dict`: `isinstance(d, dict)` */
  predicate IsDict(v: Value) {
    v.Dict?
  }

  /** `is_list`: `isinstance(l, (list, set))` */
  predicate IsList(v: Value) {
    v.List? || v.Set?
  }

  /** `is_blank_str`: `None`, or a `str` that is empty or all whitespace. Every other value,
      including an empty list, is not blank. */
  function IsBlankStr(v: Value): (b: bool)
    ensures b <==> v == PyNone || (v.Str? && AllSpace(v.s))
  {
    v.PyNone? || (v.Str? && !(v.s != [] && Strip(v.s) != []))
  }

  /** The type tests partition the values they accept: no value is both a `str` and a
      `dict`, a `str` and a list or set, or a `dict` and a list or set. A blank value that
      is not `None` is a `str`, and no `dict`, list or set is blank. */
  lemma TypeTests(v: Value)
    ensures !(IsString(v) && IsDict(v)) && !(IsString(v) && IsList(v)) && !(IsDict(v) && IsList(v))
    ensures IsBlankStr(v) && v != PyNone ==> IsString(v)
    ensures IsDict(v) || IsList(v) ==> !IsBlankStr(v)
  {
  }

  /** The eight inclusive code-point ranges `is_cjk` accepts, in the order the source lists
      them. */
  const CjkRanges: seq<(int, int)> := [
    (4352, 4607), (11904, 42191), (43072, 43135), (44032, 55215),
    (63744, 64255), (65072, 65103), (65381, 65500), (131072, 196607)]

  /** `any(start <= x <= end for start, end in ranges)`, scanned left to right. */
  function AnyRange(x: int, ranges: seq<(int, int)>): (b: bool)
    ensures b <==> exists k :: 0 <= k < |ranges| && ranges[k].0 <= x <= ranges[k].1
  {
    if |ranges| == 0 then false
    else if ranges[0].0 <= x <= ranges[0].1 then true
    else
      var b := AnyRange(x, ranges[1..]);
      assert forall k :: 1 <= k < |ranges| ==> ranges[k] == ranges[1..][k - 1];
      b
  }

  /** `is_cjk` */
  function IsCjk(c: char): (b: bool)
    ensures b <==> (
      || 4352 <= c as int <= 4607
      || 11904 <= c as int <= 42191
      || 43072 <= c as int <= 43135
      || 44032 <= c as int <= 55215
      || 63744 <= c as int <= 64255
      || 65072 <= c as int <= 65103
      || 65381 <= c as int <= 65500
      || 131072 <= c as int <= 196607)
  {
    var b := AnyRange(c as int, CjkRanges);
    assert CjkRanges[0] == (4352, 4607) && CjkRanges[1] == (11904, 42191);
    assert CjkRanges[2] == (43072, 43135) && CjkRanges[3] == (44032, 55215);
    assert CjkRanges[4] == (63744, 64255) && CjkRanges[5] == (65072, 65103);
    assert CjkRanges[6] == (65381, 65500) && CjkRanges[7] == (131072, 196607);
    b
  }

  /** The two examples of the function's doc comment. */
  lemma CjkDocExamples()
    ensures IsCjk('\U{33FE}')
    ensures !IsCjk('\U{FE5F}')
  {
  }
}
