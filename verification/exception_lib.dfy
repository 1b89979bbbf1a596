/** `my_lib/exception_lib.py`: the HTTP error carrier and the two argument validators that
    raise `ValueError` with a message assembled from the offending parts. */
module ExceptionLib {
  import opened Text
  import opened Results
  import opened CheckType

  const ErrorInComputing: string := "Error in computing"

  /** `HTTPStatus.INTERNAL_SERVER_ERROR` */
  const InternalServerError: int := 500

  // ---------------------------------------------------------------------------------------
  // FlaskFatalError

  /** The exception object after `__init__`; the payload is `None` or a `dict` with string
      keys. */
  datatype FlaskFatalError = FlaskFatalError(message: Value, statusCode: Value,
                                             payload: Option<map<string, Value>>)

  /** `FlaskFatalError.__init__`: a falsy message or status code is replaced by the default,
      a truthy one is kept as given; so the stored message and status are always truthy. */
  function NewFlaskFatalError(message: Value, statusCode: Value,
                              payload: Option<map<string, Value>>): (e: FlaskFatalError)
    ensures Truthy(e.message) && Truthy(e.statusCode)
    ensures Truthy(message) ==> e.message == message
    ensures !Truthy(message) ==> e.message == Str(ErrorInComputing)
    ensures Truthy(statusCode) ==> e.statusCode == statusCode
    ensures !Truthy(statusCode) ==> e.statusCode == Int(InternalServerError)
    ensures e.payload == payload
  {
    FlaskFatalError(
      if !Truthy(message) then Str(ErrorInComputing) else message,
      if !Truthy(statusCode) then Int(InternalServerError) else statusCode,
      payload)
  }

  /** `to_dict`: the payload's entries plus `"message"`, which overrides a payload entry of
      the same name. */
  function ToDict(e: FlaskFatalError): (d: map<string, Value>)
    ensures "message" in d && d["message"] == e.message
    ensures forall k :: k in d && k != "message" ==> e.payload.Some? && k in e.payload.value
    ensures e.payload.Some? ==>
              forall k :: k in e.payload.value && k != "message" ==>
                k in d && d[k] == e.payload.value[k]
  {
    var rv := if e.payload.Some? then e.payload.value else map[];
    rv["message" := e.message]
  }

  // ---------------------------------------------------------------------------------------
  // check_str_blank_throw_exception

  /** `is_blank_str(param_name)` for a `param_name` that is `None` or a `str`. */
  predicate BlankParam(paramName: Option<string>) {
    paramName.None? || Blank(paramName.value)
  }

  /** `param_name and is_string(param_name)` */
  predicate HasParamName(paramName: Option<string>) {
    paramName.Some? && paramName.value != []
  }

  /** A list element the validator complains about: not a `str`, or a blank one. */
  predicate Offending(v: Value) {
    !IsString(v) || IsBlankStr(v)
  }

  /** The complaint about element `n`, named by `names[n]` when there is one; it is only
      built for an offending element. */
  function ItemMessage(v: Value, n: nat, names: seq<string>): string {
    if !IsString(v) then
      (if n < |names| then names[n] + " is not string or list" else "One parameter in list is not string")
    else
      (if n < |names| then names[n] + " parameter is blank" else "One parameter is blank")
  }

  /** The `for n, _ in enumerate(...)` loops of both validators: one complaint `g(x, i)` per
      element `x` that satisfies `f`, where `i` is its index and the first element of `s`
      has index `n`. */
  function Complaints<T>(s: seq<T>, n: nat, f: T -> bool, g: (T, nat) -> string): (msgs: seq<string>)
    ensures |msgs| <= |s|
    ensures msgs == [] <==> NoneOf(s, f)
    decreases |s|
  {
    if |s| == 0 then []
    else if f(s[0]) then [g(s[0], n)] + Complaints(s[1..], n + 1, f, g)
    else Complaints(s[1..], n + 1, f, g)
  }

  /** No element of `s` satisfies `f`. */
  predicate NoneOf<T>(s: seq<T>, f: T -> bool) {
    |s| == 0 || (!f(s[0]) && NoneOf(s[1..], f))
  }

  /** `NoneOf` is the element-wise statement. */
  lemma {:induction false} NoneOfAll<T>(s: seq<T>, f: T -> bool)
    ensures NoneOf(s, f) <==> forall k :: 0 <= k < |s| ==> !f(s[k])
    decreases |s|
  {
    if |s| > 0 {
      NoneOfAll(s[1..], f);
      assert forall k :: 1 <= k < |s| ==> s[k] == s[1..][k - 1];
    }
  }

  /** The indices of the elements of `s` that satisfy `f`, in increasing order, counting
      the first element of `s` as index `from`. */
  function Positions<T>(s: seq<T>, f: T -> bool, from: nat): (ps: seq<nat>)
    ensures |ps| <= |s|
    ensures forall k :: 0 <= k < |ps| ==> from <= ps[k] < from + |s|
    decreases |s|
  {
    if |s| == 0 then []
    else if f(s[0]) then [from] + Positions(s[1..], f, from + 1)
    else Positions(s[1..], f, from + 1)
  }

  /** Each position holds an element that satisfies `f`. */
  lemma {:induction false} PositionSatisfies<T>(s: seq<T>, f: T -> bool, from: nat, k: nat)
    requires k < |Positions(s, f, from)|
    ensures f(s[Positions(s, f, from)[k] - from])
    decreases |s|
  {
    var rest := s[1..];
    if f(s[0]) {
      if k > 0 {
        PositionSatisfies(rest, f, from + 1, k - 1);
        assert Positions(s, f, from)[k] == Positions(rest, f, from + 1)[k - 1];
      }
    } else {
      PositionSatisfies(rest, f, from + 1, k);
    }
  }

  /** The positions are strictly increasing. */
  lemma {:induction false} PositionsIncrease<T>(s: seq<T>, f: T -> bool, from: nat, j: nat, k: nat)
    requires j < k < |Positions(s, f, from)|
    ensures Positions(s, f, from)[j] < Positions(s, f, from)[k]
    decreases |s|
  {
    var rest := s[1..];
    if f(s[0]) {
      if j > 0 {
        PositionsIncrease(rest, f, from + 1, j - 1, k - 1);
      }
    } else {
      PositionsIncrease(rest, f, from + 1, j, k);
    }
  }

  /** Every element that satisfies `f` has its index among the positions. */
  lemma {:induction false} PositionsComplete<T>(s: seq<T>, f: T -> bool, from: nat, i: nat)
    requires i < |s| && f(s[i])
    ensures from + i in Positions(s, f, from)
    decreases |s|
  {
    if i > 0 {
      assert s[1..][i - 1] == s[i];
      PositionsComplete(s[1..], f, from + 1, i - 1);
    }
  }

  /** One complaint per position. */
  lemma {:induction false} ComplaintsLength<T>(s: seq<T>, n: nat, f: T -> bool, g: (T, nat) -> string)
    ensures |Complaints(s, n, f, g)| == |Positions(s, f, n)|
    decreases |s|
  {
    if |s| > 0 {
      ComplaintsLength(s[1..], n + 1, f, g);
    }
  }

  /** Complaint `k` is the one about the element at the `k`-th position. */
  lemma {:induction false} ComplaintAt<T>(s: seq<T>, n: nat, f: T -> bool, g: (T, nat) -> string, k: nat)
    requires k < |Positions(s, f, n)|
    ensures |Complaints(s, n, f, g)| == |Positions(s, f, n)|
    ensures Complaints(s, n, f, g)[k] == g(s[Positions(s, f, n)[k] - n], Positions(s, f, n)[k])
    decreases |s|
  {
    var rest := s[1..];
    ComplaintsLength(s, n, f, g);
    if f(s[0]) {
      if k > 0 {
        ComplaintAt(rest, n + 1, f, g, k - 1);
        var p := Positions(rest, f, n + 1)[k - 1];
        assert Positions(s, f, n)[k] == p;
        assert Complaints(s, n, f, g)[k] == Complaints(rest, n + 1, f, g)[k - 1];
        assert s[p - n] == rest[p - (n + 1)];
      }
    } else {
      ComplaintAt(rest, n + 1, f, g, k);
      var p := Positions(rest, f, n + 1)[k];
      assert s[p - n] == rest[p - (n + 1)];
    }
  }

  /** The positions of a whole list are exactly the indices of the elements satisfying `f`,
      in increasing order, and complaint `k` is about the element at position `k`: the loop
      neither reorders, drops nor invents complaints, and each one carries its element's
      own index. */
  lemma ComplaintsAtPositions<T>(s: seq<T>, f: T -> bool, g: (T, nat) -> string)
    ensures var ps := Positions(s, f, 0);
            && (forall k :: 0 <= k < |ps| ==> ps[k] < |s| && f(s[ps[k]]))
            && (forall j, k :: 0 <= j < k < |ps| ==> ps[j] < ps[k])
            && (forall i :: 0 <= i < |s| && f(s[i]) ==> i in ps)
            && |Complaints(s, 0, f, g)| == |ps|
            && (forall k :: 0 <= k < |ps| ==> Complaints(s, 0, f, g)[k] == g(s[ps[k]], ps[k]))
  {
    var ps := Positions(s, f, 0);
    ComplaintsLength(s, 0, f, g);
    forall k | 0 <= k < |ps| ensures f(s[ps[k]]) && Complaints(s, 0, f, g)[k] == g(s[ps[k]], ps[k]) {
      PositionSatisfies(s, f, 0, k);
      ComplaintAt(s, 0, f, g, k);
    }
    forall j, k | 0 <= j < k < |ps| ensures ps[j] < ps[k] {
      PositionsIncrease(s, f, 0, j, k);
    }
    forall i | 0 <= i < |s| && f(s[i]) ensures i in ps {
      PositionsComplete(s, f, 0, i);
    }
  }

  /** The complaints about `items`, whose first element is element `n` of the list. */
  function BlankMessages(items: seq<Value>, n: nat, names: seq<string>): (msgs: seq<string>)
    ensures msgs == [] <==> forall k :: 0 <= k < |items| ==> !Offending(items[k])
  {
    NoneOfAll(items, Offending);
    Complaints(items, n, Offending, (v: Value, i: nat) => ItemMessage(v, i, names))
  }

  /** `check_str_blank_throw_exception(s, param_name)` */
  function CheckStrBlank(s: Value, paramName: Option<string>): (r: Outcome)
    ensures r.Raise? <==>
              || (!IsString(s) && !IsList(s))
              || (IsString(s) && AllSpace(s.s))
              || (IsList(s) && !NoneOf(s.items, Offending))
    ensures IsList(s) && s.items == [] ==> r == Pass
  {
    if !IsString(s) && !IsList(s) then
      Raise(if BlankParam(paramName) then "This parameter is not string or list."
            else paramName.value + " is not string or list.")
    else if IsString(s) && IsBlankStr(s) then
      Raise(if BlankParam(paramName) then "This parameter is blank string."
            else paramName.value + " is blank string.")
    else if IsList(s) then
      var names := if HasParamName(paramName) then MapStrip(Split(paramName.value, ',')) else [];
      var msgs := BlankMessages(s.items, 0, names);
      if msgs != [] then Raise(Join(msgs, ", ")) else Pass
    else
      Pass
  }

  /** `list(map(lambda x: x.strip(), parts))` */
  function MapStrip(parts: seq<string>): (r: seq<string>)
    ensures |r| == |parts|
    ensures forall k :: 0 <= k < |parts| ==> r[k] == Strip(parts[k])
  {
    seq(|parts|, k requires 0 <= k < |parts| => Strip(parts[k]))
  }

  /** The names are the comma-separated entries of `param_name`, trimmed: none holds a
      comma or surrounding whitespace, and the untrimmed entries joined with commas give
      `param_name` back. */
  lemma ParamNames(paramName: string)
    ensures var entries := Split(paramName, ',');
            var names := MapStrip(entries);
            && Join(entries, ",") == paramName
            && |names| == |entries|
            && forall k :: 0 <= k < |names| ==>
                 Stripped(names[k]) && ',' !in names[k] && names[k] == Strip(entries[k])
  {
    var entries := Split(paramName, ',');
    JoinSplit(paramName, ',');
    forall k | 0 <= k < |entries| ensures ',' !in Strip(entries[k]) {
      StripWithin(entries[k], ',');
    }
  }

  /** For any list, the message names each offending element after the trimmed
      comma-separated `param_name` entry at the element's own index, joins the complaints
      with `", "`, and the list passes exactly when no element offends. */
  lemma CheckStrBlankNames(items: seq<Value>, paramName: string)
    ensures var names := if paramName != [] then MapStrip(Split(paramName, ',')) else [];
            var ps := Positions(items, Offending, 0);
            CheckStrBlank(List(items), Some(paramName))
            == if ps == [] then Pass
               else Raise(Join(seq(|ps|, k requires 0 <= k < |ps| => ItemMessage(items[ps[k]], ps[k], names)), ", "))
  {
    var names := if paramName != [] then MapStrip(Split(paramName, ',')) else [];
    ComplaintsAtPositions(items, Offending, (v: Value, i: nat) => ItemMessage(v, i, names));
    var ps := Positions(items, Offending, 0);
    assert BlankMessages(items, 0, names)
           == seq(|ps|, k requires 0 <= k < |ps| => ItemMessage(items[ps[k]], ps[k], names));
  }

  // ---------------------------------------------------------------------------------------
  // check_object_none_throw_exception

  /** `x is None` */
  predicate IsNone(v: Value) {
    v == PyNone
  }

  /** The complaints about the `None` elements of `items`, whose first element is element
      `n`; the names are the comma-split `param_name` entries, not stripped. */
  function NoneMessages(items: seq<Value>, n: nat, names: seq<string>): (msgs: seq<string>)
    ensures msgs == [] <==> PyNone !in items
  {
    NoneOfAll(items, IsNone);
    Complaints(items, n, IsNone, (v: Value, i: nat) => NoneMessage(i, names))
  }

  /** `check_object_none_throw_exception(obj, param_name)`: raises for `None` and for a
      list or set holding `None`; every other value passes. */
  function CheckObjectNone(obj: Value, paramName: Option<string>): (r: Outcome)
    ensures r.Raise? <==> obj == PyNone || (IsList(obj) && PyNone in obj.items)
  {
    if obj == PyNone then
      Raise(if BlankParam(paramName) then "This parameter is None." else paramName.value + " is None.")
    else if IsList(obj) then
      var names := if HasParamName(paramName) then Split(paramName.value, ',') else [];
      var msgs := NoneMessages(obj.items, 0, names);
      if msgs != [] then Raise(Join(msgs, ", ")) else Pass
    else
      Pass
  }

  /** The complaint about a `None` element at index `n`. */
  function NoneMessage(n: nat, names: seq<string>): string {
    if n < |names| then names[n] + " parameter is None." else "One parameter is None."
  }

  /** For any list, the message names each `None` element after the comma-separated
      `param_name` entry at the element's own index, which is not trimmed, and the list
      passes exactly when it holds no `None`. */
  lemma CheckObjectNoneNames(items: seq<Value>, paramName: string)
    ensures var names := if paramName != [] then Split(paramName, ',') else [];
            var ps := Positions(items, IsNone, 0);
            CheckObjectNone(List(items), Some(paramName))
            == if ps == [] then Pass
               else Raise(Join(seq(|ps|, k requires 0 <= k < |ps| => NoneMessage(ps[k], names)), ", "))
  {
    var names := if paramName != [] then Split(paramName, ',') else [];
    ComplaintsAtPositions(items, IsNone, (v: Value, i: nat) => NoneMessage(i, names));
    var ps := Positions(items, IsNone, 0);
    assert NoneMessages(items, 0, names) == seq(|ps|, k requires 0 <= k < |ps| => NoneMessage(ps[k], names));
  }
}
