/** The slice of Python's `str` API the library relies on: `strip`, `rstrip(chars)`,
    `isdigit`, `int`, `%d`, `ljust`/`rjust`, `find`, `split` and `join`.

    Only ASCII is modelled: whitespace is what `str.isspace` accepts below 128 and a digit is
    `0`..`9`; the Unicode whitespace and digit classes Python also accepts are left out. */
module Text {

  /** `str.isspace` on ASCII: space, the controls 0x09..0x0D and the separators 0x1C..0x1F. */
  predicate IsSpace(c: char) {
    c == ' ' || 9 <= c as int <= 13 || 28 <= c as int <= 31
  }

  predicate AllSpace(s: string) {
    forall i :: 0 <= i < |s| ==> IsSpace(s[i])
  }

  /** What `str.strip()` leaves behind: no whitespace at either end. */
  predicate Stripped(s: string) {
    s == [] || (!IsSpace(s[0]) && !IsSpace(s[|s| - 1]))
  }

  function Spaces(n: nat): (r: string)
    ensures |r| == n && AllSpace(r)
  {
    seq(n, _ => ' ')
  }

  /** The index of the first character at or after `i` that is not whitespace, or `|s|`. */
  function SkipSpaces(s: string, i: nat): (k: nat)
    requires i <= |s|
    ensures i <= k <= |s| && (k == |s| || !IsSpace(s[k]))
    ensures forall j :: i <= j < k ==> IsSpace(s[j])
    decreases |s| - i
  {
    if i < |s| && IsSpace(s[i]) then SkipSpaces(s, i + 1) else i
  }

  /** The index just after the last character before `j` that is not whitespace, but no
      lower than `i`. */
  function SkipSpacesBack(s: string, i: nat, j: nat): (k: nat)
    requires i <= j <= |s|
    ensures i <= k <= j && (k == i || !IsSpace(s[k - 1]))
    ensures forall m :: k <= m < j ==> IsSpace(s[m])
    decreases j
  {
    if i < j && IsSpace(s[j - 1]) then SkipSpacesBack(s, i, j - 1) else j
  }

  /** `str.strip()`: the result has no whitespace at its ends, and it is empty exactly
      when the input is all whitespace. */
  function Strip(s: string): (r: string)
    ensures Stripped(r) && |r| <= |s|
    ensures r == [] <==> AllSpace(s)
  {
    var a := SkipSpaces(s, 0);
    var b := SkipSpacesBack(s, a, |s|);
    assert b == a ==> forall i :: 0 <= i < |s| ==> IsSpace(s[i]);
    s[a..b]
  }

  lemma AllSpaceConcat(a: string, b: string)
    requires AllSpace(a) && AllSpace(b)
    ensures AllSpace(a + b)
  {
  }

  /** Stripping only removes characters: whatever the text lacks, its stripped form lacks. */
  lemma StripWithin(s: string, c: char)
    requires c !in s
    ensures c !in Strip(s)
  {
    var a := SkipSpaces(s, 0);
    var b := SkipSpacesBack(s, a, |s|);
    assert Strip(s) == s[a..b];
  }

  /** Stripping only removes whitespace: a character that is not whitespace survives it. */
  lemma StripKeeps(s: string, i: nat)
    requires i < |s| && !IsSpace(s[i])
    ensures s[i] in Strip(s)
  {
    var a := SkipSpaces(s, 0);
    var b := SkipSpacesBack(s, a, |s|);
    assert a <= i < b;
    assert Strip(s)[i - a] == s[i];
  }

  /** `str.rstrip(chars)` with the characters given as a set. */
  function RStripChars(s: string, cs: set<char>): (r: string)
    ensures |r| <= |s| && r == s[..|r|]
    ensures forall i :: |r| <= i < |s| ==> s[i] in cs
    ensures r == [] || r[|r| - 1] !in cs
  {
    if |s| > 0 && s[|s| - 1] in cs then RStripChars(s[..|s| - 1], cs) else s
  }

  /** The argument of `rstrip("\r\n")`. */
  const LineEnd: set<char> := {'\r', '\n'}

  /** `check_type.is_blank_str` on a `str`: `not (s and s.strip())`. */
  function Blank(s: string): (b: bool)
    ensures b <==> AllSpace(s)
  {
    s == [] || Strip(s) == []
  }

  /** Stripping is undone only by whitespace: padding a stripped text with whitespace on
      both sides and stripping gives the text back. This is what makes a fixed-width field
      written with `ljust`/`rjust` read back by `strip` unchanged. */
  lemma StripPadded(a: string, t: string, b: string)
    requires AllSpace(a) && AllSpace(b) && Stripped(t)
    ensures Strip(a + t + b) == t
  {
    var s := a + t + b;
    assert forall i :: 0 <= i < |s| ==> s[i] == if i < |a| then a[i] else if i < |a| + |t| then t[i - |a|] else b[i - |a| - |t|];
    if t == [] {
      assert SkipSpaces(s, 0) == |s|;
    } else {
      assert forall j :: 0 <= j < |a| ==> IsSpace(s[j]);
      assert !IsSpace(s[|a|]) && !IsSpace(s[|a| + |t| - 1]);
      assert forall m :: |a| + |t| <= m < |s| ==> IsSpace(s[m]);
      assert SkipSpaces(s, 0) == |a|;
      assert SkipSpacesBack(s, |a|, |s|) == |a| + |t|;
      assert s[|a|..|a| + |t|] == t;
    }
  }

  lemma StripOfStripped(t: string)
    requires Stripped(t)
    ensures Strip(t) == t
  {
    StripPadded([], t, []);
    assert [] + t + [] == t;
  }

  /** A line is blank exactly when it is blank after `rstrip("\r\n")`: both characters are
      whitespace. */
  lemma BlankIgnoresLineEnd(s: string)
    ensures Blank(RStripChars(s, LineEnd)) <==> Blank(s)
  {
    var r := RStripChars(s, LineEnd);
    if AllSpace(r) {
      LineEndIsSpace(s, |r|);
      AllSpaceConcat(r, s[|r|..]);
      assert r + s[|r|..] == s;
    } else {
      var i :| 0 <= i < |r| && !IsSpace(r[i]);
      assert s[i] == r[i];
    }
  }

  lemma LineEndIsSpace(s: string, k: nat)
    requires k <= |s| && forall i :: k <= i < |s| ==> s[i] in LineEnd
    ensures AllSpace(s[k..])
  {
    assert forall i :: 0 <= i < |s| - k ==> s[k..][i] == s[k + i];
  }

  // ---------------------------------------------------------------------------------------
  // Digits: `str.isdigit`, `int(...)` and `%d`

  predicate IsDigit(c: char) {
    '0' <= c <= '9'
  }

  predicate AllDigits(s: string) {
    forall i :: 0 <= i < |s| ==> IsDigit(s[i])
  }

  /** `str.isdigit()`: false on the empty string. */
  predicate IsDigitString(s: string) {
    |s| > 0 && AllDigits(s)
  }

  function Pow10(n: nat): (r: nat)
    ensures r >= 1
  {
    if n == 0 then 1 else 10 * Pow10(n - 1)
  }

  function DigitChar(d: nat): (c: char)
    requires d < 10
    ensures IsDigit(c)
  {
    ('0' as int + d) as char
  }

  /** `int(s)` for a string of decimal digits. */
  function DigitsValue(s: string): (v: nat)
    requires AllDigits(s)
    ensures v < Pow10(|s|)
  {
    if |s| == 0 then 0 else 10 * DigitsValue(s[..|s| - 1]) + (s[|s| - 1] as int - '0' as int)
  }

  /** `"%d" % n` for a non-negative `n`: a digit string whose value is `n`, without leading
      zeros. */
  function NatToString(n: nat): (s: string)
    ensures IsDigitString(s)
    ensures DigitsValue(s) == n
    ensures Stripped(s)
    ensures |s| > 1 ==> s[0] != '0'
  {
    if n < 10 then [DigitChar(n)]
    else
      var p := NatToString(n / 10);
      assert (p + [DigitChar(n % 10)])[..|p|] == p;
      p + [DigitChar(n % 10)]
  }

  lemma {:induction false} NatToStringLength(n: nat, k: nat)
    requires n < Pow10(k)
    ensures |NatToString(n)| <= k || (n == 0 && k == 0)
  {
    if n >= 10 {
      NatToStringLength(n / 10, k - 1);
    }
  }

  lemma NatToStringInjective(a: nat, b: nat)
    requires NatToString(a) == NatToString(b)
    ensures a == b
  {
  }

  // ---------------------------------------------------------------------------------------
  // Justification

  /** `s.ljust(w)` */
  function Ljust(s: string, w: nat): (r: string)
    ensures |r| == if |s| < w then w else |s|
    ensures r[..|s|] == s && AllSpace(r[|s|..])
  {
    if |s| < w then s + Spaces(w - |s|) else s
  }

  /** `s.rjust(w)` */
  function Rjust(s: string, w: nat): (r: string)
    ensures |r| == if |s| < w then w else |s|
    ensures r[|r| - |s|..] == s && AllSpace(r[..|r| - |s|])
  {
    if |s| < w then Spaces(w - |s|) + s else s
  }

  lemma StripLjust(s: string, w: nat)
    requires Stripped(s)
    ensures Strip(Ljust(s, w)) == s
  {
    var r := Ljust(s, w);
    assert r == [] + s + r[|s|..];
    StripPadded([], s, r[|s|..]);
  }

  lemma StripRjust(s: string, w: nat)
    requires Stripped(s)
    ensures Strip(Rjust(s, w)) == s
  {
    var r := Rjust(s, w);
    assert r == r[..|r| - |s|] + s + [];
    StripPadded(r[..|r| - |s|], s, []);
  }

  // ---------------------------------------------------------------------------------------
  // Searching, splitting and joining

  /** `s.find(c)`: the first index of `c`, or -1. */
  function Find(s: string, c: char): (r: int)
    ensures -1 <= r < |s|
    ensures r == -1 <==> c !in s
    ensures r >= 0 ==> s[r] == c && c !in s[..r]
  {
    if |s| == 0 then -1
    else if s[0] == c then 0
    else
      var k := Find(s[1..], c);
      assert s == [s[0]] + s[1..];
      if k == -1 then -1 else k + 1
  }

  /** `s.split(c)` with a one-character separator, built from the end: the last character
      either starts a new, empty piece or extends the last piece. */
  function Split(s: string, c: char): (parts: seq<string>)
    ensures |parts| >= 1
    ensures forall k :: 0 <= k < |parts| ==> c !in parts[k]
    decreases |s|
  {
    if |s| == 0 then [[]] else Extend(Split(s[..|s| - 1], c), s[|s| - 1], c)
  }

  /** One more character for `Split`: a separator opens an empty piece, anything else goes
      on the end of the last piece. */
  function Extend(parts: seq<string>, x: char, c: char): (r: seq<string>)
    requires |parts| >= 1
    ensures |r| >= 1
    ensures (forall k :: 0 <= k < |parts| ==> c !in parts[k]) ==> forall k :: 0 <= k < |r| ==> c !in r[k]
  {
    if x == c then parts + [[]]
    else
      var m := |parts| - 1;
      assert forall k :: 0 <= k < m ==> (parts[..m] + [parts[m] + [x]])[k] == parts[k];
      parts[..m] + [parts[m] + [x]]
  }

  /** `sep.join(parts)` */
  function Join(parts: seq<string>, sep: string): string {
    if |parts| == 0 then []
    else if |parts| == 1 then parts[0]
    else parts[0] + sep + Join(parts[1..], sep)
  }

  /** Joining one more piece puts the separator and the piece at the end. */
  lemma {:induction false} JoinSnoc(parts: seq<string>, x: string, sep: string)
    requires |parts| >= 1
    ensures Join(parts + [x], sep) == Join(parts, sep) + sep + x
    decreases |parts|
  {
    var q := parts + [x];
    if |parts| == 1 {
      assert q[1..] == [x];
    } else {
      assert q[1..] == parts[1..] + [x];
      JoinSnoc(parts[1..], x, sep);
    }
  }

  /** Splitting and joining back with the same separator restores the text. */
  lemma {:induction false} JoinSplit(s: string, c: char)
    ensures Join(Split(s, c), [c]) == s
    decreases |s|
  {
    if |s| > 0 {
      var n := |s| - 1;
      JoinSplit(s[..n], c);
      JoinExtend(Split(s[..n], c), s[n], c);
      assert s == s[..n] + [s[n]];
    }
  }

  /** `Extend` adds exactly its character to the joined text. */
  lemma JoinExtend(p: seq<string>, x: char, c: char)
    requires |p| >= 1
    ensures Join(Extend(p, x, c), [c]) == Join(p, [c]) + [x]
  {
    var m := |p| - 1;
    if x == c {
      JoinExtendSeparator(p, c);
    } else if m == 0 {
      JoinExtendSingle(p[0], x, c);
      assert p == [p[0]];
    } else {
      JoinExtendLong(p, x, c);
    }
  }

  lemma JoinExtendSeparator(p: seq<string>, c: char)
    requires |p| >= 1
    ensures Join(p + [[]], [c]) == Join(p, [c]) + [c]
  {
    JoinSnoc(p, [], [c]);
    assert Join(p, [c]) + [c] + [] == Join(p, [c]) + [c];
  }

  lemma JoinExtendSingle(a: string, x: char, c: char)
    ensures Join([a + [x]], [c]) == Join([a], [c]) + [x]
  {
  }

  lemma JoinExtendLong(p: seq<string>, x: char, c: char)
    requires |p| >= 2 && x != c
    ensures Join(Extend(p, x, c), [c]) == Join(p, [c]) + [x]
  {
    var m := |p| - 1;
    var q := Extend(p, x, c);
    assert q[..m] == p[..m] && q[m] == p[m] + [x];
    JoinLast(p, [c]);
    JoinLast(q, [c]);
    var j := Join(p[..m], [c]);
    assert j + [c] + (p[m] + [x]) == j + [c] + p[m] + [x];
  }

  /** The last piece of a join of two or more comes after the last separator. */
  lemma JoinLast(p: seq<string>, sep: string)
    requires |p| >= 2
    ensures Join(p, sep) == Join(p[..|p| - 1], sep) + sep + p[|p| - 1]
  {
    var m := |p| - 1;
    var init := p[..m];
    assert init + [p[m]] == p;
    JoinSnoc(init, p[m], sep);
  }

  /** The text after the last `c`, or all of `s` when it has none. */
  function AfterLast(s: string, c: char): (r: string)
    ensures c !in r
    ensures |r| <= |s| && r == s[|s| - |r|..]
    ensures |r| < |s| ==> s[|s| - |r| - 1] == c
  {
    if |s| == 0 then []
    else if s[|s| - 1] == c then []
    else
      var p := AfterLast(s[..|s| - 1], c);
      assert s[..|s| - 1][|s| - 1 - |p|..] + [s[|s| - 1]] == s[|s| - |p| - 1..];
      p + [s[|s| - 1]]
  }

  lemma {:induction false} AfterLastSkipsPrefix(p: string, c: char, q: string)
    ensures AfterLast(p + [c] + q, c) == AfterLast(q, c)
    decreases |q|
  {
    var s := p + [c] + q;
    if |q| > 0 && q[|q| - 1] != c {
      assert s[..|s| - 1] == p + [c] + q[..|q| - 1];
      AfterLastSkipsPrefix(p, c, q[..|q| - 1]);
    }
  }

  lemma AfterLastWithoutSeparator(s: string, c: char)
    requires c !in s
    ensures AfterLast(s, c) == s
  {
  }

  lemma AfterLastAfterFirst(s: string, c: char, i: nat)
    requires i < |s| && s[i] == c
    ensures AfterLast(s, c) == AfterLast(s[i + 1..], c)
  {
    assert s == s[..i] + [c] + s[i + 1..];
    AfterLastSkipsPrefix(s[..i], c, s[i + 1..]);
  }

  /** `s.split(c)[-1]` is the text after the last `c`. */
  lemma {:induction false} LastSplitIsAfterLast(s: string, c: char)
    ensures Split(s, c)[|Split(s, c)| - 1] == AfterLast(s, c)
    decreases |s|
  {
    if |s| > 0 {
      LastSplitIsAfterLast(s[..|s| - 1], c);
    }
  }
}
