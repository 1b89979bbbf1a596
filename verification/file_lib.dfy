/** The pure logic of `my_lib/file_lib.py`: path-argument checking, how lines are shaped for
    writing and after reading, the fresh-name probe and the binary-content scan.

    The file system is abstracted away: a file's lines are given as the `readlines()` or
    successive `readline()` results, its bytes as a sequence, and the existing paths as a
    set. Paths are plain `/`-separated strings, taken to be already normalised. */
module FileLib {
  import opened Text
  import opened Results

  // ---------------------------------------------------------------------------------------
  // __convert_path

  /** The path argument: a `str`, or a `pathlib.Path` (which is always truthy). */
  datatype PathArg = StrPath(s: string) | PathObject(p: string)

  /** `__convert_path` without the existence check and the parent creation: a `str` is
      stripped and must not be empty afterwards. */
  function ConvertPath(arg: PathArg): (r: Result<string, string>)
    ensures arg.StrPath? ==> (r.Err? <==> AllSpace(arg.s))
    ensures arg.StrPath? && r.Ok? ==> Stripped(r.value) && r.value != [] && |r.value| <= |arg.s|
    ensures arg.PathObject? ==> r == Ok(arg.p)
  {
    var p := if arg.StrPath? then Strip(arg.s) else arg.p;
    if arg.StrPath? && p == [] then Err("file_path is not None or empty") else Ok(p)
  }

  // ---------------------------------------------------------------------------------------
  // load_file_to_list_str

  /** The line filter of `load_file_to_list_str` over the `readlines()` result: with
      `removeBlank`, blank lines are dropped; every kept line loses its trailing `\r`/`\n`. */
  function LoadLines(raw: seq<string>, removeBlank: bool): (lines: seq<string>)
    ensures |lines| <= |raw|
    ensures !removeBlank ==> |lines| == |raw|
  {
    if |raw| == 0 then []
    else
      var rest := LoadLines(raw[1..], removeBlank);
      if !removeBlank || !Blank(raw[0]) then [RStripChars(raw[0], LineEnd)] + rest else rest
  }

  /** Without the filter, line `k` is raw line `k` without its line end. */
  lemma {:induction false} LoadLinesUnfiltered(raw: seq<string>)
    ensures forall k :: 0 <= k < |raw| ==> LoadLines(raw, false)[k] == RStripChars(raw[k], LineEnd)
    decreases |raw|
  {
    if |raw| > 0 {
      LoadLinesUnfiltered(raw[1..]);
      assert forall k :: 1 <= k < |raw| ==> raw[k] == raw[1..][k - 1];
    }
  }

  /** A line as the loader returns it: no trailing `\r` or `\n`, and not blank when
      blank lines are filtered out. */
  predicate LoadedLine(line: string, removeBlank: bool) {
    (line == [] || line[|line| - 1] !in LineEnd) && (removeBlank ==> !Blank(line))
  }

  lemma {:induction false} LoadLinesShape(raw: seq<string>, removeBlank: bool)
    ensures forall k :: 0 <= k < |LoadLines(raw, removeBlank)| ==>
              LoadedLine(LoadLines(raw, removeBlank)[k], removeBlank)
    decreases |raw|
  {
    if |raw| > 0 {
      var lines := LoadLines(raw, removeBlank);
      var rest := LoadLines(raw[1..], removeBlank);
      LoadLinesShape(raw[1..], removeBlank);
      if !removeBlank || !Blank(raw[0]) {
        var first := RStripChars(raw[0], LineEnd);
        FirstLoaded(raw[0], removeBlank);
        assert lines == [first] + rest;
        forall k | 0 <= k < |lines|
          ensures LoadedLine(lines[k], removeBlank)
        {
          if k > 0 {
            assert lines[k] == rest[k - 1];
          }
        }
      } else {
        assert lines == rest;
      }
    }
  }

  lemma FirstLoaded(line: string, removeBlank: bool)
    requires !removeBlank || !Blank(line)
    ensures LoadedLine(RStripChars(line, LineEnd), removeBlank)
  {
    BlankIgnoresLineEnd(line);
  }

  /** Loading is line by line: the lines of two pieces are the lines of the whole, in order. */
  lemma {:induction false} LoadLinesAppend(a: seq<string>, b: seq<string>, removeBlank: bool)
    ensures LoadLines(a + b, removeBlank) == LoadLines(a, removeBlank) + LoadLines(b, removeBlank)
    decreases |a|
  {
    if |a| > 0 {
      assert (a + b)[1..] == a[1..] + b;
      LoadLinesAppend(a[1..], b, removeBlank);
    } else {
      assert a + b == b;
    }
  }

  // ---------------------------------------------------------------------------------------
  // load_file_to_list_str_n_head

  /** The `readline()` results before the first empty one, which marks the end of the file. */
  function BeforeEof(results: seq<string>): (r: seq<string>)
    ensures |r| <= |results| && r == results[..|r|]
    ensures forall k :: 0 <= k < |r| ==> r[k] != []
    ensures |r| < |results| ==> results[|r|] == []
  {
    if |results| == 0 || results[0] == [] then []
    else [results[0]] + BeforeEof(results[1..])
  }

  /** The first `n` elements of `s`, or all of them. */
  function Take<T>(s: seq<T>, n: int): seq<T> {
    if n <= 0 then [] else if n < |s| then s[..n] else s
  }

  /** Loading one more raw line adds that line, without its line end, unless it is
      filtered out as blank. */
  lemma LoadLinesStep(src: seq<string>, i: nat, removeBlank: bool)
    requires i < |src|
    ensures var line := RStripChars(src[i], LineEnd);
            LoadLines(src[..i + 1], removeBlank)
            == LoadLines(src[..i], removeBlank) + (if !removeBlank || !Blank(line) then [line] else [])
  {
    assert src[..i + 1] == src[..i] + [src[i]];
    LoadLinesAppend(src[..i], [src[i]], removeBlank);
    BlankIgnoresLineEnd(src[i]);
  }

  /** The lines loaded so far are the first `n` of all of them when `n` is the limit or the
      whole input has been read. */
  lemma LoadHeadExit(src: seq<string>, i: nat, removeBlank: bool, rowNum: int)
    requires i <= |src|
    requires |LoadLines(src[..i], removeBlank)| >= rowNum || i == |src|
    requires |LoadLines(src[..i], removeBlank)| == 0 || |LoadLines(src[..i], removeBlank)| <= rowNum
    ensures LoadLines(src[..i], removeBlank) == Take(LoadLines(src, removeBlank), rowNum)
  {
    var lines := LoadLines(src[..i], removeBlank);
    assert src == src[..i] + src[i..];
    LoadLinesAppend(src[..i], src[i..], removeBlank);
    var all := LoadLines(src, removeBlank);
    assert all == lines + LoadLines(src[i..], removeBlank);
    if i == |src| {
      assert src[i..] == [];
      assert all == lines;
    } else if rowNum > 0 {
      assert all[..rowNum] == lines;
    }
  }

  /** `load_file_to_list_str_n_head` over the successive `readline()` results (`""` once the
      file is exhausted): it returns the first `rowNum` lines `load_file_to_list_str` would
      return for the same file, reading no further than needed. */
  method LoadHead(results: seq<string>, removeBlank: bool, rowNum: int) returns (lines: seq<string>)
    ensures lines == Take(LoadLines(BeforeEof(results), removeBlank), rowNum)
    ensures rowNum >= 0 ==> |lines| <= rowNum
  {
    ghost var src := BeforeEof(results);
    lines := [];
    var n := 0;
    var i := 0;
    while n < rowNum
      invariant 0 <= i <= |src|
      invariant lines == LoadLines(src[..i], removeBlank)
      invariant n == |lines|
      invariant n == 0 || n <= rowNum
      decreases |src| - i
    {
      var line := if i < |results| then results[i] else "";
      assert i < |src| ==> line == src[i] && line != [];
      if |line| == 0 {
        break;
      }
      LoadLinesStep(src, i, removeBlank);
      i := i + 1;
      line := RStripChars(line, LineEnd);
      if !removeBlank || !Blank(line) {
        n := n + 1;
        lines := lines + [line];
      }
    }
    LoadHeadExit(src, i, removeBlank, rowNum);
  }

  // ---------------------------------------------------------------------------------------
  // write_list_str_to_file

  /** `s.endswith(suffix)` */
  predicate EndsWith(s: string, suffix: string) {
    |suffix| <= |s| && s[|s| - |suffix|..] == suffix
  }

  /** One item as the loop emits it: verbatim when it already ends with `newline`, with
      `newline` appended otherwise. */
  function Terminated(item: string, newline: string): (t: string)
    ensures EndsWith(t, newline)
    ensures item <= t
  {
    if EndsWith(item, newline) then item
    else
      assert (item + newline)[|item + newline| - |newline|..] == newline;
      item + newline
  }

  /** The loop of `write_list_str_to_file`: blank items dropped on request, every other item
      terminated. */
  function TerminateItems(data: seq<string>, removeBlank: bool, newline: string): (items: seq<string>)
    ensures |items| <= |data|
    ensures !removeBlank ==> |items| == |data|
  {
    if |data| == 0 then []
    else
      var rest := TerminateItems(data[1..], removeBlank, newline);
      if removeBlank && Blank(data[0]) then rest else [Terminated(data[0], newline)] + rest
  }

  /** The items kept when `removeBlank` is set. */
  function NonBlank(data: seq<string>): seq<string> {
    if |data| == 0 then []
    else if Blank(data[0]) then NonBlank(data[1..])
    else [data[0]] + NonBlank(data[1..])
  }

  /** Without `removeBlank` every item is kept, in order, and terminated. */
  lemma {:induction false} TerminateItemsKeepsAll(data: seq<string>, newline: string)
    ensures forall k :: 0 <= k < |data| ==>
              TerminateItems(data, false, newline)[k] == Terminated(data[k], newline)
    decreases |data|
  {
    if |data| > 0 {
      TerminateItemsKeepsAll(data[1..], newline);
      assert forall k :: 1 <= k < |data| ==> data[k] == data[1..][k - 1];
    }
  }

  /** Dropping blank items is the same as writing only the non-blank ones. */
  lemma {:induction false} TerminateItemsFilters(data: seq<string>, newline: string)
    ensures TerminateItems(data, true, newline) == TerminateItems(NonBlank(data), false, newline)
    decreases |data|
  {
    if |data| > 0 {
      TerminateItemsFilters(data[1..], newline);
      if !Blank(data[0]) {
        assert ([data[0]] + NonBlank(data[1..]))[1..] == NonBlank(data[1..]);
      }
    }
  }

  /** A text that is not blank stays so when something is appended. */
  lemma NotBlankPrefix(a: string, b: string)
    requires a <= b && !Blank(a)
    ensures !Blank(b)
  {
    var j :| 0 <= j < |a| && !IsSpace(a[j]);
    assert b[j] == a[j];
  }

  /** With `removeBlank` no terminated item is blank. */
  lemma {:induction false} TerminateItemsNoBlank(data: seq<string>, newline: string)
    ensures forall k :: 0 <= k < |TerminateItems(data, true, newline)| ==>
              !Blank(TerminateItems(data, true, newline)[k])
    decreases |data|
  {
    if |data| > 0 {
      TerminateItemsNoBlank(data[1..], newline);
      if !Blank(data[0]) {
        NotBlankPrefix(data[0], Terminated(data[0], newline));
      }
    }
  }

  /** The lines `write_list_str_to_file` hands to `writelines`: the terminated items, the last
      one with its trailing `\r`/`\n` removed. */
  function WriteItems(data: seq<string>, removeBlank: bool, newline: string): (items: seq<string>)
    ensures |items| <= |data|
    ensures !removeBlank ==> |items| == |data|
    ensures data == [] ==> items == []
    ensures |items| > 0 ==> LoadedLine(items[|items| - 1], false)
  {
    var t := TerminateItems(data, removeBlank, newline);
    if |t| == 0 then [] else t[..|t| - 1] + [RStripChars(t[|t| - 1], LineEnd)]
  }

  /** Every written line but the last ends with `newline`. */
  lemma WriteItemsEnds(data: seq<string>, removeBlank: bool, newline: string)
    ensures forall k :: 0 <= k < |WriteItems(data, removeBlank, newline)| - 1 ==>
              EndsWith(WriteItems(data, removeBlank, newline)[k], newline)
  {
    var t := TerminateItems(data, removeBlank, newline);
    var items := WriteItems(data, removeBlank, newline);
    TerminatedItemsEnd(data, removeBlank, newline);
    if |t| > 0 {
      assert items == t[..|t| - 1] + [RStripChars(t[|t| - 1], LineEnd)];
      forall k | 0 <= k < |items| - 1
        ensures EndsWith(items[k], newline)
      {
        assert items[k] == t[k];
      }
    }
  }

  /** With `removeBlank` no written line is blank, not even the trimmed last one. */
  lemma WriteItemsNoBlank(data: seq<string>, newline: string)
    ensures forall k :: 0 <= k < |WriteItems(data, true, newline)| ==> !Blank(WriteItems(data, true, newline)[k])
  {
    var t := TerminateItems(data, true, newline);
    var items := WriteItems(data, true, newline);
    TerminateItemsNoBlank(data, newline);
    if |t| > 0 {
      var last := t[|t| - 1];
      BlankIgnoresLineEnd(last);
      assert items == t[..|t| - 1] + [RStripChars(last, LineEnd)];
      forall k | 0 <= k < |items|
        ensures !Blank(items[k])
      {
        if k < |items| - 1 {
          assert items[k] == t[k];
        }
      }
    }
  }

  lemma {:induction false} TerminatedItemsEnd(data: seq<string>, removeBlank: bool, newline: string)
    ensures forall k :: 0 <= k < |TerminateItems(data, removeBlank, newline)| ==>
              EndsWith(TerminateItems(data, removeBlank, newline)[k], newline)
    decreases |data|
  {
    if |data| > 0 {
      TerminatedItemsEnd(data[1..], removeBlank, newline);
    }
  }

  // ---------------------------------------------------------------------------------------
  // re_create_new_filename

  /** `Path.name`: the text after the last `/`. */
  function PathName(path: string): string {
    AfterLast(path, '/')
  }

  /** The directory part, with its trailing `/`. */
  function PathParent(path: string): (parent: string)
    ensures parent + PathName(path) == path
  {
    var name := PathName(path);
    assert path == path[..|path| - |name|] + name;
    path[..|path| - |name|]
  }

  /** `name.rfind('.')` */
  function RFindDot(name: string): int {
    var after := AfterLast(name, '.');
    if |after| == |name| then -1 else |name| - |after| - 1
  }

  /** `PurePath.suffix` (the Python 3.12 rule): from the last dot, unless that dot is the
      first or the last character. */
  function Suffix(name: string): string {
    var i := RFindDot(name);
    if 0 < i < |name| - 1 then name[i..] else []
  }

  /** `PurePath.stem`: the name without its suffix. */
  function Stem(name: string): string {
    var i := RFindDot(name);
    if 0 < i < |name| - 1 then name[..i] else name
  }

  /** Stem and suffix split the name; the suffix is a dot and at least one character. */
  lemma StemSuffix(name: string)
    ensures Stem(name) + Suffix(name) == name
    ensures Suffix(name) == [] || (Suffix(name)[0] == '.' && |Suffix(name)| >= 2)
  {
    var after := AfterLast(name, '.');
    var i := RFindDot(name);
    if 0 < i < |name| - 1 {
      assert name == name[..i] + name[i..];
    }
  }

  /** A name with no dot is its own stem and has no suffix. */
  lemma UndottedName(name: string)
    requires '.' !in name
    ensures RFindDot(name) == -1 && Suffix(name) == [] && Stem(name) == name
  {
    AfterLastWithoutSeparator(name, '.');
  }

  /** The name the probe loop writes, `f"{name}{sep}{n}"`. */
  function NumberedName(stem: string, sep: string, n: nat): string {
    stem + sep + NatToString(n)
  }

  /** `file_path.with_name(f"{stem}{sep}{n}").with_suffix(file_path.suffix)` as pathlib
      evaluates it: `with_suffix` keeps the stem of the NEW name, so when the old stem has a
      dot, everything from its last dot on is dropped together with the number. */
  function CandidateAsWritten(path: string, sep: string, n: nat): string {
    PathParent(path) + Stem(NumberedName(Stem(PathName(path)), sep, n)) + Suffix(PathName(path))
  }

  /** Everything of the intended name but the number. */
  function CandidateHead(path: string, sep: string): string {
    PathParent(path) + Stem(PathName(path)) + sep
  }

  /** A numbered name: a fixed head, the decimal number, a fixed tail. */
  function Numbered(head: string, tail: string, n: nat): string {
    head + NatToString(n) + tail
  }

  /** The name the loop evidently means to try: stem, separator, number, original suffix. */
  function Candidate(path: string, sep: string, n: nat): string {
    Numbered(CandidateHead(path, sep), Suffix(PathName(path)), n)
  }

  /** When neither the stem nor the separator has a dot, pathlib's evaluation gives the
      intended name. */
  lemma CandidateAsWrittenUndotted(path: string, sep: string, n: nat)
    requires '.' !in Stem(PathName(path)) && '.' !in sep
    ensures CandidateAsWritten(path, sep, n) == Candidate(path, sep, n)
  {
    var stem, d := Stem(PathName(path)), NatToString(n);
    var parent, suffix := PathParent(path), Suffix(PathName(path));
    NoDotInNumber(n);
    NoDotInConcat(stem, sep, d);
    AsWrittenUndotted(path, sep, n);
    CandidateUnfolded(path, sep, n);
    Regroup(parent, stem, sep, d, suffix);
  }

  lemma AsWrittenUndotted(path: string, sep: string, n: nat)
    requires '.' !in NumberedName(Stem(PathName(path)), sep, n)
    ensures CandidateAsWritten(path, sep, n)
            == PathParent(path) + NumberedName(Stem(PathName(path)), sep, n) + Suffix(PathName(path))
  {
    UndottedName(NumberedName(Stem(PathName(path)), sep, n));
  }

  lemma CandidateUnfolded(path: string, sep: string, n: nat)
    ensures Candidate(path, sep, n)
            == PathParent(path) + Stem(PathName(path)) + sep + NatToString(n) + Suffix(PathName(path))
  {
  }

  lemma NoDotInNumber(n: nat)
    ensures '.' !in NatToString(n)
  {
    var d := NatToString(n);
    assert forall j :: 0 <= j < |d| ==> IsDigit(d[j]);
  }

  lemma NoDotInConcat(a: string, b: string, c: string)
    requires '.' !in a && '.' !in b && '.' !in c
    ensures '.' !in a + b + c
  {
  }

  lemma Regroup(a: string, b: string, c: string, d: string, e: string)
    ensures a + (b + c + d) + e == a + b + c + d + e
  {
  }

  /** The last dot of `p.q`, when `q` has none, is the one between them. */
  lemma RFindDotAt(p: string, q: string)
    requires '.' !in q
    ensures RFindDot(p + ['.'] + q) == |p|
  {
    AfterLastSkipsPrefix(p, '.', q);
    AfterLastWithoutSeparator(q, '.');
  }

  /** A name `p.q` with a dot-free, non-empty `q` and a non-empty `p` has suffix `.q` and
      stem `p`. */
  lemma StemSuffixAt(p: string, q: string)
    requires p != [] && q != [] && '.' !in q
    ensures Suffix(p + ['.'] + q) == ['.'] + q
    ensures Stem(p + ['.'] + q) == p
  {
    RFindDotAt(p, q);
    var name := p + ['.'] + q;
    assert name[|p|..] == ['.'] + q;
    assert name[..|p|] == p;
  }

  /** For a name `a.b.ext` (no directory, `b`, `ext` and the separator without dots) every
      probe is `a.ext`, whatever the number: if `a.ext` exists too the loop never ends, and
      otherwise the result is `a.ext`, not `a.b<sep>1.ext`. */
  lemma CandidateAsWrittenDottedStem(name: string, a: string, b: string, ext: string, sep: string, n: nat)
    requires name == a + ['.'] + b + ['.'] + ext
    requires a != [] && ext != [] && '.' !in b && '.' !in ext && '.' !in sep && '/' !in name
    ensures CandidateAsWritten(name, sep, n) == a + ['.'] + ext
  {
    var stem := a + ['.'] + b;
    DottedNameParts(name, stem, ext);
    DottedNumberedStem(a, b, sep, n);
    DotRegroup(a, ext, [], []);
  }

  /** A plain name `stem.ext` is its own `Path.name`, with stem `stem` and suffix `.ext`. */
  lemma DottedNameParts(name: string, stem: string, ext: string)
    requires name == stem + ['.'] + ext
    requires stem != [] && ext != [] && '.' !in ext && '/' !in name
    ensures PathName(name) == name && PathParent(name) == []
    ensures Stem(PathName(name)) == stem && Suffix(PathName(name)) == ['.'] + ext
  {
    AfterLastWithoutSeparator(name, '/');
    StemSuffixAt(stem, ext);
  }

  /** The stem of `a.b<sep><n>` is `a`. */
  lemma DottedNumberedStem(a: string, b: string, sep: string, n: nat)
    requires a != [] && '.' !in b && '.' !in sep
    ensures Stem(NumberedName(a + ['.'] + b, sep, n)) == a
  {
    var tail := b + sep + NatToString(n);
    NoDotInNumber(n);
    NoDotInConcat(b, sep, NatToString(n));
    DotRegroup(a, b, sep, NatToString(n));
    StemSuffixAt(a, tail);
  }

  lemma DotRegroup(a: string, b: string, c: string, d: string)
    ensures a + ['.'] + b + c + d == a + ['.'] + (b + c + d)
    ensures [] + a + (['.'] + b) == a + ['.'] + b
  {
  }

  /** Different numbers give different names, whatever the head and tail. */
  lemma NumberedInjective(head: string, tail: string, m: nat, n: nat)
    requires Numbered(head, tail, m) == Numbered(head, tail, n)
    ensures m == n
  {
    var cm := Numbered(head, tail, m);
    assert |NatToString(m)| == |NatToString(n)|;
    assert NatToString(m) == cm[|head|..|head| + |NatToString(m)|];
    assert NatToString(n) == cm[|head|..|head| + |NatToString(n)|];
    NatToStringInjective(m, n);
  }

  /** The intended probes are all different, so only finitely many of them can exist. */
  lemma CandidateInjective(path: string, sep: string, m: nat, n: nat)
    requires Candidate(path, sep, m) == Candidate(path, sep, n)
    ensures m == n
  {
    NumberedInjective(CandidateHead(path, sep), Suffix(PathName(path)), m, n);
  }

  /** Every numbered name below `n` exists. */
  ghost predicate AllProbed(head: string, tail: string, existing: set<string>, n: nat) {
    forall m :: 1 <= m < n ==> Numbered(head, tail, m) in existing
  }

  lemma ProbedStep(head: string, tail: string, existing: set<string>, n: nat)
    requires AllProbed(head, tail, existing, n) && Numbered(head, tail, n) in existing
    ensures AllProbed(head, tail, existing, n + 1)
  {
  }

  /** The first number from 1 whose name is not in `existing`; it exists because the names
      are all different and `existing` is finite. */
  method FirstFree(head: string, tail: string, existing: set<string>) returns (n: nat)
    ensures n >= 1 && Numbered(head, tail, n) !in existing
    ensures AllProbed(head, tail, existing, n)
  {
    n := 1;
    ghost var tried: set<string> := {};
    while Numbered(head, tail, n) in existing
      invariant n >= 1
      invariant TriedBelow(head, tail, tried, n)
      invariant tried <= existing
      invariant AllProbed(head, tail, existing, n)
      decreases |existing - tried|
    {
      var candidate := Numbered(head, tail, n);
      FreshCandidate(head, tail, tried, n);
      assert existing - (tried + {candidate}) < existing - tried;
      TriedStep(head, tail, tried, n);
      tried := tried + {candidate};
      ProbedStep(head, tail, existing, n);
      n := n + 1;
    }
  }

  /** Every name in `tried` is a numbered name below `n`. */
  ghost predicate TriedBelow(head: string, tail: string, tried: set<string>, n: nat) {
    forall c :: c in tried ==> exists m :: 1 <= m < n && Numbered(head, tail, m) == c
  }

  /** The next numbered name has not been tried yet: the names are all different. */
  lemma FreshCandidate(head: string, tail: string, tried: set<string>, n: nat)
    requires TriedBelow(head, tail, tried, n)
    ensures Numbered(head, tail, n) !in tried
  {
    if Numbered(head, tail, n) in tried {
      var m :| 1 <= m < n && Numbered(head, tail, m) == Numbered(head, tail, n);
      NumberedInjective(head, tail, m, n);
    }
  }

  lemma TriedStep(head: string, tail: string, tried: set<string>, n: nat)
    requires n >= 1 && TriedBelow(head, tail, tried, n)
    ensures TriedBelow(head, tail, tried + {Numbered(head, tail, n)}, n + 1)
  {
    forall c | c in tried + {Numbered(head, tail, n)}
      ensures exists m :: 1 <= m < n + 1 && Numbered(head, tail, m) == c
    {
      if c in tried {
        var m :| 1 <= m < n && Numbered(head, tail, m) == c;
        assert 1 <= m < n + 1;
      } else {
        assert c == Numbered(head, tail, n);
        assert 1 <= n < n + 1 && Numbered(head, tail, n) == c;
      }
    }
  }

  /** `name` is the first candidate, counting from 1, that `existing` does not hold. */
  ghost predicate FirstFreeCandidate(path: string, sep: string, existing: set<string>, name: string) {
    name !in existing
    && exists n: nat :: n >= 1 && name == Candidate(path, sep, n)
                        && forall m :: 1 <= m < n ==> Candidate(path, sep, m) in existing
  }

  /** The probe loop of `re_create_new_filename` for an existing path. pathlib refuses to
      build a name when the path has no name part or the separator holds a `/`. */
  method ProbeNumbered(path: string, sep: string, existing: set<string>) returns (r: Result<string, string>)
    ensures r.Err? <==> PathName(path) == [] || '/' in sep
    ensures r.Ok? ==> FirstFreeCandidate(path, sep, existing, r.value)
  {
    if PathName(path) == [] || '/' in sep {
      return Err("ValueError: invalid name");
    }
    var n := FirstFree(CandidateHead(path, sep), Suffix(PathName(path)), existing);
    ProbedCandidates(path, sep, existing, n);
    r := Ok(Candidate(path, sep, n));
  }

  /** The numbered names the probe passed over are the candidates below `n`. */
  lemma ProbedCandidates(path: string, sep: string, existing: set<string>, n: nat)
    requires AllProbed(CandidateHead(path, sep), Suffix(PathName(path)), existing, n)
    ensures forall m :: 1 <= m < n ==> Candidate(path, sep, m) in existing
  {
  }

  /** `re_create_new_filename(file_path, sep)` with the probe of `Candidate`: an absent path
      is returned as it is; otherwise the result is the first numbered name, counting from 1,
      that does not exist. The loop ends because the numbered names are all different and
      only finitely many paths exist. */
  method ReCreateNewFilename(arg: PathArg, existing: set<string>, sep: string)
    returns (r: Result<string, string>)
    ensures ConvertPath(arg).Err? ==> r.Err?
    ensures ConvertPath(arg).Ok? && ConvertPath(arg).value !in existing ==> r == ConvertPath(arg)
    ensures r.Ok? ==> r.value !in existing
    ensures r.Ok? && ConvertPath(arg).value in existing ==>
              FirstFreeCandidate(ConvertPath(arg).value, sep, existing, r.value)
  {
    var converted := ConvertPath(arg);
    if converted.Err? {
      return Err(converted.error);
    }
    var path := converted.value;
    if path !in existing {
      return Ok(path);
    }
    r := ProbeNumbered(path, sep, existing);
  }

  // ---------------------------------------------------------------------------------------
  // is_binary_file

  newtype byte = x: int | 0 <= x < 256

  const ChunkSize: nat := 1024

  /** `is_binary_file` over the file's bytes: read in chunks of 1024 until a chunk holds a
      zero byte or comes back short. The answer is whether the content has a zero byte. */
  method IsBinaryFile(content: seq<byte>) returns (ret: bool)
    ensures ret <==> 0 in content
  {
    ret := false;
    var pos := 0;
    while true
      invariant 0 <= pos <= |content|
      invariant 0 !in content[..pos]
      invariant !ret
      decreases |content| - pos
    {
      var end := if pos + ChunkSize < |content| then pos + ChunkSize else |content|;
      var chunk := content[pos..end];
      if 0 in chunk {
        ret := true;
        break;
      }
      assert content[..end] == content[..pos] + chunk;
      if |chunk| < ChunkSize {
        assert content[..end] == content;
        break;
      }
      pos := end;
    }
  }
}
