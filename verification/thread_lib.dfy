/** `my_lib/thread_lib.py`: the two list-partitioning helpers the thread and process runners
    use to hand out work. `split_array` cuts a list into contiguous chunks or deals it out
    round robin; `split_array_advance` balances items over buckets by a numeric key. */
module ThreadLib {
  import opened Results

  // ---------------------------------------------------------------------------------------
  // Euclidean division, as Python's `divmod` and `%` compute it for non-negative operands

  lemma {:induction false} MulAtLeast(k: int, n: int)
    requires k >= 1 && n > 0
    ensures k * n >= n
    decreases k
  {
    if k > 1 {
      MulAtLeast(k - 1, n);
      assert k * n == (k - 1) * n + n;
    }
  }

  lemma MulPred(k: int, n: int)
    ensures k * n == (k - 1) * n + n
  {
  }

  /** Quotient and remainder are unique. */
  lemma DivShift(q: int, r: int, n: int)
    requires n > 0 && 0 <= r < n
    ensures (q * n + r) / n == q && (q * n + r) % n == r
  {
    var x := q * n + r;
    var a, b := x / n, x % n;
    assert a * n + b == x;
    assert (a - q) * n == r - b by {
      assert (a - q) * n == a * n - q * n;
    }
    if a > q {
      MulAtLeast(a - q, n);
    } else if a < q {
      MulAtLeast(q - a, n);
    }
  }

  lemma DivPlus(x: int, n: int)
    requires n > 0
    ensures (x + n) / n == x / n + 1 && (x + n) % n == x % n
  {
    assert x == (x / n) * n + x % n;
    assert x + n == (x / n + 1) * n + x % n;
    DivShift(x / n + 1, x % n, n);
  }

  // ---------------------------------------------------------------------------------------
  // Lists of lists

  /** The lists of `parts` laid end to end. */
  function Flatten<T>(parts: seq<seq<T>>): seq<T> {
    if |parts| == 0 then [] else parts[0] + Flatten(parts[1..])
  }

  lemma {:induction false} FlattenAppend<T>(a: seq<seq<T>>, b: seq<seq<T>>)
    ensures Flatten(a + b) == Flatten(a) + Flatten(b)
    decreases |a|
  {
    if |a| > 0 {
      assert (a + b)[1..] == a[1..] + b;
      FlattenAppend(a[1..], b);
    } else {
      assert a + b == b;
    }
  }

  /** Appending `x` to one list adds exactly `x` to the elements of the whole. */
  lemma {:induction false} FlattenUpdate<T>(parts: seq<seq<T>>, i: nat, x: T)
    requires i < |parts|
    ensures multiset(Flatten(parts[i := parts[i] + [x]])) == multiset(Flatten(parts)) + multiset{x}
    decreases |parts|
  {
    var p := parts[i := parts[i] + [x]];
    assert Flatten(p) == p[0] + Flatten(p[1..]);
    assert Flatten(parts) == parts[0] + Flatten(parts[1..]);
    if i == 0 {
      assert p[1..] == parts[1..];
      assert multiset(p[0]) == multiset(parts[0]) + multiset{x};
    } else {
      assert p[1..] == parts[1..][i - 1 := parts[i] + [x]];
      FlattenUpdate(parts[1..], i - 1, x);
    }
  }

  /** `[[] for _ in range(n)]` */
  function EmptyParts<T>(n: nat): (r: seq<seq<T>>)
    ensures |r| == n && forall k :: 0 <= k < n ==> r[k] == []
  {
    seq(n, _ => [])
  }

  /** `n` empty lists hold nothing. */
  lemma {:induction false} FlattenEmpty<T>(n: nat)
    ensures Flatten(EmptyParts<T>(n)) == []
    decreases n
  {
    if n > 0 {
      assert EmptyParts<T>(n)[1..] == EmptyParts<T>(n - 1);
      FlattenEmpty<T>(n - 1);
    }
  }

  // ---------------------------------------------------------------------------------------
  // Slices of a fixed size

  function Min(a: int, b: int): int {
    if a < b then a else b
  }

  /** `[arr[i:i + size] for i in range(from, to, size)]`: the slices of `size` elements that
      start at `from`, `from + size`, ... below `to`. A slice running past the end of the list
      stops there, as Python's does. */
  function Slices<T>(arr: seq<T>, from: nat, to: nat, size: nat): (c: seq<seq<T>>)
    requires size >= 1 && to <= |arr|
    ensures |c| > 0 <==> from < to
    decreases (to as int) - (from as int)
  {
    if from >= to then []
    else [arr[from..Min(from + size, |arr|)]] + Slices(arr, from + size, to, size)
  }

  /** `[arr[i:i + size] for i in range(0, len(arr), size)]` */
  function Chunks<T>(arr: seq<T>, size: nat): seq<seq<T>>
    requires size >= 1
  {
    Slices(arr, 0, |arr|, size)
  }

  /** `k * size`, counted up one slice at a time. */
  function Start(k: nat, size: nat): nat {
    if k == 0 then 0 else Start(k - 1, size) + size
  }

  lemma {:induction false} StartIsProduct(k: nat, size: nat)
    ensures Start(k, size) == k * size
  {
    if k > 0 {
      StartIsProduct(k - 1, size);
      MulPred(k, size);
    }
  }

  /** Slice `k` is the one the comprehension takes at `i = from + k * size`. */
  lemma {:induction false} SlicesIndex<T>(arr: seq<T>, from: nat, to: nat, size: nat, k: nat)
    requires size >= 1 && to <= |arr| && k < |Slices(arr, from, to, size)|
    ensures from + Start(k, size) < to
    ensures Slices(arr, from, to, size)[k]
            == arr[from + Start(k, size)..Min(from + Start(k, size) + size, |arr|)]
    decreases k
  {
    if k > 0 {
      assert Slices(arr, from, to, size)[k] == Slices(arr, from + size, to, size)[k - 1];
      SlicesIndex(arr, from + size, to, size, k - 1);
    }
  }

  /** There are `ceil((to - from) / size)` slices. */
  lemma {:induction false} SlicesCount<T>(arr: seq<T>, from: nat, to: nat, size: nat)
    requires size >= 1 && from <= to <= |arr|
    ensures |Slices(arr, from, to, size)| == (to - from + size - 1) / size
    decreases (to as int) - (from as int)
  {
    if from == to {
      DivShift(0, size - 1, size);
    } else if to - from <= size {
      DivShift(1, to - from - 1, size);
    } else {
      SlicesCount(arr, from + size, to, size);
      DivPlus(to - from - 1, size);
    }
  }

  /** The slices up to the end of the list, laid end to end, give the list back from `from`
      on. */
  lemma {:induction false} SlicesFlatten<T>(arr: seq<T>, from: nat, size: nat)
    requires size >= 1 && from <= |arr|
    ensures Flatten(Slices(arr, from, |arr|, size)) == arr[from..]
    decreases |arr| - from
  {
    if from < |arr| {
      var c := Slices(arr, from, |arr|, size);
      if from + size >= |arr| {
        assert c[0] == arr[from..];
        assert c[1..] == Slices(arr, from + size, |arr|, size) == [];
      } else {
        assert c[1..] == Slices(arr, from + size, |arr|, size);
        SlicesFlatten(arr, from + size, size);
        assert arr[from..] == arr[from..from + size] + arr[from + size..];
      }
    }
  }

  /** `count` slices of `size` from `from`: every one is full, and together they are the list
      between `from` and `from + count * size`. */
  lemma {:induction false} SlicesExact<T>(arr: seq<T>, from: nat, to: nat, count: nat, size: nat)
    requires size >= 1 && to == from + Start(count, size) && to <= |arr|
    ensures |Slices(arr, from, to, size)| == count
    ensures forall k :: 0 <= k < count ==> |Slices(arr, from, to, size)[k]| == size
    ensures Flatten(Slices(arr, from, to, size)) == arr[from..to]
    decreases count
  {
    if count > 0 {
      var c := Slices(arr, from, to, size);
      assert c[1..] == Slices(arr, from + size, to, size);
      SlicesExact(arr, from + size, to, count - 1, size);
      assert forall k :: 1 <= k < count ==> c[k] == c[1..][k - 1];
      assert arr[from..to] == arr[from..from + size] + arr[from + size..to];
    }
  }

  /** Chunk `k` is the slice the list comprehension takes at `i = k * size`. */
  lemma ChunksIndex<T>(arr: seq<T>, size: nat, k: nat)
    requires size >= 1 && k < |Chunks(arr, size)|
    ensures k * size < |arr|
    ensures Chunks(arr, size)[k] == arr[k * size..Min(k * size + size, |arr|)]
  {
    SlicesIndex(arr, 0, |arr|, size, k);
    StartIsProduct(k, size);
  }

  /** The chunks give the list back; there are `ceil(len(arr) / size)` of them, none is
      empty and all but the last are full. */
  lemma ChunksShape<T>(arr: seq<T>, size: nat)
    requires size >= 1
    ensures Flatten(Chunks(arr, size)) == arr
    ensures |Chunks(arr, size)| == (|arr| + size - 1) / size
    ensures forall k :: 0 <= k < |Chunks(arr, size)| ==> 1 <= |Chunks(arr, size)[k]| <= size
    ensures forall k :: 0 <= k < |Chunks(arr, size)| - 1 ==> |Chunks(arr, size)[k]| == size
  {
    SlicesFlatten(arr, 0, size);
    SlicesCount(arr, 0, |arr|, size);
    forall k | 0 <= k < |Chunks(arr, size)|
      ensures 1 <= |Chunks(arr, size)[k]| <= size
      ensures k < |Chunks(arr, size)| - 1 ==> |Chunks(arr, size)[k]| == size
    {
      ChunkLength(arr, size, k);
    }
  }

  lemma ChunkLength<T>(arr: seq<T>, size: nat, k: nat)
    requires size >= 1 && k < |Chunks(arr, size)|
    ensures 1 <= |Chunks(arr, size)[k]| <= size
    ensures k < |Chunks(arr, size)| - 1 ==> |Chunks(arr, size)[k]| == size
  {
    SlicesIndex(arr, 0, |arr|, size, k);
    if k < |Chunks(arr, size)| - 1 {
      SlicesIndex(arr, 0, |arr|, size, k + 1);
    }
  }

  // ---------------------------------------------------------------------------------------
  // `split_array`

  /** The `num` branch without `b_order`: `divmod(len, n)` gives `size` and `mod`; the first
      `mod` slices take `size + 1` elements, and the rest of the list is cut into slices of
      `size`. */
  function EvenSplit<T>(arr: seq<T>, n: nat): seq<seq<T>>
    requires 1 <= n <= |arr|
  {
    var size, mod := |arr| / n, |arr| % n;
    EvenSplitBounds(|arr|, n);
    var cut := mod * (size + 1);
    Slices(arr, 0, cut, size + 1) + Chunks(arr[cut..], size)
  }

  /** The arithmetic behind `EvenSplit`: the long slices fit in the list and the rest is a
      whole number of short slices. */
  lemma EvenSplitBounds(len: nat, n: nat)
    requires 1 <= n <= len
    ensures len / n >= 1
    ensures (len % n) * (len / n + 1) <= len
    ensures len - (len % n) * (len / n + 1) == (n - len % n) * (len / n)
  {
    var size, mod := len / n, len % n;
    assert len == size * n + mod;
    assert mod * (size + 1) == mod * size + mod;
    assert (n - mod) * size == n * size - mod * size;
  }

  /** The long slices come first, every slice is non-empty, and the slices give the list
      back. */
  lemma EvenSplitShape<T>(arr: seq<T>, n: nat)
    requires 1 <= n <= |arr|
    ensures |EvenSplit(arr, n)| == n
    ensures Flatten(EvenSplit(arr, n)) == arr
    ensures forall k :: 0 <= k < n ==>
              |EvenSplit(arr, n)[k]| == if k < |arr| % n then |arr| / n + 1 else |arr| / n
  {
    var size, mod := |arr| / n, |arr| % n;
    EvenSplitBounds(|arr|, n);
    var cut := mod * (size + 1);
    var rest := arr[cut..];
    StartIsProduct(mod, size + 1);
    StartIsProduct(n - mod, size);
    EvenSplitParts(arr, cut, rest, size, mod, n);
  }

  lemma EvenSplitParts<T>(arr: seq<T>, cut: nat, rest: seq<T>, size: nat, mod: nat, n: nat)
    requires size >= 1 && mod < n && cut == Start(mod, size + 1) && cut <= |arr|
    requires rest == arr[cut..] && |rest| == Start(n - mod, size)
    ensures var c := Slices(arr, 0, cut, size + 1) + Chunks(rest, size);
            && |c| == n && Flatten(c) == arr
            && forall k :: 0 <= k < n ==> |c[k]| == if k < mod then size + 1 else size
  {
    SlicesExact(arr, 0, cut, mod, size + 1);
    SlicesExact(rest, 0, |rest|, n - mod, size);
    FlattenAppend(Slices(arr, 0, cut, size + 1), Chunks(rest, size));
    assert rest[0..|rest|] == rest;
    assert arr[0..cut] + rest == arr;
  }

  /** The `num` branch with `b_order`: element `i` goes to list `i % n`. */
  function RoundRobin<T>(arr: seq<T>, n: nat): (r: seq<seq<T>>)
    requires n >= 1
    ensures |r| == n
  {
    if |arr| == 0 then EmptyParts(n)
    else
      var r := RoundRobin(arr[..|arr| - 1], n);
      var j := (|arr| - 1) % n;
      r[j := r[j] + [arr[|arr| - 1]]]
  }

  /** How many of the indices `0 .. len - 1` leave remainder `j` modulo `n`. */
  function Residues(len: nat, n: nat, j: nat): nat
    requires j < n
  {
    (len + n - 1 - j) / n
  }

  /** Index `len` adds one to the count of its own remainder and nothing to the others, and
      it is the next index of that remainder. */
  lemma ResiduesStep(len: nat, n: nat, j: nat)
    requires j < n
    ensures Residues(len + 1, n, j) == Residues(len, n, j) + (if len % n == j then 1 else 0)
    ensures len % n == j ==> j + Residues(len, n, j) * n == len
  {
    var q, m := len / n, len % n;
    assert len == q * n + m;
    assert (q + 1) * n == q * n + n;
    if m == j {
      DivShift(q, n - 1, n);
      DivShift(q + 1, 0, n);
    } else if m > j {
      DivShift(q + 1, m - j - 1, n);
      DivShift(q + 1, m - j, n);
    } else {
      DivShift(q, n - 1 - (j - m), n);
      DivShift(q, n - (j - m), n);
    }
  }

  /** List `j` holds the elements at `j`, `j + n`, `j + 2n`, ..., in that order. */
  lemma {:induction false} RoundRobinIndex<T>(arr: seq<T>, n: nat, j: nat)
    requires n >= 1 && j < n
    ensures |RoundRobin(arr, n)[j]| == Residues(|arr|, n, j)
    ensures forall k :: 0 <= k < |RoundRobin(arr, n)[j]| ==>
              j + Start(k, n) < |arr| && RoundRobin(arr, n)[j][k] == arr[j + Start(k, n)]
    decreases |arr|
  {
    if |arr| == 0 {
      DivShift(0, n - 1 - j, n);
    } else {
      var len := |arr| - 1;
      var prefix := arr[..len];
      RoundRobinIndex(prefix, n, j);
      ResiduesStep(len, n, j);
      var before := RoundRobin(prefix, n)[j];
      var now := RoundRobin(arr, n)[j];
      assert now == if len % n == j then before + [arr[len]] else before;
      forall k | 0 <= k < |now|
        ensures j + Start(k, n) < |arr| && now[k] == arr[j + Start(k, n)]
      {
        if k < |before| {
          assert now[k] == before[k] == prefix[j + Start(k, n)];
        } else {
          assert len % n == j && k == Residues(len, n, j);
          NextResidue(len, n, j, k);
        }
      }
    }
  }

  lemma NextResidue(len: nat, n: nat, j: nat, k: nat)
    requires j < n && len % n == j && k == Residues(len, n, j)
    ensures j + Start(k, n) == len
  {
    ResiduesStep(len, n, j);
    StartIsProduct(k, n);
  }

  /** When there are at least `n` elements every list gets one. */
  lemma RoundRobinNonEmpty<T>(arr: seq<T>, n: nat, j: nat)
    requires 1 <= n <= |arr| && j < n
    ensures RoundRobin(arr, n)[j] != []
  {
    RoundRobinIndex(arr, n, j);
    var x := |arr| + n - 1 - j;
    DivPlus(x - n, n);
  }

  lemma RoundRobinList<T>(arr: seq<T>, n: nat, j: nat)
    requires 1 <= n <= |arr| && j < n
    ensures RoundRobin(arr, n)[j] != []
    ensures forall k :: 0 <= k < |RoundRobin(arr, n)[j]| ==>
              j + k * n < |arr| && RoundRobin(arr, n)[j][k] == arr[j + k * n]
  {
    RoundRobinNonEmpty(arr, n, j);
    RoundRobinIndex(arr, n, j);
    forall k | 0 <= k < |RoundRobin(arr, n)[j]|
      ensures j + k * n < |arr| && RoundRobin(arr, n)[j][k] == arr[j + k * n]
    {
      StartIsProduct(k, n);
    }
  }

  /** Dealing the elements out neither loses nor duplicates any. */
  lemma {:induction false} RoundRobinElements<T>(arr: seq<T>, n: nat)
    requires n >= 1
    ensures multiset(Flatten(RoundRobin(arr, n))) == multiset(arr)
    decreases |arr|
  {
    if |arr| == 0 {
      FlattenEmpty<T>(n);
    } else {
      var len := |arr| - 1;
      var r := RoundRobin(arr[..len], n);
      var j := len % n;
      assert RoundRobin(arr, n) == r[j := r[j] + [arr[len]]];
      RoundRobinElements(arr[..len], n);
      FlattenUpdate(r, j, arr[len]);
      assert arr == arr[..len] + [arr[len]];
      assert multiset(arr) == multiset(arr[..len]) + multiset{arr[len]};
    }
  }

  /** `num` is used only when it is truthy: `None` and `0` fall through to `size`. */
  predicate NumGiven(num: Option<int>) {
    num.Some? && num.value != 0
  }

  /** `split_array(arr, num, size, b_order)`. An `AssertionError` becomes `Err` with its
      message. */
  function SplitArray<T>(arr: seq<T>, num: Option<int>, size: int, bOrder: bool)
    : (r: Result<seq<seq<T>>, string>)
    ensures |arr| == 0 ==> r == Ok([])
    ensures r.Err? <==> |arr| > 0 && (if NumGiven(num) then num.value < 1 else size < 1)
    ensures r.Err? ==> (r.error == if NumGiven(num) then "Num is < 1" else "Size is < 1")
  {
    if |arr| == 0 then Ok([])
    else if NumGiven(num) then
      if num.value < 1 then Err("Num is < 1")
      else
        var n := if num.value < |arr| then num.value else |arr|;
        if !bOrder then Ok(EvenSplit(arr, n)) else Ok(RoundRobin(arr, n))
    else if size < 1 then Err("Size is < 1")
    else Ok(Chunks(arr, size))
  }

  /** Without `num`: the chunks of `size` laid end to end give the list back, there are
      `ceil(len / size)` of them and all but the last are full. */
  lemma SplitBySize<T>(arr: seq<T>, num: Option<int>, size: int, bOrder: bool)
    requires |arr| > 0 && !NumGiven(num) && size >= 1
    ensures var r := SplitArray(arr, num, size, bOrder);
            && r.Ok? && Flatten(r.value) == arr
            && |r.value| == (|arr| + size - 1) / size
            && (forall k :: 0 <= k < |r.value| - 1 ==> |r.value[k]| == size)
            && (forall k :: 0 <= k < |r.value| ==> 1 <= |r.value[k]| <= size)
  {
    ChunksShape(arr, size);
  }

  /** With `num` and without `b_order`: `min(num, len)` contiguous chunks that give the list
      back, the longer ones first, their lengths differing by at most one. */
  lemma SplitByNum<T>(arr: seq<T>, num: int, size: int)
    requires |arr| > 0 && num >= 1
    ensures var r := SplitArray(arr, Some(num), size, false);
            var n := if num < |arr| then num else |arr|;
            && r.Ok? && |r.value| == n && Flatten(r.value) == arr
            && (forall k :: 0 <= k < n ==> |r.value[k]| >= 1)
            && (forall k, l :: 0 <= k < l < n ==> |r.value[l]| <= |r.value[k]| <= |r.value[l]| + 1)
  {
    var n := if num < |arr| then num else |arr|;
    EvenSplitShape(arr, n);
    EvenSplitBounds(|arr|, n);
  }

  /** With `num` and `b_order`: `min(num, len)` non-empty lists, list `j` holding the
      elements at `j`, `j + n`, ... in their original order, and no element lost. */
  lemma SplitByNumOrdered<T>(arr: seq<T>, num: int, size: int)
    requires |arr| > 0 && num >= 1
    ensures var r := SplitArray(arr, Some(num), size, true);
            var n := if num < |arr| then num else |arr|;
            && r.Ok? && |r.value| == n
            && multiset(Flatten(r.value)) == multiset(arr)
            && (forall j :: 0 <= j < n ==> r.value[j] != [])
            && (forall j, k :: 0 <= j < n && 0 <= k < |r.value[j]| ==>
                  j + k * n < |arr| && r.value[j][k] == arr[j + k * n])
  {
    var n := if num < |arr| then num else |arr|;
    RoundRobinElements(arr, n);
    forall j | 0 <= j < n
      ensures RoundRobin(arr, n)[j] != []
      ensures forall k :: 0 <= k < |RoundRobin(arr, n)[j]| ==>
                j + k * n < |arr| && RoundRobin(arr, n)[j][k] == arr[j + k * n]
    {
      RoundRobinList(arr, n, j);
    }
  }

  // ---------------------------------------------------------------------------------------
  // split_array_advance: balancing by a numeric key

  /** What `split_array_advance` hands back: the input itself when fewer than two parts are
      asked for, otherwise the buckets. */
  datatype Advance<T> = Unchanged(data: seq<T>) | Parts(buckets: seq<seq<T>>)

  /** Keys never increase along `s`. `key(x)` plays `x[item_name]`. */
  predicate Desc<T>(s: seq<T>, key: T -> int) {
    forall i, j :: 0 <= i < j < |s| ==> key(s[i]) >= key(s[j])
  }

  /** The elements of `s` whose key is `v`, in their order in `s`. */
  function Filter<T>(s: seq<T>, key: T -> int, v: int): seq<T> {
    if |s| == 0 then []
    else (if key(s[0]) == v then [s[0]] else []) + Filter(s[1..], key, v)
  }

  /** Puts `x` in front of the first element whose key is not above its own. */
  function Insert<T>(x: T, s: seq<T>, key: T -> int): (r: seq<T>)
    ensures |r| == |s| + 1 && multiset(r) == multiset(s) + multiset{x}
  {
    if |s| == 0 then [x]
    else if key(x) >= key(s[0]) then [x] + s
    else
      assert s == [s[0]] + s[1..];
      [s[0]] + Insert(x, s[1..], key)
  }

  /** `sorted(data, key=lambda x: x[item_name], reverse=True)`, by insertion. */
  function SortDescending<T>(s: seq<T>, key: T -> int): (r: seq<T>)
    ensures |r| == |s| && multiset(r) == multiset(s)
  {
    if |s| == 0 then []
    else
      assert s == [s[0]] + s[1..];
      Insert(s[0], SortDescending(s[1..], key), key)
  }

  /** Inserting into a non-increasing list keeps it non-increasing. */
  lemma {:induction false} InsertDesc<T>(x: T, s: seq<T>, key: T -> int)
    requires Desc(s, key)
    ensures Desc(Insert(x, s, key), key)
    decreases |s|
  {
    if |s| > 0 && key(x) < key(s[0]) {
      var t := Insert(x, s[1..], key);
      InsertDesc(x, s[1..], key);
      forall j | 0 <= j < |t| ensures key(t[j]) <= key(s[0]) {
        assert t[j] in multiset(t);
        if t[j] != x {
          assert t[j] in multiset(s[1..]);
          var k :| 0 <= k < |s[1..]| && s[1..][k] == t[j];
          assert s[1 + k] == t[j];
        }
      }
    }
  }

  /** The elements keyed `v` keep their order through an insertion: `x` lands after every
      element with a larger key. */
  lemma {:induction false} InsertFilter<T>(x: T, s: seq<T>, key: T -> int, v: int)
    ensures Filter(Insert(x, s, key), key, v)
            == (if key(x) == v then [x] else []) + Filter(s, key, v)
    decreases |s|
  {
    if |s| == 0 {
      FilterCons(x, s, key, v);
    } else if key(x) >= key(s[0]) {
      FilterCons(x, s, key, v);
    } else {
      InsertFilter(x, s[1..], key, v);
      InsertFilterAfter(x, s, key, v);
    }
  }

  /** The step of `InsertFilter` where `x` goes past the first element. */
  lemma InsertFilterAfter<T>(x: T, s: seq<T>, key: T -> int, v: int)
    requires |s| > 0 && key(x) < key(s[0])
    requires Filter(Insert(x, s[1..], key), key, v)
             == (if key(x) == v then [x] else []) + Filter(s[1..], key, v)
    ensures Filter(Insert(x, s, key), key, v)
            == (if key(x) == v then [x] else []) + Filter(s, key, v)
  {
    var t := Insert(x, s[1..], key);
    assert Insert(x, s, key) == [s[0]] + t;
    FilterCons(s[0], t, key, v);
    var rest := Filter(s[1..], key, v);
    if key(x) == v {
      FilterSkips(s, key, v);
      FilterSkips([s[0]] + t, key, v);
      assert ([s[0]] + t)[1..] == t;
    } else {
      var ps := if key(s[0]) == v then [s[0]] else [];
      assert Filter(t, key, v) == rest;
      assert Filter(s, key, v) == ps + rest;
      assert [] + (ps + rest) == ps + rest;
    }
  }

  /** An element keyed other than `v` is not in the filter. */
  lemma FilterSkips<T>(s: seq<T>, key: T -> int, v: int)
    requires |s| > 0 && key(s[0]) != v
    ensures Filter(s, key, v) == Filter(s[1..], key, v)
  {
    assert Filter(s, key, v) == [] + Filter(s[1..], key, v);
  }

  lemma FilterCons<T>(x: T, s: seq<T>, key: T -> int, v: int)
    ensures Filter([x] + s, key, v) == (if key(x) == v then [x] else []) + Filter(s, key, v)
  {
    assert ([x] + s)[1..] == s;
  }

  /** The result of the sort is non-increasing. */
  lemma {:induction false} SortDescendingSorted<T>(s: seq<T>, key: T -> int)
    ensures Desc(SortDescending(s, key), key)
    decreases |s|
  {
    if |s| > 0 {
      SortDescendingSorted(s[1..], key);
      InsertDesc(s[0], SortDescending(s[1..], key), key);
    }
  }

  /** The sort is stable: the elements sharing a key come out in their input order. */
  lemma {:induction false} SortDescendingStable<T>(s: seq<T>, key: T -> int, v: int)
    ensures Filter(SortDescending(s, key), key, v) == Filter(s, key, v)
    decreases |s|
  {
    if |s| > 0 {
      SortDescendingStable(s[1..], key, v);
      InsertFilter(s[0], SortDescending(s[1..], key), key, v);
    }
  }

  /** The key total of one bucket, the running value `arr_value[i]` keeps. */
  function Sum<T>(s: seq<T>, key: T -> int): int {
    if |s| == 0 then 0 else Sum(s[..|s| - 1], key) + key(s[|s| - 1])
  }

  function Sums<T>(b: seq<seq<T>>, key: T -> int): (r: seq<int>)
    ensures |r| == |b|
  {
    seq(|b|, i requires 0 <= i < |b| => Sum(b[i], key))
  }

  /** `v.index(min(v))`: the first position holding the smallest value. */
  function ArgMin(v: seq<int>): (i: nat)
    requires |v| > 0
    ensures i < |v|
    ensures forall k :: 0 <= k < |v| ==> v[i] <= v[k]
    ensures forall k :: 0 <= k < i ==> v[k] > v[i]
  {
    if |v| == 1 then 0
    else
      var j := ArgMin(v[1..]);
      if v[0] <= v[1 + j] then 0 else 1 + j
  }

  /** One step of the loop: `x` joins the first bucket with the smallest total. */
  function Place<T>(b: seq<seq<T>>, x: T, key: T -> int): seq<seq<T>>
    requires |b| > 0
  {
    var i := ArgMin(Sums(b, key));
    b[i := b[i] + [x]]
  }

  /** The buckets after the loop has dealt out `items` in order, as a reference
      definition. */
  function Distributed<T>(items: seq<T>, n: nat, key: T -> int): (r: seq<seq<T>>)
    requires n > 0
    ensures |r| == n
  {
    if |items| == 0 then EmptyParts(n)
    else Place(Distributed(items[..|items| - 1], n, key), items[|items| - 1], key)
  }

  /** Every element of every bucket has a key of at least `m`. */
  predicate AllAtLeast<T>(b: seq<seq<T>>, key: T -> int, m: int) {
    forall i, j :: 0 <= i < |b| && 0 <= j < |b[i]| ==> key(b[i][j]) >= m
  }

  /** No two bucket totals differ by more than `m`. */
  predicate Balanced<T>(b: seq<seq<T>>, key: T -> int, m: int) {
    forall i, j :: 0 <= i < |b| && 0 <= j < |b| ==> Sum(b[i], key) - Sum(b[j], key) <= m
  }

  /** The buckets hold exactly the items dealt out. */
  lemma {:induction false} DistributedElements<T>(items: seq<T>, n: nat, key: T -> int)
    requires n > 0
    ensures multiset(Flatten(Distributed(items, n, key))) == multiset(items)
    decreases |items|
  {
    if |items| == 0 {
      FlattenEmpty<T>(n);
    } else {
      var last := |items| - 1;
      var b := Distributed(items[..last], n, key);
      DistributedElements(items[..last], n, key);
      var i := ArgMin(Sums(b, key));
      FlattenUpdate(b, i, items[last]);
      assert Distributed(items, n, key) == b[i := b[i] + [items[last]]];
      assert items == items[..last] + [items[last]];
      assert multiset(items) == multiset(items[..last]) + multiset{items[last]};
    }
  }

  /** Items whose keys are all at least `m` fill buckets whose keys are all at least `m`. */
  lemma {:induction false} DistributedAtLeast<T>(items: seq<T>, n: nat, key: T -> int, m: int)
    requires n > 0
    requires forall k :: 0 <= k < |items| ==> key(items[k]) >= m
    ensures AllAtLeast(Distributed(items, n, key), key, m)
    decreases |items|
  {
    if |items| > 0 {
      DistributedAtLeast(items[..|items| - 1], n, key, m);
    }
  }

  /** Dealing out a non-increasing list leaves every bucket non-increasing. */
  lemma {:induction false} DistributedDesc<T>(items: seq<T>, n: nat, key: T -> int)
    requires n > 0 && Desc(items, key)
    ensures forall i :: 0 <= i < n ==> Desc(Distributed(items, n, key)[i], key)
    decreases |items|
  {
    if |items| > 0 {
      var last := |items| - 1;
      var x := items[last];
      var b := Distributed(items[..last], n, key);
      DistributedDesc(items[..last], n, key);
      DistributedAtLeast(items[..last], n, key, key(x));
      var p := ArgMin(Sums(b, key));
      forall i | 0 <= i < n ensures Desc(Distributed(items, n, key)[i], key) {
        if i == p {
          assert Distributed(items, n, key)[i] == b[p] + [x];
          AppendDesc(b[p], x, key);
        }
      }
    }
  }

  lemma AppendDesc<T>(s: seq<T>, x: T, key: T -> int)
    requires Desc(s, key) && forall j :: 0 <= j < |s| ==> key(s[j]) >= key(x)
    ensures Desc(s + [x], key)
  {
  }

  /** Placing an item whose key lies between 0 and `m` keeps the totals within `m` of each
      other: it goes to a smallest bucket, which it can lift at most `m` above the rest. */
  lemma PlaceBalanced<T>(b: seq<seq<T>>, x: T, key: T -> int, m: int)
    requires |b| > 0 && Balanced(b, key, m) && 0 <= key(x) <= m
    ensures Balanced(Place(b, x, key), key, m)
  {
    var p := ArgMin(Sums(b, key));
    var b' := Place(b, x, key);
    var q := b[p] + [x];
    assert q[..|q| - 1] == b[p];
    assert Sum(b'[p], key) == Sum(b[p], key) + key(x);
    forall i | 0 <= i < |b| ensures Sum(b[p], key) <= Sum(b[i], key) {
      assert Sums(b, key)[i] == Sum(b[i], key);
    }
  }

  /** With keys between 0 and `m`, the greedy loop keeps every two bucket totals within `m`
      of each other. */
  lemma {:induction false} DistributedBalanced<T>(items: seq<T>, n: nat, key: T -> int, m: int)
    requires n > 0 && m >= 0
    requires forall k :: 0 <= k < |items| ==> 0 <= key(items[k]) <= m
    ensures Balanced(Distributed(items, n, key), key, m)
    decreases |items|
  {
    if |items| == 0 {
      assert forall i :: 0 <= i < n ==> Distributed(items, n, key)[i] == [];
    } else {
      var last := |items| - 1;
      DistributedBalanced(items[..last], n, key, m);
      PlaceBalanced(Distributed(items[..last], n, key), items[last], key, m);
    }
  }

  /** The largest key in `s`, or 0 when there is none above 0. */
  function MaxKey<T>(s: seq<T>, key: T -> int): (m: int)
    ensures m >= 0 && forall x :: x in s ==> key(x) <= m
    ensures m == 0 || exists k :: 0 <= k < |s| && key(s[k]) == m
  {
    if |s| == 0 then 0
    else
      var m := MaxKey(s[1..], key);
      assert forall x :: x in s[1..] ==> x in s;
      assert forall x :: x in s ==> x == s[0] || x in s[1..];
      if key(s[0]) > m then key(s[0]) else m
  }

  /** `split_array_advance(data, item_name, part_num)`. The loop deals the sorted items out
      one by one, each to the first bucket with the smallest running total. */
  method SplitArrayAdvance<T>(data: seq<T>, key: T -> int, partNum: int) returns (r: Advance<T>)
    ensures partNum < 2 ==> r == Unchanged(data)
    ensures partNum >= 2 ==> r == Parts(Distributed(SortDescending(data, key), partNum, key))
  {
    if partNum < 2 {
      return Unchanged(data);
    }
    var items := SortDescending(data, key);
    var ret: seq<seq<T>> := [];
    var values: seq<int> := [];
    var k := 0;
    while k < partNum
      invariant 0 <= k <= partNum
      invariant ret == EmptyParts(k) && |values| == k
      invariant forall j :: 0 <= j < k ==> values[j] == 0
    {
      ret := ret + [[]];
      values := values + [0];
      k := k + 1;
    }
    SumsEmpty(ret, values, key);
    k := 0;
    while k < |items|
      invariant 0 <= k <= |items|
      invariant |ret| == partNum
      invariant ret == Distributed(items[..k], partNum, key)
      invariant values == Sums(ret, key)
    {
      var x := items[k];
      var i := ArgMin(values);
      PlaceStep(ret, values, x, key, i);
      SumsUpdate(ret, values, x, key, i);
      DistributedStep(items, k, partNum, key);
      ret, values := ret[i := ret[i] + [x]], values[i := values[i] + key(x)];
      k := k + 1;
    }
    assert items[..k] == items;
    return Parts(ret);
  }

  lemma SumsEmpty<T>(b: seq<seq<T>>, values: seq<int>, key: T -> int)
    requires |values| == |b| && forall j :: 0 <= j < |b| ==> b[j] == [] && values[j] == 0
    ensures values == Sums(b, key)
  {
  }

  /** One pass of the loop body does what `Place` says, and keeps the running totals. */
  lemma PlaceStep<T>(b: seq<seq<T>>, values: seq<int>, x: T, key: T -> int, i: nat)
    requires |b| > 0 && values == Sums(b, key) && i == ArgMin(values)
    ensures b[i := b[i] + [x]] == Place(b, x, key)
  {
  }

  /** Appending `x` to bucket `i` adds its key to that bucket's running total only. */
  lemma SumsUpdate<T>(b: seq<seq<T>>, values: seq<int>, x: T, key: T -> int, i: nat)
    requires values == Sums(b, key) && i < |b|
    ensures values[i := values[i] + key(x)] == Sums(b[i := b[i] + [x]], key)
  {
    SumSnoc(b[i], x, key);
    var b' := b[i := b[i] + [x]];
    forall j | 0 <= j < |b|
      ensures values[i := values[i] + key(x)][j] == Sums(b', key)[j]
    {
    }
  }

  lemma SumSnoc<T>(s: seq<T>, x: T, key: T -> int)
    ensures Sum(s + [x], key) == Sum(s, key) + key(x)
  {
    assert (s + [x])[..|s|] == s;
  }

  lemma DistributedStep<T>(items: seq<T>, k: nat, n: nat, key: T -> int)
    requires k < |items| && n > 0
    ensures Distributed(items[..k + 1], n, key) == Place(Distributed(items[..k], n, key), items[k], key)
  {
    assert items[..k + 1][..k] == items[..k];
  }

  /** What `split_array_advance` promises with two or more parts: `part_num` buckets that
      together hold exactly the input, each non-increasing by key, and, when no key is
      negative, totals that differ by at most the largest key. */
  lemma SplitArrayAdvanceParts<T>(data: seq<T>, key: T -> int, partNum: int)
    requires partNum >= 2
    ensures var b := Distributed(SortDescending(data, key), partNum, key);
            && |b| == partNum
            && multiset(Flatten(b)) == multiset(data)
            && (forall i :: 0 <= i < partNum ==> Desc(b[i], key))
            && ((forall x :: x in data ==> key(x) >= 0) ==> Balanced(b, key, MaxKey(data, key)))
  {
    var items := SortDescending(data, key);
    DistributedElements(items, partNum, key);
    SortDescendingSorted(data, key);
    DistributedDesc(items, partNum, key);
    if forall x :: x in data ==> key(x) >= 0 {
      forall k | 0 <= k < |items|
        ensures 0 <= key(items[k]) <= MaxKey(data, key)
      {
        assert items[k] in multiset(data);
      }
      DistributedBalanced(items, partNum, key, MaxKey(data, key));
    }
  }
}
