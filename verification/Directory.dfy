/**
 * The queue directory: the size of each file, by its millisecond timestamp.  Bounds, listings in
 * the order of the file names, and byte sums of its key sets.
 */
module Directory {
  import opened FileNames

  type Files = map<int, nat>

  // ----- bounds

  lemma Inhabited(s: set<int>)
    ensures s == {} || exists x :: x in s
  {
    if forall x :: x !in s {
      assert s == {};
    }
  }

  ghost predicate IsMin(m: int, s: set<int>) {
    m in s && forall x :: x in s ==> m <= x
  }

  ghost predicate IsMax(m: int, s: set<int>) {
    m in s && forall x :: x in s ==> x <= m
  }

  lemma {:induction false} BoundsExist(s: set<int>)
    requires s != {}
    ensures exists m :: IsMin(m, s)
    ensures exists m :: IsMax(m, s)
    decreases |s|
  {
    Inhabited(s);
    var x :| x in s;
    var rest := s - {x};
    assert forall y :: y in s <==> y == x || y in rest;
    if rest == {} {
      assert IsMin(x, s) && IsMax(x, s);
    } else {
      BoundsExist(rest);
      var lo :| IsMin(lo, rest);
      var hi :| IsMax(hi, rest);
      assert IsMin(if x < lo then x else lo, s);
      assert IsMax(if hi < x then x else hi, s);
    }
  }

  ghost function Min(s: set<int>): (m: int)
    requires s != {}
    ensures IsMin(m, s)
  {
    BoundsExist(s);
    var m :| IsMin(m, s);
    m
  }

  ghost function Max(s: set<int>): (m: int)
    requires s != {}
    ensures IsMax(m, s)
  {
    BoundsExist(s);
    var m :| IsMax(m, s);
    m
  }

  // ----- listings

  ghost predicate IsFirst(m: int, s: set<int>) {
    m in s && forall x :: x in s && x != m ==> Before(m, x)
  }

  ghost predicate IsLast(m: int, s: set<int>) {
    m in s && forall x :: x in s && x != m ==> Before(x, m)
  }

  lemma {:induction false} EndsExist(s: set<int>)
    requires s != {}
    ensures exists m :: IsFirst(m, s)
    ensures exists m :: IsLast(m, s)
    decreases |s|
  {
    Inhabited(s);
    var x :| x in s;
    var rest := s - {x};
    assert forall y :: y in s <==> y == x || y in rest;
    if rest == {} {
      assert IsFirst(x, s) && IsLast(x, s);
    } else {
      EndsExist(rest);
      var lo :| IsFirst(lo, rest);
      var hi :| IsLast(hi, rest);
      FirstOfMore(x, lo, rest, s);
      LastOfMore(x, hi, rest, s);
    }
  }

  lemma FirstOfMore(x: int, lo: int, rest: set<int>, s: set<int>)
    requires s == {x} + rest && x !in rest && IsFirst(lo, rest)
    ensures IsFirst(if Before(x, lo) then x else lo, s)
  {
    BeforeTotal(x, lo);
    forall y | y in rest && y != lo && Before(x, lo) ensures Before(x, y) {
      BeforeTransitive(x, lo, y);
    }
  }

  lemma LastOfMore(x: int, hi: int, rest: set<int>, s: set<int>)
    requires s == {x} + rest && x !in rest && IsLast(hi, rest)
    ensures IsLast(if Before(hi, x) then x else hi, s)
  {
    BeforeTotal(x, hi);
    forall y | y in rest && y != hi && Before(hi, x) ensures Before(y, x) {
      BeforeTransitive(y, hi, x);
    }
  }

  /** The file the listing starts with. */
  ghost function First(s: set<int>): (m: int)
    requires s != {}
    ensures IsFirst(m, s)
  {
    EndsExist(s);
    var m :| IsFirst(m, s);
    m
  }

  /** The file the listing ends with. */
  ghost function Last(s: set<int>): (m: int)
    requires s != {}
    ensures IsLast(m, s)
  {
    EndsExist(s);
    var m :| IsLast(m, s);
    m
  }

  lemma OneFirst(m: int, s: set<int>)
    requires IsFirst(m, s)
    ensures m == First(s)
  {
    BeforeTotal(m, First(s));
  }

  lemma OneLast(m: int, s: set<int>)
    requires IsLast(m, s)
    ensures m == Last(s)
  {
    BeforeTotal(m, Last(s));
  }

  predicate Increasing(files: seq<int>) {
    forall i, j :: 0 <= i < j < |files| ==> Before(files[i], files[j])
  }

  /** The files in the order of their names. */
  ghost function Sorted(s: set<int>): seq<int>
    decreases |s|
  {
    if s == {} then [] else [First(s)] + Sorted(s - {First(s)})
  }

  function Elements(files: seq<int>): set<int> {
    set x | x in files
  }

  lemma ConsElements(m: int, rest: seq<int>)
    ensures Elements([m] + rest) == {m} + Elements(rest)
  {
    assert forall x :: x in [m] + rest <==> x == m || x in rest;
  }

  lemma ConsIncreasing(m: int, rest: seq<int>)
    requires Increasing(rest) && forall x :: x in Elements(rest) ==> Before(m, x)
    ensures Increasing([m] + rest)
  {
    forall i | 0 <= i < |rest| ensures Before(m, rest[i]) {
      assert rest[i] in Elements(rest);
    }
  }

  lemma IncreasingApart(files: seq<int>, i: nat, j: nat)
    requires Increasing(files) && i < |files| && j < |files| && i != j
    ensures files[i] != files[j]
  {
    BeforeTotal(files[i], files[j]);
  }

  lemma NoRepeats(files: seq<int>)
    requires Increasing(files)
    ensures forall i, j :: 0 <= i < |files| && 0 <= j < |files| && i != j ==> files[i] != files[j]
  {
    forall i: nat, j: nat | i < |files| && j < |files| && i != j ensures files[i] != files[j] {
      IncreasingApart(files, i, j);
    }
  }

  lemma {:induction false} IncreasingDistinct(files: seq<int>)
    requires Increasing(files)
    ensures |Elements(files)| == |files|
  {
    if files != [] {
      var front, last := files[..|files|-1], files[|files|-1];
      IncreasingDistinct(front);
      assert files == front + [last];
      assert Elements(files) == Elements(front) + {last};
      forall i: nat | i < |front| ensures front[i] != last {
        IncreasingApart(files, i, |front|);
      }
    }
  }

  lemma {:induction false} SortedOrder(s: set<int>)
    ensures Increasing(Sorted(s)) && Elements(Sorted(s)) == s
    decreases |s|
  {
    if s == {} {
      assert Sorted(s) == [];
    } else {
      var m := First(s);
      var rest := Sorted(s - {m});
      SortedOrder(s - {m});
      ConsElements(m, rest);
      ConsIncreasing(m, rest);
      assert {m} + (s - {m}) == s;
    }
  }

  lemma SortedListing(s: set<int>)
    ensures Increasing(Sorted(s)) && Elements(Sorted(s)) == s && |Sorted(s)| == |s|
  {
    SortedOrder(s);
    IncreasingDistinct(Sorted(s));
  }

  lemma RestElements(files: seq<int>)
    requires Increasing(files) && files != []
    ensures Elements(files[1..]) == Elements(files) - {files[0]}
  {
    ConsElements(files[0], files[1..]);
    assert files == [files[0]] + files[1..];
    if files[0] in files[1..] {
      var i: nat :| i < |files| - 1 && files[1..][i] == files[0];
      IncreasingApart(files, 0, i + 1);
    }
  }

  lemma HeadIsFirst(files: seq<int>)
    requires Increasing(files) && files != []
    ensures files[0] in Elements(files) && files[0] == First(Elements(files))
  {
    assert files[0] in Elements(files);
    OneFirst(files[0], Elements(files));
  }

  /** A listing is determined by what it lists. */
  lemma {:induction false} ListingUnique(files: seq<int>)
    requires Increasing(files)
    ensures files == Sorted(Elements(files))
  {
    if files == [] {
      assert Elements(files) == {};
    } else {
      HeadIsFirst(files);
      RestElements(files);
      ListingUnique(files[1..]);
      assert files == [files[0]] + Sorted(Elements(files) - {files[0]});
    }
  }

  lemma SortedEnds(s: set<int>)
    requires s != {}
    ensures |Sorted(s)| == |s| > 0
    ensures Sorted(s)[0] == First(s) && Sorted(s)[|s|-1] == Last(s)
  {
    SortedListing(s);
    var f := Sorted(s);
    assert f[0] in Elements(f) && f[|s|-1] in Elements(f);
    OneLast(f[|s|-1], s);
  }

  // ----- listings that are in time order

  /** On these files, name order is time order. */
  ghost predicate Aligned(s: set<int>) {
    forall a, b :: a in s && b in s && a < b ==> Before(a, b)
  }

  lemma AlignedEnds(s: set<int>)
    requires s != {} && Aligned(s)
    ensures First(s) == Min(s) && Last(s) == Max(s)
  {
    OneFirst(Min(s), s);
    OneLast(Max(s), s);
  }

  /** Names of one length are aligned. */
  lemma EraIsAligned(s: set<int>)
    requires forall k :: k in s ==> InEra(k)
    ensures Aligned(s)
  {
    forall a, b | a in s && b in s && a < b ensures Before(a, b) {
      EraHasThirteenDigits(a);
      EraHasThirteenDigits(b);
      NameOrderIsTimeOrder(a, b);
    }
  }

  /** Times from 1970 on. */
  predicate Modern(s: set<int>) {
    forall k :: k in s ==> k >= 0
  }

  /** The listing starts with the oldest image exactly when no longer name starts with less than its time. */
  lemma FirstIsOldestIff(s: set<int>)
    requires s != {} && Modern(s)
    ensures First(s) == Min(s) <==>
            forall k :: k in s && k > Min(s) ==> Min(s) <= Lead(k, Prefix(Min(s), k))
  {
    var m := Min(s);
    forall k | k in s && k > m ensures Before(m, k) <==> m <= Lead(k, Prefix(m, k)) {
      NameOrderIff(m, k);
    }
    if First(s) != m {
      BeforeTotal(First(s), m);
    }
    if forall k :: k in s && k > m ==> Before(m, k) {
      OneFirst(m, s);
    }
  }

  /** The listing ends with the newest image exactly when no shorter name's time is above its first digits. */
  lemma LastIsNewestIff(s: set<int>)
    requires s != {} && Modern(s)
    ensures Last(s) == Max(s) <==>
            forall k :: k in s && k < Max(s) ==> k <= Lead(Max(s), Prefix(k, Max(s)))
  {
    var m := Max(s);
    forall k | k in s && k < m ensures Before(k, m) <==> k <= Lead(m, Prefix(k, m)) {
      NameOrderIff(k, m);
    }
    if Last(s) != m {
      BeforeTotal(Last(s), m);
    }
    if forall k :: k in s && k < m ==> Before(k, m) {
      OneLast(m, s);
    }
  }

  /** How many digits the shorter name has. */
  function Prefix(a: nat, b: nat): (k: nat)
    ensures 0 < k <= Digits(a) && k <= Digits(b)
  {
    LongerFromTen(a);
    LongerFromTen(b);
    if Digits(a) <= Digits(b) then Digits(a) else Digits(b)
  }

  // ----- byte sums

  ghost function Bytes(dir: Files, keys: set<int>): nat
    requires keys <= dir.Keys
    decreases |keys|
  {
    if keys == {} then 0
    else
      Inhabited(keys);
      var k :| k in keys;
      dir[k] + Bytes(dir, keys - {k})
  }

  ghost function Total(dir: Files): nat {
    Bytes(dir, dir.Keys)
  }

  lemma {:induction false} BytesWithout(dir: Files, keys: set<int>, k: int)
    requires k in keys && keys <= dir.Keys
    ensures Bytes(dir, keys) == dir[k] + Bytes(dir, keys - {k})
    decreases |keys|
  {
    var x :| x in keys && Bytes(dir, keys) == dir[x] + Bytes(dir, keys - {x});
    if x != k {
      BytesWithout(dir, keys - {x}, k);
      BytesWithout(dir, keys - {k}, x);
      assert keys - {x} - {k} == keys - {k} - {x};
    }
  }

  lemma {:induction false} BytesAgree(dir: Files, dir': Files, keys: set<int>)
    requires keys <= dir.Keys && keys <= dir'.Keys
    requires forall k :: k in keys ==> dir[k] == dir'[k]
    ensures Bytes(dir, keys) == Bytes(dir', keys)
    decreases |keys|
  {
    if keys != {} {
      Inhabited(keys);
      var k :| k in keys;
      BytesWithout(dir, keys, k);
      BytesWithout(dir', keys, k);
      BytesAgree(dir, dir', keys - {k});
    }
  }

  lemma {:induction false} BytesSplit(dir: Files, gone: set<int>)
    requires gone <= dir.Keys
    ensures Total(dir) == Bytes(dir, gone) + Bytes(dir, dir.Keys - gone)
    decreases |gone|
  {
    if gone == {} {
      assert dir.Keys - gone == dir.Keys;
    } else {
      Inhabited(gone);
      var k :| k in gone;
      BytesSplit(dir, gone - {k});
      BytesWithout(dir, gone, k);
      BytesWithout(dir, dir.Keys - (gone - {k}), k);
      assert dir.Keys - (gone - {k}) - {k} == dir.Keys - gone;
    }
  }

  /** Removing files removes exactly their bytes. */
  lemma {:induction false} TotalAfterRemoval(dir: Files, gone: set<int>)
    requires gone <= dir.Keys
    ensures Total(dir - gone) == Total(dir) - Bytes(dir, gone)
    ensures |(dir - gone).Keys| == |dir.Keys| - |gone|
  {
    BytesSplit(dir, gone);
    assert (dir - gone).Keys == dir.Keys - gone;
    BytesAgree(dir, dir - gone, dir.Keys - gone);
  }

  lemma TotalAfterAdding(dir: Files, k: int, size: nat)
    requires k !in dir
    ensures Total(dir[k := size]) == Total(dir) + size
    ensures |dir[k := size].Keys| == |dir.Keys| + 1
  {
    var dir' := dir[k := size];
    assert dir'.Keys == dir.Keys + {k};
    BytesWithout(dir', dir'.Keys, k);
    assert dir'.Keys - {k} == dir.Keys;
    BytesAgree(dir, dir', dir.Keys);
  }

  // ----- the first free millisecond

  ghost function Ahead(keys: set<int>, ms: int): set<int> {
    set k | k in keys && k >= ms
  }

  /** The first millisecond from `ms` on that no file occupies. */
  ghost function FreeSlot(keys: set<int>, ms: int): int
    decreases |Ahead(keys, ms)|
  {
    if ms !in keys then ms
    else
      assert Ahead(keys, ms + 1) == Ahead(keys, ms) - {ms};
      FreeSlot(keys, ms + 1)
  }

  lemma {:induction false} FreeSlotIsLeast(keys: set<int>, ms: int)
    ensures var f := FreeSlot(keys, ms);
            f !in keys && ms <= f <= ms + |Ahead(keys, ms)| && forall k :: ms <= k < f ==> k in keys
    decreases |Ahead(keys, ms)|
  {
    if ms in keys {
      assert Ahead(keys, ms + 1) == Ahead(keys, ms) - {ms};
      FreeSlotIsLeast(keys, ms + 1);
    }
  }
}
