/** The CPUHeavy contract: an in-place quicksort over 256-bit unsigned integers with checked arithmetic.
    Every variable that the contract declares as `uint` has type `Word` here, so that the verifier
    checks each assignment for overflow and underflow, as the compiled contract does at run time.
    `cost` counts the evaluations of the two comparisons that drive the scanning loops. */
module CpuHeavy {

  const WORD_LIMIT: int := 0x1_0000_0000_0000_0000_0000_0000_0000_0000_0000_0000_0000_0000_0000_0000_0000_0000

  type Word = n: int | 0 <= n < WORD_LIMIT

  // ---------- ranges, both bounds included ----------

  ghost predicate Sorted(s: seq<Word>, left: int, right: int)
    requires 0 <= left && right < |s|
  {
    forall x, y :: left <= x < y <= right ==> s[x] <= s[y]
  }

  ghost predicate Descending(s: seq<Word>, left: int, right: int)
    requires 0 <= left && right < |s|
  {
    forall x, y :: left <= x < y <= right ==> s[x] > s[y]
  }

  /** The smallest element comes first and the others descend: what is left of a descending range
      once its maximum has been moved to the end. */
  ghost predicate MinimumThenDescending(s: seq<Word>, left: int, right: int)
    requires 0 <= left && right < |s|
  {
    && (forall y :: left < y <= right ==> s[left] < s[y])
    && Descending(s, left + 1, right)
  }

  /** `t` rearranges the cells left..right of `s` and touches nothing else. */
  ghost predicate Rearranged(s: seq<Word>, t: seq<Word>, left: int, right: int)
    requires 0 <= left <= right + 1 <= |s|
  {
    && |t| == |s|
    && multiset(t[left..right + 1]) == multiset(s[left..right + 1])
    && (forall k :: 0 <= k < left || right < k < |s| ==> t[k] == s[k])
  }

  lemma RearrangedTransitive(s: seq<Word>, t: seq<Word>, u: seq<Word>, left: int, right: int)
    requires 0 <= left <= right + 1 <= |s|
    requires Rearranged(s, t, left, right) && Rearranged(t, u, left, right)
    ensures Rearranged(s, u, left, right)
  {
  }

  lemma RearrangedWider(s: seq<Word>, t: seq<Word>, left: int, right: int, wideLeft: int, wideRight: int)
    requires 0 <= wideLeft <= left <= right + 1 <= wideRight + 1 <= |s|
    requires Rearranged(s, t, left, right)
    ensures Rearranged(s, t, wideLeft, wideRight)
  {
    assert s[wideLeft..wideRight + 1] == s[wideLeft..left] + s[left..right + 1] + s[right + 1..wideRight + 1];
    assert t[wideLeft..wideRight + 1] == t[wideLeft..left] + t[left..right + 1] + t[right + 1..wideRight + 1];
    assert s[wideLeft..left] == t[wideLeft..left];
    assert s[right + 1..wideRight + 1] == t[right + 1..wideRight + 1];
  }

  lemma SwapRearranges(s: seq<Word>, left: int, right: int, x: int, y: int)
    requires 0 <= left <= x <= right < |s| && left <= y <= right
    ensures Rearranged(s, Swapped(s, x, y), left, right)
  {
    var t := Swapped(s, x, y);
    var u, v := s[left..right + 1], t[left..right + 1];
    assert v == u[x - left := u[y - left]][y - left := u[x - left]];
  }

  /** Whatever bounds every cell of a range still does after a rearrangement of the range. */
  lemma RearrangedKeepsBounds(s: seq<Word>, t: seq<Word>, left: int, right: int, k: int)
    requires 0 <= left <= k <= right < |s|
    requires Rearranged(s, t, left, right)
    ensures exists m :: left <= m <= right && t[k] == s[m]
  {
    assert t[left..right + 1][k - left] in multiset(t[left..right + 1]);
    assert t[k] in multiset(s[left..right + 1]);
    assert t[k] in s[left..right + 1];
    var m :| 0 <= m < right + 1 - left && s[left..right + 1][m] == t[k];
    assert s[left + m] == t[k];
  }

  // ---------- cost of the workload ----------

  /** Comparisons spent on a descending range of n cells. */
  function DescendingCost(n: nat): nat {
    if n < 2 then 0 else n + 1 + MinimumThenDescendingCost(n - 1)
  }

  /** Comparisons spent on n cells holding the minimum followed by a descending range. */
  function MinimumThenDescendingCost(n: nat): nat {
    if n < 2 then 0 else n + 2 + DescendingCost(n - 1)
  }

  /** The comparisons sum up to a closed form: for the 100 cells the load tester asks for, 5197. */
  lemma {:induction false} DescendingCostClosedForm(n: nat)
    requires n >= 1
    ensures DescendingCost(n) == (n * n + 4 * n - 5) / 2
  {
    if n >= 3 {
      DescendingCostClosedForm(n - 2);
      assert n * n + 4 * n - 5 == ((n - 2) * (n - 2) + 4 * (n - 2) - 5) + 2 * (2 * n + 2);
    }
  }

  // ---------- the sort ----------

  ghost function Size(left: int, right: int): nat {
    if left <= right then right - left + 1 else 0
  }

  /** The scan of `i`: up to the first cell above the pivot's value, or to the end of the range. */
  method ScanUp(a: array<Word>, pivot: Word, start: Word, right: Word) returns (i: Word, ghost cost: nat)
    requires pivot <= start <= right < a.Length
    ensures start <= i <= right
    ensures forall k :: start <= k < i ==> a[k] <= a[pivot]
    ensures i == right || a[i] > a[pivot]
    ensures cost == i - start + 1
  {
    i := start;
    cost := 1;
    while a[i] <= a[pivot] && i < right
      invariant start <= i <= right
      invariant forall k :: start <= k < i ==> a[k] <= a[pivot]
      invariant cost == i - start + 1
      decreases right - i
    {
      i := i + 1;
      cost := cost + 1;
    }
  }

  /** The scan of `j`: down to the first cell not above the pivot's value. The pivot cell stops it. */
  method ScanDown(a: array<Word>, pivot: Word, start: Word) returns (j: Word, ghost cost: nat)
    requires pivot <= start < a.Length
    ensures pivot <= j <= start
    ensures forall k :: j < k <= start ==> a[k] > a[pivot]
    ensures a[j] <= a[pivot]
    ensures cost == start - j + 1
  {
    j := start;
    cost := 1;
    while a[j] > a[pivot]
      invariant pivot <= j <= start
      invariant forall k :: j < k <= start ==> a[k] > a[pivot]
      invariant cost == start - j + 1
      decreases j
    {
      j := j - 1;
      cost := cost + 1;
    }
  }

  /** The cells passed by `i` are at most the pivot in cell `left`, those passed by `j` above it. */
  ghost predicate Separating(t: seq<Word>, left: int, i: int, j: int, right: int)
    requires 0 <= left < right < |t|
  {
    && left <= i <= right && left <= j <= right && i <= j + 1
    && (forall k :: left <= k < i ==> t[k] <= t[left])
    && (forall k :: j < k <= right ==> t[k] > t[left])
    && (if i < j then t[i] <= t[left] else t[j] <= t[left])
    && (left < i < j ==> t[j] > t[left])
  }

  /** What the scanning loop of one call keeps: `s` is the array before it and `t` the array now. The
      last two clauses say where the loop ends, and at what cost, on the shapes of the workload. */
  ghost predicate Scanning(s: seq<Word>, t: seq<Word>, left: int, i: int, j: int, right: int, cost: int)
    requires 0 <= left < right < |s|
  {
    && Rearranged(s, t, left, right)
    && t[left] == s[left]
    && Separating(t, left, i, j, right)
    && (i == left ==> j == right && t == s && cost == 0)
    && (i > left ==> cost <= 2 * (i - left) + 2 * (right - j) + 1)
    && (i > left && Descending(s, left, right) ==> i == j == right && cost == Size(left, right) + 1 && t == s)
    && (i > left && MinimumThenDescending(s, left, right) ==>
          i == left + 1 && j == left && cost == Size(left, right) + 2 && t == s)
  }

  /** Where the two scans of a round stop. */
  ghost predicate ScansStop(t: seq<Word>, left: int, i: int, j: int, right: int, i': int, j': int)
    requires 0 <= left < right < |t|
  {
    && left <= i <= i' <= right && left <= j' <= j <= right
    && (forall k :: i <= k < i' ==> t[k] <= t[left])
    && (i' == right || t[i'] > t[left])
    && (forall k :: j' < k <= j ==> t[k] > t[left])
    && t[j'] <= t[left]
  }

  function Swapped(t: seq<Word>, i: int, j: int): (u: seq<Word>)
    requires 0 <= i < |t| && 0 <= j < |t|
    ensures |u| == |t| && u[i] == t[j] && u[j] == t[i]
    ensures forall k :: 0 <= k < |t| && k != i && k != j ==> u[k] == t[k]
  {
    t[i := t[j]][j := t[i]]
  }

  /** One round of the scanning loop: both scans, then the swap unless they have met. */
  lemma ScanRound(s: seq<Word>, t: seq<Word>, left: int, i: int, j: int, right: int, cost: int, i': int, j': int)
    requires 0 <= left < right < |s|
    requires Scanning(s, t, left, i, j, right, cost) && i < j
    requires ScansStop(t, left, i, j, right, i', j')
    ensures i < i' && i' <= j' + 1
    ensures Scanning(s, if i' < j' then Swapped(t, i', j') else t, left, i', j', right,
                     cost + (i' - i + 1) + (j - j' + 1))
  {
    ScanMoves(t, left, i, j, right, i', j');
    if i == left {
      FirstRound(s, left, right, i', j');
    }
    if i' < j' {
      SwapRearranges(t, left, right, i', j');
      RearrangedTransitive(s, t, Swapped(t, i', j'), left, right);
    }
  }

  lemma ScanMoves(t: seq<Word>, left: int, i: int, j: int, right: int, i': int, j': int)
    requires 0 <= left < right < |t|
    requires Separating(t, left, i, j, right) && i < j
    requires ScansStop(t, left, i, j, right, i', j')
    ensures i < i' && (left < i ==> j' < j)
    ensures Separating(if i' < j' then Swapped(t, i', j') else t, left, i', j', right)
  {
    assert j' == right || t[j' + 1] > t[left];
    if i' < j' {
      var u := Swapped(t, i', j');
      assert u[left] == t[left];
    }
  }

  /** On the workload's two shapes the first round is the only one. */
  lemma FirstRound(s: seq<Word>, left: int, right: int, i: int, j: int)
    requires 0 <= left < right < |s|
    requires ScansStop(s, left, left, right, right, i, j)
    ensures Descending(s, left, right) ==> i == j == right
    ensures MinimumThenDescending(s, left, right) ==> i == left + 1 && j == left
  {
    if Descending(s, left, right) {
      assert s[left] > s[right];
    }
    if MinimumThenDescending(s, left, right) {
      assert s[left] < s[left + 1];
    }
  }

  /** One call has separated the range around cell `j`: at most the pivot before it, more after it. */
  ghost predicate Partitioned(s: seq<Word>, t: seq<Word>, left: int, j: int, right: int, cost: int)
    requires 0 <= left < right < |s|
  {
    && left <= j <= right
    && Rearranged(s, t, left, right)
    && (forall k :: left <= k <= j ==> t[k] <= t[j])
    && (forall k :: j < k <= right ==> t[k] > t[j])
    && cost <= 2 * Size(left, right) + 1
    && (Descending(s, left, right) ==>
          j == right && cost == Size(left, right) + 1 && t == Swapped(s, left, right))
    && (MinimumThenDescending(s, left, right) ==> j == left && cost == Size(left, right) + 2 && t == s)
  }

  /** The scanning loops of one call and the move of the pivot to its place `j`. */
  method Partition(a: array<Word>, left: Word, right: Word) returns (j: Word, ghost cost: nat)
    requires left < right < a.Length
    modifies a
    ensures Partitioned(old(a[..]), a[..], left, j, right, cost)
  {
    var pivot: Word := left;
    var i: Word := left;
    j := right;
    cost := 0;
    ghost var s := a[..];
    while i < j
      invariant left <= i <= right && left <= j <= right
      invariant Scanning(s, a[..], left, i, j, right, cost)
      decreases right - i
    {
      ghost var t, i0, j0, cost0 := a[..], i, j, cost;
      ghost var up, down;
      i, up := ScanUp(a, pivot, i, right);
      j, down := ScanDown(a, pivot, j);
      cost := cost + up + down;
      ScanRound(s, t, left, i0, j0, right, cost0, i, j);
      if i < j {
        a[i], a[j] := a[j], a[i];
        assert a[..] == Swapped(t, i, j);
      }
    }
    ghost var t := a[..];
    a[pivot], a[j] := a[j], a[pivot];
    assert a[..] == Swapped(t, pivot, j);
    PivotPlaced(s, t, left, i, j, right, cost);
  }

  /** The last swap of a call puts the pivot between the cells it separates. */
  lemma PivotPlaced(s: seq<Word>, t: seq<Word>, left: int, i: int, j: int, right: int, cost: int)
    requires 0 <= left < right < |s|
    requires Scanning(s, t, left, i, j, right, cost) && i >= j
    ensures Partitioned(s, Swapped(t, left, j), left, j, right, cost)
  {
    SwapRearranges(t, left, right, left, j);
    RearrangedTransitive(s, t, Swapped(t, left, j), left, right);
  }

  /** The promise of the sort: the range is a sorted rearrangement, nothing else has changed, the
      comparisons respect the worst case, and on the workload's shapes they are known exactly. */
  ghost predicate QuickSorted(s: seq<Word>, t: seq<Word>, left: int, right: int, cost: int)
    requires 0 <= left && (left < right ==> right < |s|)
  {
    if left < right then
      && Rearranged(s, t, left, right)
      && Sorted(t, left, right)
      && cost <= WorstCost(Size(left, right))
      && (Descending(s, left, right) ==> cost == DescendingCost(Size(left, right)))
      && (MinimumThenDescending(s, left, right) ==> cost == MinimumThenDescendingCost(Size(left, right)))
    else
      t == s && cost == 0
  }

  /** Sorts the cells left..right in place. A range with fewer than two cells is left alone. */
  method QuickSort(a: array<Word>, left: Word, right: Word) returns (ghost cost: nat)
    requires left < right ==> right < a.Length < WORD_LIMIT
    modifies a
    ensures QuickSorted(old(a[..]), a[..], left, right, cost)
    decreases Size(left, right)
  {
    cost := 0;
    if left < right {
      var j: Word, scan := Partition(a, left, right);
      ghost var parted := a[..];
      ghost var lower, upper := 0, 0;
      if j > 1 {
        lower := QuickSort(a, left, j - 1);
      }
      ghost var half := a[..];
      upper := QuickSort(a, j + 1, right);
      PartsSorted(old(a[..]), parted, half, a[..], left, j, right, scan, lower, upper);
      cost := scan + lower + upper;
    }
  }

  /** A partition followed by the sorts of its two parts sorts the range, at the sum of their costs.
      The guard `j > 1` of the contract skips only calls that would have done nothing. */
  lemma PartsSorted(s: seq<Word>, parted: seq<Word>, half: seq<Word>, t: seq<Word>,
                    left: int, j: int, right: int, scan: int, lower: int, upper: int)
    requires 0 <= left < right < |s|
    requires Partitioned(s, parted, left, j, right, scan)
    requires if j > 1 then QuickSorted(parted, half, left, j - 1, lower) else half == parted && lower == 0
    requires |half| == |parted| && QuickSorted(half, t, j + 1, right, upper)
    ensures QuickSorted(s, t, left, right, scan + lower + upper)
  {
    LeftDone(parted, half, left, j, right);
    RightDone(half, t, left, j, right);
    RearrangedTransitive(parted, half, t, left, right);
    RearrangedTransitive(s, parted, t, left, right);
    ExactCost(s, parted, half, left, j, right, scan, lower, upper);
    PartsCost(left, j, right, scan, lower, upper);
  }

  lemma PartsCost(left: int, j: int, right: int, scan: int, lower: int, upper: int)
    requires 0 <= left <= j <= right && left < right
    requires scan <= 2 * Size(left, right) + 1
    requires left >= j - 1 ==> lower == 0
    requires left < j - 1 ==> lower <= WorstCost(Size(left, j - 1))
    requires j + 1 >= right ==> upper == 0
    requires j + 1 < right ==> upper <= WorstCost(Size(j + 1, right))
    ensures scan + lower + upper <= WorstCost(Size(left, right))
  {
    WorstCostSum(Size(left, j - 1), Size(j + 1, right));
  }

  lemma ExactCost(s: seq<Word>, parted: seq<Word>, half: seq<Word>, left: int, j: int, right: int,
                  scan: int, lower: int, upper: int)
    requires 0 <= left < right < |s|
    requires Partitioned(s, parted, left, j, right, scan)
    requires lower == 0 || j > 1
    requires left < j - 1 && MinimumThenDescending(parted, left, j - 1) ==>
               lower == MinimumThenDescendingCost(Size(left, j - 1))
    requires left >= j - 1 ==> lower == 0 && half == parted
    requires |half| == |parted| && forall k :: j < k <= right ==> half[k] == parted[k]
    requires j + 1 < right && Descending(half, j + 1, right) ==> upper == DescendingCost(Size(j + 1, right))
    requires j + 1 >= right ==> upper == 0
    ensures Descending(s, left, right) ==> scan + lower + upper == DescendingCost(Size(left, right))
    ensures MinimumThenDescending(s, left, right) ==>
              scan + lower + upper == MinimumThenDescendingCost(Size(left, right))
  {
    if Descending(s, left, right) {
      assert MinimumThenDescending(parted, left, j - 1);
      assert Size(left, j - 1) == Size(left, right) - 1;
    }
    if MinimumThenDescending(s, left, right) {
      assert Descending(half, j + 1, right);
      assert Size(j + 1, right) == Size(left, right) - 1;
    }
  }

  /** After the left call: the left part is sorted and the partition around cell j still stands. */
  lemma LeftDone(s: seq<Word>, t: seq<Word>, left: int, j: int, right: int)
    requires 0 <= left <= j <= right < |s|
    requires forall k :: left <= k <= j ==> s[k] <= s[j]
    requires forall k :: j < k <= right ==> s[k] > s[j]
    requires t == s || (left <= j - 1 && Rearranged(s, t, left, j - 1))
    ensures Rearranged(s, t, left, right)
    ensures forall k :: left <= k <= j ==> t[k] <= t[j]
    ensures forall k :: j < k <= right ==> t[k] > t[j]
  {
    if t != s {
      RearrangedWider(s, t, left, j - 1, left, right);
      forall k | left <= k < j ensures t[k] <= t[j] {
        RearrangedKeepsBounds(s, t, left, j - 1, k);
      }
    }
  }

  /** After the right call: both parts are sorted, hence the whole range is. */
  lemma RightDone(s: seq<Word>, t: seq<Word>, left: int, j: int, right: int)
    requires 0 <= left <= j <= right < |s|
    requires Sorted(s, left, j - 1)
    requires forall k :: left <= k <= j ==> s[k] <= s[j]
    requires forall k :: j < k <= right ==> s[k] > s[j]
    requires if j + 1 < right then Rearranged(s, t, j + 1, right) && Sorted(t, j + 1, right) else t == s
    ensures Rearranged(s, t, left, right)
    ensures Sorted(t, left, right)
  {
    if j + 1 < right {
      RearrangedWider(s, t, j + 1, right, left, right);
      forall k | j < k <= right ensures t[k] > t[j] {
        RearrangedKeepsBounds(s, t, j + 1, right, k);
      }
    }
  }

  /** The bound on the comparisons spent on any n cells. */
  function WorstCost(n: nat): nat {
    n * n + 2 * n
  }

  /** One partition of n = x + y + 1 cells and the bounds of its two parts stay within the bound of n. */
  lemma WorstCostSum(x: nat, y: nat)
    ensures 2 * (x + y + 1) + 1 + WorstCost(x) + WorstCost(y) <= WorstCost(x + y + 1)
  {
    assert (x + y + 1) * (x + y + 1) == x * x + y * y + 2 * (x * y) + 2 * x + 2 * y + 1;
    assert x * y >= 0;
  }

  // ---------- the contract's entry points ----------

  ghost function Descended(n: Word): (s: seq<Word>)
    ensures |s| == n
  {
    seq(n, x requires 0 <= x < n => n - x)
  }

  ghost function Counted(n: Word): (s: seq<Word>)
    ensures |s| == n
  {
    seq(n, x requires 0 <= x < n => x + 1)
  }

  lemma {:induction false} DescendedCounts(n: Word)
    ensures multiset(Descended(n)) == multiset(Counted(n))
  {
    if n > 0 {
      DescendedCounts(n - 1);
      assert Descended(n) == [n] + Descended(n - 1);
      assert Counted(n) == Counted(n - 1) + [n];
    }
  }

  /** A multiset has one non-decreasing arrangement: sortedness and permutation fix the result. */
  lemma {:induction false} SortedUnique(s: seq<Word>, t: seq<Word>)
    requires multiset(s) == multiset(t)
    requires Sorted(s, 0, |s| - 1) && Sorted(t, 0, |t| - 1)
    ensures s == t
  {
    SameLength(s, t);
    if s != [] {
      FirstIsLeast(s, t);
      FirstIsLeast(t, s);
      WithoutFirst(s);
      WithoutFirst(t);
      SortedUnique(s[1..], t[1..]);
      assert s == [s[0]] + s[1..] && t == [t[0]] + t[1..];
    }
  }

  lemma WithoutFirst(s: seq<Word>)
    requires s != []
    ensures multiset(s[1..]) == multiset(s) - multiset{s[0]}
    ensures Sorted(s, 0, |s| - 1) ==> Sorted(s[1..], 0, |s| - 2)
  {
    assert s == [s[0]] + s[1..];
  }

  lemma SameLength(s: seq<Word>, t: seq<Word>)
    requires multiset(s) == multiset(t)
    ensures |s| == |t|
  {
    assert |multiset(s)| == |s| && |multiset(t)| == |t|;
  }

  lemma FirstIsLeast(s: seq<Word>, t: seq<Word>)
    requires s != [] && t != [] && multiset(s) == multiset(t)
    requires Sorted(s, 0, |s| - 1)
    ensures s[0] <= t[0]
  {
    assert t[0] in multiset(t);
    assert t[0] in multiset(s);
    assert t[0] in s;
  }

  datatype Outcome = Reverted | Finished(data: seq<Word>, size: Word, signature: Word)

  /** Reverts exactly when size is 0, where `data.length - 1` underflows. Otherwise the sorted memory
      array counts up from 1 and the comparisons follow the closed form. */
  method Sort(size: Word, signature: Word) returns (r: Outcome, ghost cost: nat)
    ensures r.Reverted? <==> size == 0
    ensures r.Finished? ==> r.size == size && r.signature == signature
    ensures r.Finished? ==> |r.data| == size && forall x :: 0 <= x < size ==> r.data[x] == x + 1
    ensures r.Finished? ==> cost == (size * size + 4 * size - 5) / 2
  {
    cost := 0;
    var data := new Word[size](_ => 0);
    FillDescending(data, size);
    if data.Length < 1 {
      return Reverted, 0;
    }
    cost := QuickSort(data, 0, data.Length - 1);
    DescendingCostClosedForm(size);
    SortedDescendedCounts(data[..], size);
    r := Finished(data[..], size, signature);
  }

  method FillDescending(data: array<Word>, size: Word)
    requires data.Length == size
    modifies data
    ensures data[..] == Descended(size)
  {
    for x := 0 to data.Length
      invariant forall k :: 0 <= k < x ==> data[k] == size - k
    {
      data[x] := size - x;
    }
  }

  lemma SortedDescendedCounts(s: seq<Word>, n: Word)
    requires |s| == n >= 1
    requires Rearranged(Descended(n), s, 0, n - 1)
    requires Sorted(s, 0, n - 1)
    ensures s == Counted(n)
  {
    DescendedCounts(n);
    assert s[0..n] == s && Descended(n)[0..n] == Descended(n);
    SortedUnique(s, Counted(n));
  }

  /** The contract's state. The contract fixes the length of `data20` to 20; any length >= 1 behaves alike. */
  class Contract {
    const data20: array<Word>

    constructor (length: Word)
      requires length >= 1
      ensures data20.Length == length && fresh(data20)
    {
      data20 := new Word[length](_ => 0);
    }

    method SortSingle() returns (ghost cost: nat)
      requires 1 <= data20.Length < WORD_LIMIT
      modifies data20
      ensures data20[..] == Counted(data20.Length)
      ensures cost == (data20.Length * data20.Length + 4 * data20.Length - 5) / 2
    {
      var size: Word := data20.Length;
      FillDescending(data20, size);
      cost := QuickSort(data20, 0, data20.Length - 1);
      DescendingCostClosedForm(size);
      SortedDescendedCounts(data20[..], size);
    }

    method CheckResult() returns (ok: bool)
      requires data20.Length >= 1
      ensures ok <==> Sorted(data20[..], 0, data20.Length - 1)
    {
      var prev: Word := data20[0];
      for x := 1 to data20.Length
        invariant prev == data20[x - 1]
        invariant Sorted(data20[..], 0, x - 1)
      {
        var cur: Word := data20[x];
        if prev > cur {
          assert data20[..][x - 1] > data20[..][x];
          return false;
        }
        prev := cur;
      }
      return true;
    }
  }

  /** A multinode tester's round trip: sort, then check. */
  method SortSingleThenCheck(c: Contract) returns (ok: bool)
    requires 1 <= c.data20.Length < WORD_LIMIT
    modifies c.data20
    ensures ok
  {
    var _ := c.SortSingle();
    ok := c.CheckResult();
  }
}
