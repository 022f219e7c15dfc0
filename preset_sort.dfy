/**
 * Ordering of the dimension configuration by `resolution.options.offset`.
 * The comparator says "equal" whenever either side lacks an offset, so it is
 * not a total order; the sort is modelled as a stable insertion sort.
 */
module PresetSort {
  import opened Wrappers
  import opened Dimensions

  /** PHP's `<=>` on integers. */
  function Spaceship(x: int, y: int): int {
    if x < y then -1 else if x == y then 0 else 1
  }

  /** The comparator handed to `uasort`. */
  function CompareByOffset(a: DimensionEntry, b: DimensionEntry): (r: int)
    ensures -1 <= r <= 1
    ensures Offset(a).None? || Offset(b).None? ==> r == 0
    ensures Offset(a).Some? && Offset(b).Some? ==>
      (r < 0 <==> Offset(a).value < Offset(b).value) && (r == 0 <==> Offset(a).value == Offset(b).value)
  {
    if Offset(a).Some? && Offset(b).Some? then Spaceship(Offset(a).value, Offset(b).value) else 0
  }

  /** Inserts `x` behind the last element of `sorted` that does not compare greater than it. */
  function Insert(sorted: seq<DimensionEntry>, x: DimensionEntry): (r: seq<DimensionEntry>)
    ensures |r| == |sorted| + 1
    decreases |sorted|
  {
    if |sorted| == 0 || CompareByOffset(sorted[|sorted| - 1], x) <= 0 then sorted + [x]
    else Insert(sorted[..|sorted| - 1], x) + [sorted[|sorted| - 1]]
  }

  /** The position at which `Insert` places `x`. */
  function InsertPosition(sorted: seq<DimensionEntry>, x: DimensionEntry): (j: nat)
    ensures j <= |sorted|
    decreases |sorted|
  {
    if |sorted| == 0 || CompareByOffset(sorted[|sorted| - 1], x) <= 0 then |sorted|
    else InsertPosition(sorted[..|sorted| - 1], x)
  }

  /** The configuration after sorting: every entry inserted in configuration order. */
  function SortByOffset(s: seq<DimensionEntry>): (r: seq<DimensionEntry>)
    ensures |r| == |s|
    decreases |s|
  {
    if |s| == 0 then [] else Insert(SortByOffset(s[..|s| - 1]), s[|s| - 1])
  }

  predicate AllHaveOffsets(s: seq<DimensionEntry>) {
    forall k :: 0 <= k < |s| ==> Offset(s[k]).Some?
  }

  /** Every entry declares an offset and the offsets never decrease. */
  predicate AscendingByOffset(s: seq<DimensionEntry>) {
    AllHaveOffsets(s) && forall i, j :: 0 <= i < j < |s| ==> OffsetAtMost(s[i], s[j])
  }

  /** `Insert` splits `sorted` at `InsertPosition` and puts `x` in between. */
  lemma {:induction false} InsertSplice(sorted: seq<DimensionEntry>, x: DimensionEntry)
    ensures Insert(sorted, x) == sorted[..InsertPosition(sorted, x)] + [x] + sorted[InsertPosition(sorted, x)..]
    decreases |sorted|
  {
    var n := |sorted|;
    if n == 0 || CompareByOffset(sorted[n - 1], x) <= 0 {
      assert sorted[..n] == sorted;
    } else {
      var init := sorted[..n - 1];
      InsertSplice(init, x);
      var j := InsertPosition(init, x);
      assert init[..j] == sorted[..j];
      assert init[j..] + [sorted[n - 1]] == sorted[j..];
    }
  }

  /** Every entry right of the insertion position compares greater than `x`;
      the one just left of it does not. */
  lemma {:induction false} InsertPositionBounds(sorted: seq<DimensionEntry>, x: DimensionEntry)
    ensures forall k :: InsertPosition(sorted, x) <= k < |sorted| ==> CompareByOffset(sorted[k], x) > 0
    ensures 0 < InsertPosition(sorted, x) ==> CompareByOffset(sorted[InsertPosition(sorted, x) - 1], x) <= 0
    decreases |sorted|
  {
    var n := |sorted|;
    if n > 0 && CompareByOffset(sorted[n - 1], x) > 0 {
      var init := sorted[..n - 1];
      InsertPositionBounds(init, x);
      assert forall k :: 0 <= k < n - 1 ==> init[k] == sorted[k];
    }
  }

  /** The element at index `k` of `left + [x] + right`. */
  lemma SpliceAt(left: seq<DimensionEntry>, x: DimensionEntry, right: seq<DimensionEntry>, k: nat)
    requires k < |left| + 1 + |right|
    ensures (left + [x] + right)[k] == if k < |left| then left[k] else if k == |left| then x else right[k - |left| - 1]
  {
  }

  lemma {:induction false} InsertPermutation(sorted: seq<DimensionEntry>, x: DimensionEntry)
    ensures multiset(Insert(sorted, x)) == multiset(sorted) + multiset{x}
  {
    InsertSplice(sorted, x);
    var j := InsertPosition(sorted, x);
    var left, right := sorted[..j], sorted[j..];
    assert sorted == left + right;
    calc {
      multiset(Insert(sorted, x));
      multiset(left + [x] + right);
      multiset(left) + multiset{x} + multiset(right);
      multiset(left + right) + multiset{x};
    }
  }

  /** Sorting only reorders the configuration: the same entries, each as often. */
  lemma {:induction false} SortPermutation(s: seq<DimensionEntry>)
    ensures multiset(SortByOffset(s)) == multiset(s)
    decreases |s|
  {
    if |s| > 0 {
      var init, last := s[..|s| - 1], s[|s| - 1];
      assert s == init + [last];
      calc {
        multiset(SortByOffset(s));
        multiset(Insert(SortByOffset(init), last));
        { InsertPermutation(SortByOffset(init), last); }
        multiset(SortByOffset(init)) + multiset{last};
        { SortPermutation(init); }
        multiset(init) + multiset{last};
        multiset(init + [last]);
      }
    }
  }

  /** Sorting keeps every dimension name and adds none (the keys of the PHP map). */
  lemma SortPreservesNames(s: seq<DimensionEntry>)
    ensures Names(SortByOffset(s)) == Names(s)
  {
    SortPermutation(s);
    forall e | e in SortByOffset(s) ensures e in s {
      assert e in multiset(SortByOffset(s));
    }
    forall e | e in s ensures e in SortByOffset(s) {
      assert e in multiset(s);
    }
  }

  /** Inserting an entry whose name is new keeps the names distinct. */
  lemma InsertKeepsDistinctNames(sorted: seq<DimensionEntry>, x: DimensionEntry)
    requires DistinctNames(sorted) && x.name !in Names(sorted)
    ensures DistinctNames(Insert(sorted, x))
  {
    InsertSplice(sorted, x);
    var j := InsertPosition(sorted, x);
    var r := Insert(sorted, x);
    forall k | 0 <= k < |r| ensures r[k] == if k < j then sorted[k] else if k == j then x else sorted[k - 1] {
      SpliceAt(sorted[..j], x, sorted[j..], k);
    }
    forall a, b | 0 <= a < b < |r| ensures r[a].name != r[b].name {
      if a == j {
        assert sorted[b - 1] in sorted;
      } else if b == j {
        assert sorted[a] in sorted;
      }
    }
  }

  /** Sorting keeps the dimension names distinct (the keys of a PHP map are). */
  lemma {:induction false} SortPreservesDistinctNames(s: seq<DimensionEntry>)
    requires DistinctNames(s)
    ensures DistinctNames(SortByOffset(s))
    decreases |s|
  {
    if |s| > 0 {
      var init, last := s[..|s| - 1], s[|s| - 1];
      assert DistinctNames(init) by {
        forall a, b | 0 <= a < b < |init| ensures init[a].name != init[b].name {
          assert init[a] == s[a] && init[b] == s[b];
        }
      }
      assert last.name !in Names(init) by {
        forall e | e in init ensures e.name != last.name {
          var k :| 0 <= k < |init| && init[k] == e;
          assert s[k] == e;
        }
      }
      SortPreservesDistinctNames(init);
      SortPreservesNames(init);
      InsertKeepsDistinctNames(SortByOffset(init), last);
      assert SortByOffset(s) == Insert(SortByOffset(init), last);
    }
  }

  /** Whether `a` may stand before `b` in an ascending configuration. */
  predicate OffsetAtMost(a: DimensionEntry, b: DimensionEntry) {
    Offset(a).Some? && Offset(b).Some? && Offset(a).value <= Offset(b).value
  }

  /** Placing `x` at index `j` of an ascending configuration, where the entry
      before it is no higher and every entry from `j` on is strictly higher,
      keeps the whole ascending. */
  lemma AscendingSplice(sorted: seq<DimensionEntry>, x: DimensionEntry, j: nat)
    requires AscendingByOffset(sorted) && Offset(x).Some? && j <= |sorted|
    requires 0 < j ==> OffsetAtMost(sorted[j - 1], x)
    requires forall k :: j <= k < |sorted| ==> OffsetAtMost(x, sorted[k])
    ensures AscendingByOffset(sorted[..j] + [x] + sorted[j..])
  {
    var r := sorted[..j] + [x] + sorted[j..];
    forall k | 0 <= k < |r| ensures r[k] == if k < j then sorted[k] else if k == j then x else sorted[k - 1] {
      SpliceAt(sorted[..j], x, sorted[j..], k);
    }
    forall k | 0 <= k < |r| ensures Offset(r[k]).Some? {
      if k < j { assert Offset(sorted[k]).Some?; } else if k > j { assert Offset(sorted[k - 1]).Some?; }
    }
    forall a, b | 0 <= a < b < |r| ensures OffsetAtMost(r[a], r[b]) {
      if b < j {
        assert OffsetAtMost(sorted[a], sorted[b]);
      } else if b == j {
        if a < j - 1 { assert OffsetAtMost(sorted[a], sorted[j - 1]); }
      } else if a < j {
        assert OffsetAtMost(sorted[a], sorted[b - 1]);
      } else if a > j {
        assert OffsetAtMost(sorted[a - 1], sorted[b - 1]);
      }
    }
  }

  /** In an ascending configuration the entry left of the insertion position
      of `x` is no higher than `x` and those from it on are strictly higher. */
  lemma InsertPositionOffsets(sorted: seq<DimensionEntry>, x: DimensionEntry)
    requires AscendingByOffset(sorted) && Offset(x).Some?
    ensures 0 < InsertPosition(sorted, x) ==> OffsetAtMost(sorted[InsertPosition(sorted, x) - 1], x)
    ensures forall k :: InsertPosition(sorted, x) <= k < |sorted| ==> OffsetAtMost(x, sorted[k])
  {
    InsertPositionBounds(sorted, x);
  }

  lemma {:induction false} InsertAscending(sorted: seq<DimensionEntry>, x: DimensionEntry)
    requires AscendingByOffset(sorted) && Offset(x).Some?
    ensures AscendingByOffset(Insert(sorted, x))
  {
    InsertSplice(sorted, x);
    InsertPositionOffsets(sorted, x);
    AscendingSplice(sorted, x, InsertPosition(sorted, x));
  }

  /** When every dimension declares an offset, the sorted configuration ascends by offset. */
  lemma {:induction false} SortAscendingWhenAllHaveOffsets(s: seq<DimensionEntry>)
    requires AllHaveOffsets(s)
    ensures AscendingByOffset(SortByOffset(s))
    decreases |s|
  {
    if |s| > 0 {
      var init := s[..|s| - 1];
      assert AllHaveOffsets(init) by {
        forall k | 0 <= k < |init| ensures Offset(init[k]).Some? { assert init[k] == s[k]; }
      }
      SortAscendingWhenAllHaveOffsets(init);
      InsertAscending(SortByOffset(init), s[|s| - 1]);
      assert SortByOffset(s) == Insert(SortByOffset(init), s[|s| - 1]);
    }
  }

  /**
   * An entry without an offset compares equal to everything, so no entry is
   * ever moved across it: it keeps its index, and entries without offsets keep
   * their configuration order.
   */
  lemma {:induction false} SortKeepsEntriesWithoutOffset(s: seq<DimensionEntry>, k: nat)
    requires k < |s| && Offset(s[k]).None?
    ensures SortByOffset(s)[k] == s[k]
    decreases |s|
  {
    var n := |s|;
    var init := s[..n - 1];
    var t := SortByOffset(init);
    var x := s[n - 1];
    assert SortByOffset(s) == Insert(t, x);
    InsertSplice(t, x);
    InsertPositionBounds(t, x);
    var j := InsertPosition(t, x);
    if k == n - 1 {
      // x compares equal to the last sorted entry, so it stays at the end
      assert j == |t|;
      SpliceAt(t[..j], x, t[j..], k);
    } else {
      assert init[k] == s[k];
      SortKeepsEntriesWithoutOffset(init, k);
      // entries at j and beyond compare greater than x, so they have offsets
      assert CompareByOffset(t[k], x) == 0;
      assert k < j;
      SpliceAt(t[..j], x, t[j..], k);
    }
  }

  /** A sequence that holds `sorted` with `x` placed at its insertion position
      starts with `Insert(sorted, x)`. */
  lemma ShiftedPrefixIsInsert(a: seq<DimensionEntry>, sorted: seq<DimensionEntry>, x: DimensionEntry, j: nat)
    requires |sorted| < |a| && j == InsertPosition(sorted, x)
    requires forall k :: 0 <= k < j ==> a[k] == sorted[k]
    requires a[j] == x
    requires forall k :: j < k <= |sorted| ==> a[k] == sorted[k - 1]
    ensures a[..|sorted| + 1] == Insert(sorted, x)
  {
    InsertSplice(sorted, x);
    forall k | 0 <= k < |sorted| + 1 ensures a[k] == Insert(sorted, x)[k] {
      SpliceAt(sorted[..j], x, sorted[j..], k);
    }
  }

  /**
   * Inserts `presets[i]` into the sorted prefix `presets[..i]`, shifting the
   * entries that compare greater one place to the right.
   */
  method InsertInPlace(presets: array<DimensionEntry>, i: nat)
    requires i < presets.Length
    modifies presets
    ensures presets[..i + 1] == Insert(old(presets[..i]), old(presets[i]))
    ensures presets[i + 1..] == old(presets[i + 1..])
  {
    ghost var sorted := presets[..i];
    ghost var rest := presets[i + 1..];
    var x := presets[i];
    ghost var target := InsertPosition(sorted, x);
    InsertPositionBounds(sorted, x);
    var j := i;
    while j > 0 && CompareByOffset(presets[j - 1], x) > 0
      invariant target <= j <= i
      invariant forall k :: 0 <= k < j ==> presets[k] == sorted[k]
      invariant forall k :: j < k <= i ==> presets[k] == sorted[k - 1]
      invariant presets[i + 1..] == rest
    {
      presets[j] := presets[j - 1];
      j := j - 1;
    }
    presets[j] := x;
    ShiftedPrefixIsInsert(presets[..], sorted, x, j);
  }

  /** Sorting one more entry of `s` inserts it into the sorted prefix. */
  lemma SortSnoc(s: seq<DimensionEntry>, i: nat)
    requires i < |s|
    ensures SortByOffset(s[..i + 1]) == Insert(SortByOffset(s[..i]), s[i])
  {
    assert s[..i + 1][..i] == s[..i];
  }

  /**
   * `uasort` on the configuration, in place: a straight insertion sort with the
   * offset comparator; the array afterwards holds `SortByOffset` of its old contents.
   */
  method SortPresetsByOffset(presets: array<DimensionEntry>)
    modifies presets
    ensures presets[..] == SortByOffset(old(presets[..]))
  {
    ghost var original := presets[..];
    var i := 0;
    while i < presets.Length
      invariant 0 <= i <= presets.Length
      invariant presets[..i] == SortByOffset(original[..i])
      invariant presets[i..] == original[i..]
    {
      assert presets[i] == original[i] && presets[i + 1..] == original[i + 1..] by {
        assert presets[i..][0] == original[i..][0];
        assert presets[i..][1..] == original[i..][1..];
      }
      InsertInPlace(presets, i);
      SortSnoc(original, i);
      i := i + 1;
    }
    assert original[..presets.Length] == original;
  }
}
