/**
 * Concrete runs of the partitioning and of the reductions, worked out from
 * the general lemmas: they pin down the slices and results for small inputs.
 */
module Scenarios {
  import opened Partition
  import opened Aggregates
  import opened CharCounts

  /** Ten items among four workers: three slices of two, and the last takes the remaining four. */
  lemma TenItemsFourWorkers()
    ensures Slice(10, 4, 0) == Range(0, 2)
    ensures Slice(10, 4, 1) == Range(2, 4)
    ensures Slice(10, 4, 2) == Range(4, 6)
    ensures Slice(10, 4, 3) == Range(6, 10)
  {
  }

  /**
   * Three items among five workers: the chunk size is 0, so workers 0 to 3
   * get nothing and worker 4 gets the whole array.
   */
  lemma ThreeItemsFiveWorkers()
    ensures forall w :: 0 <= w < 4 ==> Slice(3, 5, w) == Range(0, 0)
    ensures Slice(3, 5, 4) == Range(0, 3)
  {
    OversubscribedSlices(3, 5);
  }

  /** The sums of small sequences used below. */
  lemma SmallSums()
    ensures Sum([1, 2, 3]) == 6 && Sum([4, 5, 6]) == 15 && Sum([7, 8, 9, 10]) == 34
    ensures Sum([6, 15, 34]) == 55
  {
    SumThree(1, 2, 3);
    SumThree(4, 5, 6);
    SumThree(7, 8, 9);
    SumConcat([7, 8, 9], [10]);
    assert [7, 8, 9] + [10] == [7, 8, 9, 10] && [10][..0] == [];
    SumThree(6, 15, 34);
  }

  /** The sum of three items. */
  lemma SumThree(x: int, y: int, z: int)
    ensures Sum([x, y, z]) == x + y + z
  {
    SumConcat([x], [y]);
    SumConcat([x, y], [z]);
    assert [x] + [y] == [x, y] && [x, y] + [z] == [x, y, z];
    assert [x][..0] == [] && [y][..0] == [] && [z][..0] == [];
  }

  /** Summing 1 .. 10 in three slices, [1..3], [4..6] and [7..10], gives 6, 15 and 34, 55 in all. */
  lemma SumOneToTenThreeWorkers()
    ensures var a := [1, 2, 3, 4, 5, 6, 7, 8, 9, 10];
      SliceSums(a, 3) == [6, 15, 34] && Sum(SliceSums(a, 3)) == 55
  {
    var x, y, z := [1, 2, 3], [4, 5, 6], [7, 8, 9, 10];
    var a := x + y + z;
    assert a == [1, 2, 3, 4, 5, 6, 7, 8, 9, 10];
    assert Slice(10, 3, 0) == Range(0, 3) && Slice(10, 3, 1) == Range(3, 6) && Slice(10, 3, 2) == Range(6, 10);
    assert a[0..3] == x && a[3..6] == y && a[6..10] == z;
    SmallSums();
    assert SliceSums(a, 3)[0] == 6 && SliceSums(a, 3)[1] == 15 && SliceSums(a, 3)[2] == 34;
  }

  /** The histogram of "aab". */
  lemma HistogramAab()
    ensures Histogram("aab") == map['a' := 2, 'b' := 1]
  {
    assert multiset("aab") == multiset{'a', 'a', 'b'};
    SameCounts(Histogram("aab"), map['a' := 2, 'b' := 1]);
  }

  /** The histogram of "bbc". */
  lemma HistogramBbc()
    ensures Histogram("bbc") == map['b' := 2, 'c' := 1]
  {
    assert multiset("bbc") == multiset{'b', 'b', 'c'};
    SameCounts(Histogram("bbc"), map['b' := 2, 'c' := 1]);
  }

  /** Merging the two slice histograms of "aabbbc". */
  lemma MergeAabBbc()
    ensures AddCounts(map['a' := 2, 'b' := 1], map['b' := 2, 'c' := 1]) == map['a' := 2, 'b' := 3, 'c' := 1]
  {
    var m := AddCounts(map['a' := 2, 'b' := 1], map['b' := 2, 'c' := 1]);
    assert Get(m, 'a') == 2 && Get(m, 'b') == 3 && Get(m, 'c') == 1;
    SameCounts(m, map['a' := 2, 'b' := 3, 'c' := 1]);
  }

  /** The slices of "aabbbc" between two workers are "aab" and "bbc". */
  lemma SliceHistogramsAabbbc()
    ensures SliceHistograms("aabbbc", 2) == [map['a' := 2, 'b' := 1], map['b' := 2, 'c' := 1]]
  {
    var x, y := "aab", "bbc";
    var s := x + y;
    assert s == "aabbbc";
    assert Slice(6, 2, 0) == Range(0, 3) && Slice(6, 2, 1) == Range(3, 6);
    assert s[0..3] == x && s[3..6] == y;
    HistogramAab();
    HistogramBbc();
  }

  /** Counting "aabbbc" in two slices, "aab" and "bbc", merges to a:2, b:3, c:1. */
  lemma CountAabbbcTwoWorkers()
    ensures var hs := SliceHistograms("aabbbc", 2);
      hs[0] == map['a' := 2, 'b' := 1] && hs[1] == map['b' := 2, 'c' := 1]
      && Merged(hs) == map['a' := 2, 'b' := 3, 'c' := 1]
  {
    var hs := SliceHistograms("aabbbc", 2);
    SliceHistogramsAabbbc();
    MergedPrefixStep(hs, 2);
    MergedPrefixStep(hs, 1);
    assert hs[..2] == hs && hs[..0] == [];
    AddCountsToEmpty(hs[0]);
    MergeAabBbc();
  }
}
