/**
 * Character-frequency dictionaries (`Dictionary<char, int>`) as maps: the
 * counting step both frequency processors apply per item, the key-wise merge
 * both apply to the per-worker dictionaries, and the histogram of a sequence
 * (its multiset of characters) as the independent reference for both.
 */
module CharCounts {
  import opened Results
  import opened Partition

  type CharMap = map<char, int>

  /** The count stored for `c`, or 0 when `TryGetValue` finds no entry. */
  function Get(m: CharMap, c: char): int {
    if c in m then m[c] else 0
  }

  /** A dictionary that may not have been allocated yet reads as empty. */
  function OrEmpty(d: Option<CharMap>): CharMap {
    if d.Some? then d.value else map[]
  }

  /**
   * Counting one character: if `TryGetValue` finds an entry it is incremented,
   * otherwise 1 is inserted. No other key changes.
   */
  function Inc(m: CharMap, ch: char): (r: CharMap)
    ensures r.Keys == m.Keys + {ch}
    ensures r[ch] == Get(m, ch) + 1
    ensures forall c :: c in m && c != ch ==> r[c] == m[c]
  {
    if ch in m then m[ch := m[ch] + 1] else m[ch := 1]
  }

  /**
   * Counting one character into a per-worker dictionary that is null until
   * the first character is seen: a null one is replaced by a new dictionary.
   */
  function CountStep(d: Option<CharMap>, ch: char): (r: Option<CharMap>)
    ensures r.Some?
    ensures r.value.Keys == OrEmpty(d).Keys + {ch}
    ensures r.value[ch] == Get(OrEmpty(d), ch) + 1
    ensures forall c :: c in OrEmpty(d) && c != ch ==> r.value[c] == OrEmpty(d)[c]
  {
    Some(Inc(OrEmpty(d), ch))
  }

  /** Counting every character of `s`, left to right, into `d`. */
  function CountSpan(d: Option<CharMap>, s: seq<char>): Option<CharMap>
    decreases |s|
  {
    if s == [] then d else CountStep(CountSpan(d, s[..|s| - 1]), s[|s| - 1])
  }

  /** Key-wise sum of two dictionaries: what merging `d` into `acc` produces. */
  function AddCounts(acc: CharMap, d: CharMap): (r: CharMap)
    ensures r.Keys == acc.Keys + d.Keys
    ensures forall c :: Get(r, c) == Get(acc, c) + Get(d, c)
  {
    map c | c in acc.Keys + d.Keys :: Get(acc, c) + Get(d, c)
  }

  /** The reference count of each character: its multiplicity in `s`, keyed by the characters present. */
  function Histogram(s: seq<char>): (h: CharMap)
    ensures forall c :: c in h <==> multiset(s)[c] > 0
    ensures forall c :: Get(h, c) == multiset(s)[c]
  {
    map c | c in multiset(s) :: multiset(s)[c]
  }

  /** The sum of all counts of a dictionary. */
  ghost function Total(m: CharMap): int
    decreases |m|
  {
    if m == map[] then 0
    else
      var c :| c in m;
      assert (m - {c}).Keys < m.Keys;
      m[c] + Total(m - {c})
  }

  /** The total can be taken out one key at a time, whichever key comes first. */
  lemma {:induction false} TotalRemove(m: CharMap, k: char)
    requires k in m
    ensures Total(m) == m[k] + Total(m - {k})
    decreases |m|
  {
    var c :| c in m && Total(m) == m[c] + Total(m - {c});
    if c != k {
      assert (m - {c}).Keys < m.Keys && (m - {k}).Keys < m.Keys;
      TotalRemove(m - {c}, k);
      TotalRemove(m - {k}, c);
      assert m - {c} - {k} == m - {k} - {c};
    }
  }

  /** One more character adds one to the total of the histogram. */
  lemma TotalSnoc(s: seq<char>, ch: char)
    ensures Total(Histogram(s + [ch])) == Total(Histogram(s)) + 1
  {
    var h, h' := Histogram(s), Histogram(s + [ch]);
    HistogramSnoc(s, ch);
    TotalRemove(h', ch);
    if ch in h {
      TotalRemove(h, ch);
      SameCounts(h' - {ch}, h - {ch});
    } else {
      SameCounts(h' - {ch}, h);
    }
  }

  /** The counts of a histogram add up to the length of the sequence. */
  lemma {:induction false} TotalHistogram(s: seq<char>)
    ensures Total(Histogram(s)) == |s|
    decreases |s|
  {
    if s == [] {
      assert Histogram(s) == map[];
    } else {
      var init := s[..|s| - 1];
      assert s == init + [s[|s| - 1]];
      TotalHistogram(init);
      TotalSnoc(init, s[|s| - 1]);
    }
  }

  /** Two dictionaries agreeing on keys and on every count are equal. */
  lemma SameCounts(x: CharMap, y: CharMap)
    requires x.Keys == y.Keys
    requires forall c :: Get(x, c) == Get(y, c)
    ensures x == y
  {
    forall c | c in x
      ensures x[c] == y[c]
    {
      assert Get(x, c) == Get(y, c);
    }
  }

  /** The histogram of a concatenation is the key-wise sum of the histograms. */
  lemma HistogramConcat(x: seq<char>, y: seq<char>)
    ensures Histogram(x + y) == AddCounts(Histogram(x), Histogram(y))
  {
    assert multiset(x + y) == multiset(x) + multiset(y);
    SameCounts(Histogram(x + y), AddCounts(Histogram(x), Histogram(y)));
  }

  /** Counting `ch` adds one to its count and nothing to any other. */
  lemma IncCounts(m: CharMap, ch: char)
    ensures forall c :: Get(Inc(m, ch), c) == Get(m, c) + (if c == ch then 1 else 0)
  {
  }

  /** One more character adds one to its count in the histogram. */
  lemma HistogramSnoc(s: seq<char>, ch: char)
    ensures forall c :: Get(Histogram(s + [ch]), c) == Get(Histogram(s), c) + (if c == ch then 1 else 0)
    ensures Histogram(s + [ch]).Keys == Histogram(s).Keys + {ch}
  {
    assert multiset(s + [ch]) == multiset(s) + multiset{ch};
  }

  /** Counting `ch` on top of a key-wise sum adds it to the second operand. */
  lemma IncAddCounts(b: CharMap, h: CharMap, h': CharMap, ch: char)
    requires h'.Keys == h.Keys + {ch}
    requires forall c :: Get(h', c) == Get(h, c) + (if c == ch then 1 else 0)
    ensures Inc(AddCounts(b, h), ch) == AddCounts(b, h')
  {
    var before := AddCounts(b, h);
    IncCounts(before, ch);
    SameCounts(Inc(before, ch), AddCounts(b, h'));
  }

  /** Counting one more character extends the histogram by that character. */
  lemma IncHistogram(b: CharMap, s: seq<char>, ch: char)
    ensures Inc(AddCounts(b, Histogram(s)), ch) == AddCounts(b, Histogram(s + [ch]))
  {
    HistogramSnoc(s, ch);
    IncAddCounts(b, Histogram(s), Histogram(s + [ch]), ch);
  }

  /** Counting one character adds the histogram of that one character. */
  lemma CountOne(m: CharMap, ch: char)
    ensures Inc(m, ch) == AddCounts(m, Histogram([ch]))
  {
    SameCounts(m, AddCounts(m, Histogram([])));
    IncHistogram(m, [], ch);
    assert [] + [ch] == [ch];
  }

  /**
   * Counting a span into `d`: the dictionary exists afterwards exactly when
   * it existed before or the span is non-empty, and it holds the old counts
   * plus the histogram of the span.
   */
  lemma {:induction false} CountSpanHistogram(d: Option<CharMap>, s: seq<char>)
    ensures CountSpan(d, s).Some? <==> d.Some? || s != []
    ensures OrEmpty(CountSpan(d, s)) == AddCounts(OrEmpty(d), Histogram(s))
    decreases |s|
  {
    if s == [] {
      SameCounts(OrEmpty(d), AddCounts(OrEmpty(d), Histogram(s)));
    } else {
      var init, last := s[..|s| - 1], s[|s| - 1];
      CountSpanHistogram(d, init);
      assert s == init + [last];
      IncHistogram(OrEmpty(d), init, last);
    }
  }

  /** Counting a span into a null dictionary: still null for an empty span, otherwise its histogram. */
  lemma CountFresh(s: seq<char>)
    ensures CountSpan(None, s) == if s == [] then None else Some(Histogram(s))
  {
    CountSpanHistogram(None, s);
    SameCounts(AddCounts(map[], Histogram(s)), Histogram(s));
  }

  /** Counting a span again into the dictionary that already holds its histogram doubles every count. */
  lemma CountAgain(s: seq<char>)
    ensures CountSpan(Some(Histogram(s)), s) == Some(Doubled(Histogram(s)))
  {
    CountSpanHistogram(Some(Histogram(s)), s);
    SameCounts(AddCounts(Histogram(s), Histogram(s)), Doubled(Histogram(s)));
  }

  /** Merging dictionaries left to right into an initially empty one. */
  function Merged(ds: seq<CharMap>): CharMap
    decreases |ds|
  {
    if ds == [] then map[] else AddCounts(Merged(ds[..|ds| - 1]), ds[|ds| - 1])
  }

  /** Each key's merged count is the sum of its counts, and the key set is the union. */
  lemma {:induction false} MergedCounts(ds: seq<CharMap>, c: char)
    ensures Get(Merged(ds), c) == SumOfCounts(ds, c)
    ensures c in Merged(ds) <==> exists i :: 0 <= i < |ds| && c in ds[i]
    decreases |ds|
  {
    if ds != [] {
      var init := ds[..|ds| - 1];
      MergedCounts(init, c);
      if c in ds[|ds| - 1] {
      } else if c in Merged(ds) {
        var i :| 0 <= i < |init| && c in init[i];
        assert c in ds[i];
      } else {
        forall i | 0 <= i < |ds| ensures c !in ds[i] {
          if i < |init| { assert ds[i] == init[i]; }
        }
      }
    }
  }

  /** The count of `c` summed over a sequence of dictionaries. */
  function SumOfCounts(ds: seq<CharMap>, c: char): int
    decreases |ds|
  {
    if ds == [] then 0 else SumOfCounts(ds[..|ds| - 1], c) + Get(ds[|ds| - 1], c)
  }

  /** The histogram of each worker's slice of `a`, in worker order. */
  function SliceHistograms(a: seq<char>, workers: nat): (r: seq<CharMap>)
    ensures |r| == workers
  {
    seq(workers, w requires 0 <= w < workers =>
      var s := Slice(|a|, workers, w); Histogram(a[s.lo..s.hi]))
  }

  /** Merging a prefix one dictionary longer adds that dictionary. */
  lemma MergedPrefixStep(ds: seq<CharMap>, k: nat)
    requires 1 <= k <= |ds|
    ensures Merged(ds[..k]) == AddCounts(Merged(ds[..k - 1]), ds[k - 1])
  {
    assert ds[..k][..k - 1] == ds[..k - 1];
  }

  /** Adding a dictionary to an empty one gives that dictionary. */
  lemma AddCountsToEmpty(d: CharMap)
    ensures AddCounts(map[], d) == d
  {
    SameCounts(AddCounts(map[], d), d);
  }

  /** The histogram of a prefix extended by the next slice. */
  lemma HistogramExtend(a: seq<char>, i: nat, j: nat)
    requires i <= j <= |a|
    ensures AddCounts(Histogram(a[..i]), Histogram(a[i..j])) == Histogram(a[..j])
  {
    PrefixSplit(a, i, j);
    HistogramConcat(a[..i], a[i..j]);
  }

  /** Merging the first k slice histograms gives the histogram of the array up to the end of slice k - 1. */
  lemma {:induction false} SliceHistogramsPrefix(a: seq<char>, workers: nat, k: nat)
    requires 1 <= k <= workers
    ensures Merged(SliceHistograms(a, workers)[..k]) == Histogram(a[..Slice(|a|, workers, k - 1).hi])
  {
    var hs := SliceHistograms(a, workers);
    var s := Slice(|a|, workers, k - 1);
    MergedPrefixStep(hs, k);
    if k == 1 {
      assert a[..s.hi] == a[s.lo..s.hi];
      AddCountsToEmpty(hs[0]);
    } else {
      SliceHistogramsPrefix(a, workers, k - 1);
      SlicesAdjacent(|a|, workers, k - 2);
      HistogramExtend(a, s.lo, s.hi);
    }
  }

  /** For workers >= 1, merging the slice histograms gives the histogram of the whole array. */
  lemma SliceHistogramsTotal(a: seq<char>, workers: nat)
    requires 1 <= workers
    ensures Merged(SliceHistograms(a, workers)) == Histogram(a)
  {
    SliceHistogramsPrefix(a, workers, workers);
    assert SliceHistograms(a, workers)[..workers] == SliceHistograms(a, workers);
    assert a[..|a|] == a;
  }

  /** Every count doubled. */
  function Doubled(m: CharMap): (r: CharMap)
    ensures r.Keys == m.Keys
    ensures forall c :: Get(r, c) == 2 * Get(m, c)
  {
    map c | c in m :: 2 * m[c]
  }

  /** Merging doubled dictionaries doubles the merge. */
  lemma {:induction false} MergedDoubled(ds: seq<CharMap>)
    ensures Merged(seq(|ds|, i requires 0 <= i < |ds| => Doubled(ds[i]))) == Doubled(Merged(ds))
    decreases |ds|
  {
    var dd := seq(|ds|, i requires 0 <= i < |ds| => Doubled(ds[i]));
    if ds != [] {
      var init := ds[..|ds| - 1];
      assert dd[..|dd| - 1] == seq(|init|, i requires 0 <= i < |init| => Doubled(init[i]));
      MergedDoubled(init);
      SameCounts(Merged(dd), Doubled(Merged(ds)));
    }
  }

  /**
   * The inner merge loop: every (key, value) pair of `d`, in whatever order
   * the dictionary yields them, is added to `acc` (`TryGetValue`, then the
   * sum or the value itself is written). The result is the key-wise sum.
   */
  method MergeInto(acc: CharMap, d: CharMap) returns (r: CharMap)
    ensures r == AddCounts(acc, d)
  {
    r := acc;
    var rest := d.Keys;
    MergeStart(acc, d);
    while rest != {}
      invariant rest <= d.Keys
      invariant r == AddCounts(acc, d - rest)
      decreases |rest|
    {
      var k :| k in rest;
      ghost var before := r;
      if k in r {
        r := r[k := r[k] + d[k]];
      } else {
        r := r[k := d[k]];
      }
      MergeStep(acc, d, rest, k, before, r);
      rest := rest - {k};
    }
    MergeDone(acc, d, r);
  }

  lemma MergeDone(acc: CharMap, d: CharMap, r: CharMap)
    requires r == AddCounts(acc, d - {})
    ensures r == AddCounts(acc, d)
  {
    assert d - {} == d;
  }

  /** Before the merge loop nothing of `d` has been added. */
  lemma MergeStart(acc: CharMap, d: CharMap)
    ensures acc == AddCounts(acc, d - d.Keys)
  {
    SameCounts(acc, AddCounts(acc, d - d.Keys));
  }

  /** One step of the merge loop: adding entry `k` of `d` to the running sum leaves `k` out of what is still to do. */
  lemma MergeStep(acc: CharMap, d: CharMap, rest: set<char>, k: char, before: CharMap, r: CharMap)
    requires k in rest && rest <= d.Keys
    requires before == AddCounts(acc, d - rest)
    requires r == if k in before then before[k := before[k] + d[k]] else before[k := d[k]]
    ensures r == AddCounts(acc, d - (rest - {k}))
  {
    var done := d - (rest - {k});
    forall c ensures Get(r, c) == Get(acc, c) + Get(done, c) {
      assert Get(before, c) == Get(acc, c) + Get(d - rest, c);
    }
    SameCounts(r, AddCounts(acc, done));
  }

  /** The dictionaries of a sequence in which none is null. */
  function Present(ds: seq<Option<CharMap>>): (r: seq<CharMap>)
    requires forall i :: 0 <= i < |ds| ==> ds[i].Some?
    ensures |r| == |ds| && forall i :: 0 <= i < |ds| ==> r[i] == ds[i].value
  {
    seq(|ds|, i requires 0 <= i < |ds| => ds[i].value)
  }

  /** The number of leading non-null dictionaries. */
  function FirstMissing(ds: seq<Option<CharMap>>): (k: nat)
    ensures k <= |ds|
    ensures forall i :: 0 <= i < k ==> ds[i].Some?
    ensures k < |ds| ==> ds[k].None?
    decreases |ds|
  {
    if ds == [] || ds[0].None? then 0 else 1 + FirstMissing(ds[1..])
  }

  /** Merging one more present dictionary onto a merged prefix. */
  lemma MergedPresentStep(ds: seq<Option<CharMap>>, t: nat)
    requires t < |ds| && forall u :: 0 <= u <= t ==> ds[u].Some?
    ensures Merged(Present(ds[..t + 1])) == AddCounts(Merged(Present(ds[..t])), ds[t].value)
  {
    assert Present(ds[..t + 1])[..t] == Present(ds[..t]);
  }

  /** The leading present dictionaries end at the first null one, or span the whole sequence. */
  lemma FirstMissingAt(ds: seq<Option<CharMap>>, t: nat)
    requires t <= |ds| && forall u :: 0 <= u < t ==> ds[u].Some?
    requires t < |ds| ==> ds[t].None?
    ensures FirstMissing(ds) == t && ds[..FirstMissing(ds)] == ds[..t]
  {
  }

  /** Dictionaries as non-null slots. */
  function Wrapped(ds: seq<CharMap>): (r: seq<Option<CharMap>>)
    ensures |r| == |ds|
  {
    seq(|ds|, i requires 0 <= i < |ds| => Some(ds[i]))
  }

  /** Merging non-null slots never stops early and sees exactly the dictionaries. */
  lemma PresentWrapped(ds: seq<CharMap>)
    ensures FirstMissing(Wrapped(ds)) == |ds|
    ensures Present(Wrapped(ds)) == ds
    ensures Present(Wrapped(ds)[..FirstMissing(Wrapped(ds))]) == ds
  {
    FirstMissingAt(Wrapped(ds), |ds|);
    assert Wrapped(ds)[..|ds|] == Wrapped(ds);
  }
}
