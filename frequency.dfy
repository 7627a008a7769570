/** Frequency statistics over a column of values: the mode, the extrema and
    the per-value counts ordered by decreasing frequency. */
module Frequency {
  import opened Wrappers
  import opened Seqs

  /** `m` occurs in `xs` and no value occurs more often than `m`. Ties are
      allowed: any value of maximal count is a mode. */
  ghost predicate IsMode<T(!new)>(xs: seq<T>, m: T) {
    m in xs && forall v :: Count(xs, v) <= Count(xs, m)
  }

  /** A candidate of maximal count in `xs`. */
  function MostFrequentOf<T(==,!new)>(xs: seq<T>, cands: seq<T>): (m: T)
    requires cands != []
    ensures m in cands
    ensures forall i :: 0 <= i < |cands| ==> Count(xs, cands[i]) <= Count(xs, m)
  {
    if |cands| == 1 then cands[0]
    else
      var b := MostFrequentOf(xs, cands[1..]);
      if Count(xs, cands[0]) >= Count(xs, b) then cands[0] else b
  }

  /** The most frequent value of a column; an empty column has none. */
  function Mode<T(==,!new)>(xs: seq<T>): (r: Option<T>)
    ensures r.None? <==> xs == []
    ensures r.Some? ==> IsMode(xs, r.value)
  {
    if xs == [] then None
    else
      var m := MostFrequentOf(xs, xs);
      assert forall v :: v in xs ==> Count(xs, v) <= Count(xs, m);
      Some(m)
  }

  /** A value that occurs strictly more often than every other one is the
      only mode. */
  lemma StrictMaximumIsMode<T(!new)>(xs: seq<T>, m: T)
    requires m in xs
    requires forall v :: v != m ==> Count(xs, v) < Count(xs, m)
    ensures Mode(xs) == Some(m)
    ensures forall w :: IsMode(xs, w) ==> w == m
  {
  }

  function Min(xs: seq<int>): (m: int)
    requires xs != []
    ensures m in xs
    ensures forall i :: 0 <= i < |xs| ==> m <= xs[i]
  {
    if |xs| == 1 then xs[0]
    else
      var rest := Min(xs[1..]);
      if xs[0] <= rest then xs[0] else rest
  }

  function Max(xs: seq<int>): (m: int)
    requires xs != []
    ensures m in xs
    ensures forall i :: 0 <= i < |xs| ==> xs[i] <= m
  {
    if |xs| == 1 then xs[0]
    else
      var rest := Max(xs[1..]);
      if xs[0] >= rest then xs[0] else rest
  }

  /** A table of (value, count) pairs, the shape of a value_counts result. */
  type Counts<T> = seq<(T, nat)>

  function Keys<T>(vc: Counts<T>): (ks: seq<T>)
    ensures |ks| == |vc|
    ensures forall i :: 0 <= i < |vc| ==> ks[i] == vc[i].0
  {
    if vc == [] then [] else [vc[0].0] + Keys(vc[1..])
  }

  /** The sum of the counts of a table. */
  function TotalCount<T>(vc: Counts<T>): nat {
    if vc == [] then 0 else vc[0].1 + TotalCount(vc[1..])
  }

  /** Counts never increase along the table. */
  predicate NonIncreasing<T>(vc: Counts<T>) {
    forall i, j :: 0 <= i < j < |vc| ==> vc[i].1 >= vc[j].1
  }

  /** Inserts `p` before the first entry of smaller count. */
  function Insert<T(==,!new)>(p: (T, nat), vc: Counts<T>): (r: Counts<T>)
    requires NonIncreasing(vc)
    ensures NonIncreasing(r)
    ensures |r| == |vc| + 1
    ensures forall q :: q in r <==> q == p || q in vc
  {
    if vc == [] || p.1 >= vc[0].1 then [p] + vc
    else
      var rest := Insert(p, vc[1..]);
      assert forall j :: 0 <= j < |rest| ==> rest[j] in rest;
      [vc[0]] + rest
  }

  lemma {:induction false} InsertKeys<T(!new)>(p: (T, nat), vc: Counts<T>)
    requires NonIncreasing(vc)
    ensures forall k :: k in Keys(Insert(p, vc)) <==> k == p.0 || k in Keys(vc)
  {
    if vc == [] || p.1 >= vc[0].1 {
      assert Keys(Insert(p, vc)) == [p.0] + Keys(vc);
    } else {
      InsertKeys(p, vc[1..]);
      assert Keys(vc) == [vc[0].0] + Keys(vc[1..]);
      assert Keys(Insert(p, vc)) == [vc[0].0] + Keys(Insert(p, vc[1..]));
    }
  }

  lemma {:induction false} InsertKeysDistinct<T(!new)>(p: (T, nat), vc: Counts<T>)
    requires NonIncreasing(vc)
    ensures Distinct(Keys(vc)) && p.0 !in Keys(vc) ==> Distinct(Keys(Insert(p, vc)))
  {
    if !(Distinct(Keys(vc)) && p.0 !in Keys(vc)) {
    } else if vc == [] || p.1 >= vc[0].1 {
      assert Keys(Insert(p, vc)) == [p.0] + Keys(vc);
      DistinctCons(p.0, Keys(vc));
    } else {
      var tail := Keys(vc[1..]);
      assert Keys(vc) == [vc[0].0] + tail;
      assert Distinct(tail) && p.0 !in tail && vc[0].0 !in tail by {
        assert forall i :: 0 <= i < |tail| ==> tail[i] == Keys(vc)[i + 1];
      }
      InsertKeysDistinct(p, vc[1..]);
      InsertKeys(p, vc[1..]);
      assert Keys(Insert(p, vc)) == [vc[0].0] + Keys(Insert(p, vc[1..]));
      DistinctCons(vc[0].0, Keys(Insert(p, vc[1..])));
    }
  }

  lemma {:induction false} InsertTotal<T(!new)>(p: (T, nat), vc: Counts<T>)
    requires NonIncreasing(vc)
    ensures TotalCount(Insert(p, vc)) == p.1 + TotalCount(vc)
  {
    if vc != [] && p.1 < vc[0].1 {
      InsertTotal(p, vc[1..]);
    }
  }

  /** Sum over `ds` of the number of occurrences in `xs`. */
  function SumCounts<T(==,!new)>(xs: seq<T>, ds: seq<T>): nat {
    if ds == [] then 0 else Count(xs, ds[0]) + SumCounts(xs, ds[1..])
  }

  lemma {:induction false} SumCountsOfEmpty<T(!new)>(ds: seq<T>)
    ensures SumCounts([], ds) == 0
  {
    if ds != [] { SumCountsOfEmpty(ds[1..]); }
  }

  lemma {:induction false} SumCountsCons<T(!new)>(x: T, rest: seq<T>, ds: seq<T>)
    ensures SumCounts([x] + rest, ds) == Count(ds, x) + SumCounts(rest, ds)
  {
    if ds != [] {
      SumCountsCons(x, rest, ds[1..]);
      assert ([x] + rest)[1..] == rest;
    }
  }

  /** Counting every distinct value of `xs` once counts every element of
      `xs` exactly once. */
  lemma {:induction false} SumCountsCovers<T(!new)>(xs: seq<T>, ds: seq<T>)
    requires Distinct(ds)
    requires forall v :: v in xs ==> v in ds
    ensures SumCounts(xs, ds) == |xs|
  {
    if xs == [] {
      SumCountsOfEmpty(ds);
    } else {
      assert xs == [xs[0]] + xs[1..];
      SumCountsCons(xs[0], xs[1..], ds);
      CountDistinct(ds, xs[0]);
      SumCountsCovers(xs[1..], ds);
    }
  }

  /** The (value, count) pairs of the values `ds`, ordered by count. */
  function Tally<T(==,!new)>(xs: seq<T>, ds: seq<T>): (r: Counts<T>)
    ensures NonIncreasing(r)
    ensures forall i :: 0 <= i < |r| ==> r[i].1 == Count(xs, r[i].0)
    ensures forall k :: k in Keys(r) <==> k in ds
  {
    if ds == [] then []
    else
      var rest := Tally(xs, ds[1..]);
      var p := (ds[0], Count(xs, ds[0]));
      InsertKeys(p, rest);
      var r := Insert(p, rest);
      assert forall i :: 0 <= i < |r| ==> r[i] in r;
      r
  }

  lemma {:induction false} TallyDistinct<T(!new)>(xs: seq<T>, ds: seq<T>)
    requires Distinct(ds)
    ensures Distinct(Keys(Tally(xs, ds)))
  {
    if ds != [] {
      assert Distinct(ds[1..]) && ds[0] !in ds[1..];
      TallyDistinct(xs, ds[1..]);
      InsertKeysDistinct((ds[0], Count(xs, ds[0])), Tally(xs, ds[1..]));
    }
  }

  lemma {:induction false} TallyTotal<T(!new)>(xs: seq<T>, ds: seq<T>)
    ensures TotalCount(Tally(xs, ds)) == SumCounts(xs, ds)
  {
    if ds != [] {
      TallyTotal(xs, ds[1..]);
      InsertTotal((ds[0], Count(xs, ds[0])), Tally(xs, ds[1..]));
    }
  }

  /** The count of every distinct value of a column, most frequent first
      (the order among equal counts is not fixed). */
  function ValueCounts<T(==,!new)>(xs: seq<T>): (r: Counts<T>)
    ensures forall i :: 0 <= i < |r| ==> r[i].1 == Count(xs, r[i].0) && r[i].1 > 0
    ensures forall v :: v in Keys(r) <==> v in xs
    ensures Distinct(Keys(r))
    ensures NonIncreasing(r)
    ensures TotalCount(r) == |xs|
  {
    var ds := Dedup(xs);
    SumCountsCovers(xs, ds);
    TallyDistinct(xs, ds);
    TallyTotal(xs, ds);
    var r := Tally(xs, ds);
    assert forall i :: 0 <= i < |r| ==> r[i].0 == Keys(r)[i];
    r
  }
}
