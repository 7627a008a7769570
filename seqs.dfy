/** Generic sequence operations: occurrence counts, order-preserving filters
    and de-duplication, the building blocks of the record pipeline. */
module Seqs {
  import opened Wrappers

  /** Number of occurrences of `v` in `xs`. */
  function Count<T(==,!new)>(xs: seq<T>, v: T): (c: nat)
    ensures c <= |xs|
    ensures c > 0 <==> v in xs
  {
    if xs == [] then 0
    else (if xs[0] == v then 1 else 0) + Count(xs[1..], v)
  }

  /** `s` is obtained from `t` by deleting some elements and keeping the
      order of the others. */
  predicate IsSubsequence<T(==,!new)>(s: seq<T>, t: seq<T>)
    decreases |t|
  {
    if s == [] then true
    else if t == [] then false
    else (s[0] == t[0] && IsSubsequence(s[1..], t[1..])) || IsSubsequence(s, t[1..])
  }

  lemma {:induction false} SubsequenceReflexive<T(!new)>(s: seq<T>)
    ensures IsSubsequence(s, s)
    decreases |s|
  {
    if s != [] { SubsequenceReflexive(s[1..]); }
  }

  lemma {:induction false} SubsequenceTransitive<T(!new)>(a: seq<T>, b: seq<T>, c: seq<T>)
    requires IsSubsequence(a, b) && IsSubsequence(b, c)
    ensures IsSubsequence(a, c)
    decreases |c|
  {
    if a != [] {
      assert b != [] && c != [];
      if IsSubsequence(b, c[1..]) {
        SubsequenceTransitive(a, b, c[1..]);
      } else {
        assert b[0] == c[0] && IsSubsequence(b[1..], c[1..]);
        if a[0] == b[0] && IsSubsequence(a[1..], b[1..]) {
          SubsequenceTransitive(a[1..], b[1..], c[1..]);
        } else {
          SubsequenceTransitive(a, b[1..], c[1..]);
        }
      }
    }
  }

  /** The elements of `xs` that satisfy `p`, in their original order (a
      boolean-mask selection). */
  function Where<T(==,!new)>(xs: seq<T>, p: T -> bool): (r: seq<T>)
    ensures IsSubsequence(r, xs)
    ensures forall i :: 0 <= i < |r| ==> p(r[i])
    ensures forall v :: Count(r, v) == if p(v) then Count(xs, v) else 0
    ensures (forall i :: 0 <= i < |xs| ==> p(xs[i])) ==> r == xs
  {
    if xs == [] then []
    else if p(xs[0]) then [xs[0]] + Where(xs[1..], p)
    else Where(xs[1..], p)
  }

  /** The values of the present cells, missing cells dropped. */
  function Present<T(==,!new)>(xs: seq<Option<T>>): (r: seq<T>)
    ensures |r| == |xs| - Count(xs, None)
    ensures forall v :: Count(r, v) == Count(xs, Some(v))
  {
    if xs == [] then []
    else match xs[0]
      case None => Present(xs[1..])
      case Some(v) => [v] + Present(xs[1..])
  }

  /** No value occurs twice in `s`. */
  predicate Distinct<T(==,!new)>(s: seq<T>) {
    forall i, j :: 0 <= i < j < |s| ==> s[i] != s[j]
  }

  lemma DistinctCons<T(!new)>(a: T, s: seq<T>)
    requires a !in s && Distinct(s)
    ensures Distinct([a] + s)
  {
  }

  /** Each value of `xs` exactly once. */
  function Dedup<T(==,!new)>(xs: seq<T>): (r: seq<T>)
    ensures Distinct(r)
    ensures forall v :: v in r <==> v in xs
  {
    if xs == [] then []
    else
      var d := Dedup(xs[1..]);
      if xs[0] in d then d else [xs[0]] + d
  }

  lemma {:induction false} CountDistinct<T(!new)>(ds: seq<T>, x: T)
    requires Distinct(ds) && x in ds
    ensures Count(ds, x) == 1
  {
    if ds[0] == x {
      assert x !in ds[1..];
    } else {
      CountDistinct(ds[1..], x);
    }
  }
}
