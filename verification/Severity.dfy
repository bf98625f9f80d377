/** The digest order: an in-place insertion sort by severity (notify/notify.go). */
module SeveritySort {
  import opened Findings

  function SeverityRank(s: Severity): (r: nat)
    ensures r as int == if s.Valid() then s.Rank() else 0
  {
    match s
    case Critical => 4
    case High => 3
    case Medium => 2
    case Low => 1
    case _ => 0
  }

  function RankOf(f: Finding): nat { SeverityRank(f.severity) }

  /** The findings of one rank, in their order. */
  function OfRank(fs: seq<Finding>, r: nat): seq<Finding> {
    if fs == [] then [] else (if RankOf(fs[0]) == r then [fs[0]] else []) + OfRank(fs[1..], r)
  }

  /** The findings of rank at most top, rank by rank, each rank in its original order. */
  function Buckets(fs: seq<Finding>, top: nat): seq<Finding> {
    if top == 0 then OfRank(fs, 0) else OfRank(fs, top) + Buckets(fs, top - 1)
  }

  function BySeverity(fs: seq<Finding>): seq<Finding> { Buckets(fs, 4) }

  ghost predicate Descending(fs: seq<Finding>) {
    forall p, q :: 0 <= p < q < |fs| ==> RankOf(fs[p]) >= RankOf(fs[q])
  }

  lemma {:induction false} OfRankConcat(a: seq<Finding>, b: seq<Finding>, r: nat)
    ensures OfRank(a + b, r) == OfRank(a, r) + OfRank(b, r)
  {
    if a == [] {
      assert a + b == b;
    } else {
      assert (a + b)[1..] == a[1..] + b;
      OfRankConcat(a[1..], b, r);
    }
  }

  /** Swapping neighbours of different rank moves nothing within a rank. */
  lemma SwapKeepsRanks(fs: seq<Finding>, j: nat, r: nat)
    requires 0 < j < |fs| && RankOf(fs[j - 1]) != RankOf(fs[j])
    ensures OfRank(fs[j := fs[j - 1]][j - 1 := fs[j]], r) == OfRank(fs, r)
  {
    var a, x, y, b := fs[..j - 1], fs[j - 1], fs[j], fs[j + 1..];
    assert fs == a + ([x] + ([y] + b)) && fs[j := x][j - 1 := y] == a + ([y] + ([x] + b));
    OfRankConcat(a, [x] + ([y] + b), r);
    OfRankConcat(a, [y] + ([x] + b), r);
    OfRankConcat([x], [y] + b, r);
    OfRankConcat([y], [x] + b, r);
    OfRankConcat([y], b, r);
    OfRankConcat([x], b, r);
    assert OfRank([x], r) == [] || OfRank([y], r) == [] by {
      assert [x][1..] == [] && [y][1..] == [];
    }
  }

  lemma {:induction false} BucketsHead(fs: seq<Finding>, top: nat)
    requires fs != [] && RankOf(fs[0]) <= top
    requires forall i :: 0 <= i < |fs| ==> RankOf(fs[i]) <= RankOf(fs[0])
    ensures Buckets(fs, top) == [fs[0]] + Buckets(fs[1..], top)
  {
    if RankOf(fs[0]) < top {
      NoneOfRank(fs, top);
      NoneOfRank(fs[1..], top);
      BucketsHead(fs, top - 1);
    } else {
      BucketsAtHead(fs);
    }
  }

  lemma BucketsAtHead(fs: seq<Finding>)
    requires fs != []
    ensures Buckets(fs, RankOf(fs[0])) == [fs[0]] + Buckets(fs[1..], RankOf(fs[0]))
  {
    var top := RankOf(fs[0]);
    assert OfRank(fs, top) == [fs[0]] + OfRank(fs[1..], top);
    if top > 0 {
      BucketsBelow(fs, top - 1);
      Assoc([fs[0]], OfRank(fs[1..], top), Buckets(fs[1..], top - 1));
    }
  }

  lemma Assoc(a: seq<Finding>, b: seq<Finding>, c: seq<Finding>)
    ensures a + b + c == a + (b + c)
  {
  }

  lemma {:induction false} BucketsBelow(fs: seq<Finding>, top: nat)
    requires fs != [] && top < RankOf(fs[0])
    ensures Buckets(fs, top) == Buckets(fs[1..], top)
  {
    if top == 0 {
    } else {
      assert OfRank(fs, top) == OfRank(fs[1..], top);
      BucketsBelow(fs, top - 1);
    }
  }

  lemma {:induction false} NoneOfRank(fs: seq<Finding>, r: nat)
    requires forall i :: 0 <= i < |fs| ==> RankOf(fs[i]) < r
    ensures OfRank(fs, r) == []
  {
    if fs == [] {
    } else {
      NoneOfRank(fs[1..], r);
    }
  }

  /** A descending list is its own bucket order. */
  lemma {:induction false} DescendingIsBuckets(fs: seq<Finding>, top: nat)
    requires Descending(fs) && forall i :: 0 <= i < |fs| ==> RankOf(fs[i]) <= top
    ensures fs == Buckets(fs, top)
  {
    if fs == [] {
      EmptyBuckets(top);
    } else {
      assert forall p, q :: 0 <= p < q < |fs[1..]| ==> fs[1..][p] == fs[p + 1] && fs[1..][q] == fs[q + 1];
      DescendingIsBuckets(fs[1..], top);
      BucketsHead(fs, top);
    }
  }

  lemma {:induction false} EmptyBuckets(top: nat)
    ensures Buckets([], top) == []
  {
    if top == 0 {
    } else {
      EmptyBuckets(top - 1);
    }
  }

  lemma {:induction false} BucketsDependOnRanks(a: seq<Finding>, b: seq<Finding>, top: nat)
    requires forall r: nat :: OfRank(a, r) == OfRank(b, r)
    ensures Buckets(a, top) == Buckets(b, top)
  {
    if top == 0 {
    } else {
      BucketsDependOnRanks(a, b, top - 1);
    }
  }

  /** One swap of the inner loop. */
  method SwapBack(fs: array<Finding>, j: nat)
    requires 0 < j < fs.Length && RankOf(fs[j - 1]) != RankOf(fs[j])
    modifies fs
    ensures fs[j] == old(fs[j - 1]) && fs[j - 1] == old(fs[j])
    ensures forall i :: 0 <= i < fs.Length && i != j && i != j - 1 ==> fs[i] == old(fs[i])
    ensures forall r: nat :: OfRank(fs[..], r) == OfRank(old(fs[..]), r)
  {
    ghost var before := fs[..];
    forall r: nat
      ensures OfRank(before[j := before[j - 1]][j - 1 := before[j]], r) == OfRank(before, r)
    {
      SwapKeepsRanks(before, j, r);
    }
    fs[j], fs[j - 1] := fs[j - 1], fs[j];
    assert fs[..] == before[j := before[j - 1]][j - 1 := before[j]];
  }

  method SortBySeverity(fs: array<Finding>)
    modifies fs
    ensures fs[..] == BySeverity(old(fs[..]))
  {
    ghost var was := fs[..];
    var i := 1;
    while i < fs.Length
      invariant i >= 1
      invariant Descending(fs[..if i <= fs.Length then i else fs.Length])
      invariant forall r: nat :: OfRank(fs[..], r) == OfRank(was, r)
    {
      var j := i;
      while j > 0 && SeverityRank(fs[j].severity) > SeverityRank(fs[j - 1].severity)
        invariant 0 <= j <= i
        invariant forall p, q :: 0 <= p < q <= i && q != j ==> RankOf(fs[p]) >= RankOf(fs[q])
        invariant forall r: nat :: OfRank(fs[..], r) == OfRank(was, r)
      {
        SwapBack(fs, j);
        j := j - 1;
      }
      i := i + 1;
    }
    assert fs.Length > 0 ==> fs[..fs.Length] == fs[..];
    DescendingIsBuckets(fs[..], 4);
    BucketsDependOnRanks(fs[..], was, 4);
  }

  // ----- what the order means -------------------------------------------------

  lemma {:induction false} OfRankOnly(fs: seq<Finding>, r: nat)
    ensures forall f :: f in OfRank(fs, r) ==> RankOf(f) == r
  {
    if fs == [] {
    } else {
      OfRankOnly(fs[1..], r);
    }
  }

  lemma {:induction false} OfRankTwice(fs: seq<Finding>, r: nat, q: nat)
    ensures OfRank(OfRank(fs, r), q) == if q == r then OfRank(fs, r) else []
  {
    if fs == [] {
    } else {
      OfRankTwice(fs[1..], r, q);
      var h := if RankOf(fs[0]) == r then [fs[0]] else [];
      assert OfRank(fs, r) == h + OfRank(fs[1..], r);
      OfRankConcat(h, OfRank(fs[1..], r), q);
      assert [fs[0]][1..] == [];
      assert OfRank(h, q) == if q == r then h else [];
    }
  }

  lemma {:induction false} BucketsFilter(fs: seq<Finding>, top: nat, q: nat)
    ensures OfRank(Buckets(fs, top), q) == if q <= top then OfRank(fs, q) else []
  {
    OfRankTwice(fs, top, q);
    if top == 0 {
    } else {
      BucketsFilter(fs, top - 1, q);
      OfRankConcat(OfRank(fs, top), Buckets(fs, top - 1), q);
    }
  }

  lemma {:induction false} BucketsDescend(fs: seq<Finding>, top: nat)
    ensures Descending(Buckets(fs, top))
    ensures forall f :: f in Buckets(fs, top) ==> RankOf(f) <= top
  {
    OfRankOnly(fs, top);
    if top > 0 {
      BucketsDescend(fs, top - 1);
      DescendingConcat(OfRank(fs, top), Buckets(fs, top - 1), top);
    } else {
      DescendingConcat(OfRank(fs, 0), [], 0);
    }
  }

  lemma DescendingConcat(a: seq<Finding>, b: seq<Finding>, top: nat)
    requires forall f :: f in a ==> RankOf(f) == top
    requires Descending(b) && forall f :: f in b ==> RankOf(f) <= top
    ensures Descending(a + b)
  {
    forall p, q | 0 <= p < q < |a + b|
      ensures RankOf((a + b)[p]) >= RankOf((a + b)[q])
    {
      if p < |a| {
        assert (a + b)[p] == a[p] && a[p] in a;
        assert (a + b)[q] in a || (a + b)[q] in b;
      } else {
        assert (a + b)[p] == b[p - |a|] && (a + b)[q] == b[q - |a|];
      }
    }
  }

  lemma {:induction false} CountInRank(fs: seq<Finding>, x: Finding)
    ensures multiset(fs)[x] == multiset(OfRank(fs, RankOf(x)))[x]
  {
    if fs == [] {
    } else {
      CountInRank(fs[1..], x);
      assert fs == [fs[0]] + fs[1..];
    }
  }

  /** Lists with the same findings in every rank are permutations of each other. */
  lemma RanksDetermineMultiset(a: seq<Finding>, b: seq<Finding>)
    requires forall r: nat :: OfRank(a, r) == OfRank(b, r)
    ensures multiset(a) == multiset(b)
  {
    forall x
      ensures multiset(a)[x] == multiset(b)[x]
    {
      CountInRank(a, x);
      CountInRank(b, x);
      assert OfRank(a, RankOf(x)) == OfRank(b, RankOf(x));
    }
  }

  /** A digest's order: most severe first, enqueue order within a severity rank, nothing lost or added. */
  lemma DigestOrder(fs: seq<Finding>)
    ensures Descending(BySeverity(fs))
    ensures multiset(BySeverity(fs)) == multiset(fs)
    ensures forall r: nat :: OfRank(BySeverity(fs), r) == OfRank(fs, r)
  {
    BucketsDescend(fs, 4);
    forall r: nat
      ensures OfRank(BySeverity(fs), r) == OfRank(fs, r)
    {
      BucketsFilter(fs, 4, r);
      if r > 4 {
        NoneOfRank(fs, r);
      }
    }
    RanksDetermineMultiset(BySeverity(fs), fs);
  }
}
