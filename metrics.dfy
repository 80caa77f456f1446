/** Ranking metrics for the recommender: recall and precision at a cutoff, average
    precision and its mean over queries. Python floats are modelled as exact reals;
    a cutoff `k` may be any integer, with Python's slicing and its run-time errors. */
module Metrics {
  import opened Wrappers

  datatype Error = IndexError | ZeroDivisionError

  /** `s[:k]`: the first `k` items, or all but the last `-k` when `k` is negative. */
  function Prefix<T>(s: seq<T>, k: int): (r: seq<T>)
    ensures r <= s
    ensures 0 <= k <= |s| ==> |r| == k
    ensures k > |s| ==> r == s
    ensures k < 0 ==> |r| == if |s| + k > 0 then |s| + k else 0
  {
    if k >= 0 then (if k <= |s| then s[..k] else s)
    else if |s| + k > 0 then s[..|s| + k]
    else []
  }

  /** How many positions of `s` hold a relevant item (a repeated item counts each time). */
  function Hits<T>(rel: set<T>, s: seq<T>): (n: nat)
    ensures n <= |s|
  {
    if s == [] then 0
    else Hits(rel, s[..|s| - 1]) + (if s[|s| - 1] in rel then 1 else 0)
  }

  /** The distinct relevant items among `s`. */
  function RelevantIn<T>(rel: set<T>, s: seq<T>): set<T> {
    set x | x in s && x in rel
  }

  /** No item occurs twice. */
  predicate Distinct<T(==)>(s: seq<T>) {
    forall i, j :: 0 <= i < j < |s| ==> s[i] != s[j]
  }

  /** A subset is no larger than its superset. */
  lemma {:induction false} SubsetNoLarger<T>(a: set<T>, b: set<T>)
    requires a <= b
    ensures |a| <= |b|
    decreases |b|
  {
    if a != {} {
      var x :| x in a;
      SubsetNoLarger(a - {x}, b - {x});
    }
  }

  /** Without repetitions, counting hits is counting the distinct relevant items. */
  lemma {:induction false} HitsOfDistinct<T>(rel: set<T>, s: seq<T>)
    requires Distinct(s)
    ensures Hits(rel, s) == |RelevantIn(rel, s)|
  {
    if s != [] {
      var init := s[..|s| - 1];
      var last := s[|s| - 1];
      assert Distinct(init);
      HitsOfDistinct(rel, init);
      assert s == init + [last];
      assert last !in init by {
        forall i | 0 <= i < |init| ensures init[i] != last {
          assert init[i] == s[i];
        }
      }
      if last in rel {
        assert RelevantIn(rel, s) == RelevantIn(rel, init) + {last};
      } else {
        assert RelevantIn(rel, s) == RelevantIn(rel, init);
      }
    }
  }

  /** `recall_at_k(relevant, retrieved, k)`. */
  function RecallAtK<T>(rel: set<T>, retrieved: seq<T>, k: int): (r: real)
    ensures 0.0 <= r <= 1.0
    ensures rel == {} ==> r == 0.0
  {
    if rel == {} then 0.0
    else
      var found := RelevantIn(rel, Prefix(retrieved, k));
      SubsetNoLarger(found, rel);
      |found| as real / |rel| as real
  }

  lemma RatioAtMostOne(a: real, b: real)
    requires 0.0 <= a <= b && b > 0.0
    ensures 0.0 <= a / b <= 1.0
  {
  }

  /** `precision_at_k(relevant, retrieved, k)`: the denominator is `k` itself, also
      when fewer than `k` items were retrieved or `k` is negative. */
  function PrecisionAtK<T>(rel: set<T>, retrieved: seq<T>, k: int): (p: real)
    ensures k > 0 ==> 0.0 <= p <= 1.0
    ensures k == 0 ==> p == 0.0
    ensures k < 0 ==> p <= 0.0
  {
    if k == 0 then 0.0
    else
      var hits := Hits(rel, Prefix(retrieved, k));
      if k > 0 then
        RatioAtMostOne(hits as real, k as real);
        hits as real / k as real
      else
        hits as real / k as real
  }

  /** A list shorter than `k` still divides by `k`: the hits among all retrieved items
      over `k`, so a cutoff past the list scales precision down. */
  lemma PrecisionShortList<T>(rel: set<T>, retrieved: seq<T>, k: int)
    requires 0 < |retrieved| < k
    ensures PrecisionAtK(rel, retrieved, k) * k as real == PrecisionAtK(rel, retrieved, |retrieved|) * |retrieved| as real
  {
    var h := Hits(rel, retrieved) as real;
    PrecisionOfWholeList(rel, retrieved, k);
    PrecisionOfWholeList(rel, retrieved, |retrieved|);
    SameHitsSameProduct(h, k as real, |retrieved| as real);
  }

  /** With the cutoff at or past the end, precision is all hits over `k`. */
  lemma PrecisionOfWholeList<T>(rel: set<T>, retrieved: seq<T>, k: int)
    requires 0 < k && |retrieved| <= k
    ensures PrecisionAtK(rel, retrieved, k) == Hits(rel, retrieved) as real / k as real
  {
    assert Prefix(retrieved, k) == retrieved;
  }

  /** Two ratios with the same numerator, multiplied back by their denominators, agree. */
  lemma SameHitsSameProduct(h: real, a: real, b: real)
    requires a > 0.0 && b > 0.0
    ensures h / a * a == h / b * b
  {
  }

  /** One relevant item retrieved, cutoff 4: precision is 1/4, not 1. */
  lemma PrecisionShortListExample()
    ensures PrecisionAtK({"a"}, ["a"], 4) == 0.25
  {
    PrecisionShortList({"a"}, ["a"], 4);
    assert ["a"][..0] == [];
    assert Hits({"a"}, ["a"]) == 1;
  }

  /** When the first `k` retrieved items are distinct, precision times `k` and recall
      times the number of relevant items both count the relevant items found. */
  lemma PrecisionRecallAgree<T>(rel: set<T>, retrieved: seq<T>, k: int)
    requires rel != {} && 0 < k <= |retrieved|
    requires Distinct(retrieved[..k])
    ensures PrecisionAtK(rel, retrieved, k) * k as real == RecallAtK(rel, retrieved, k) * |rel| as real
  {
    HitsOfDistinct(rel, retrieved[..k]);
  }

  /** Recall never falls as the cutoff grows. */
  lemma RecallGrowsWithCutoff<T>(rel: set<T>, retrieved: seq<T>, k: nat, k': nat)
    requires k <= k'
    ensures RecallAtK(rel, retrieved, k) <= RecallAtK(rel, retrieved, k')
  {
    if rel != {} {
      var a := RelevantIn(rel, Prefix(retrieved, k));
      var b := RelevantIn(rel, Prefix(retrieved, k'));
      assert Prefix(retrieved, k) <= Prefix(retrieved, k');
      assert a <= b;
      SubsetNoLarger(a, b);
    }
  }

  /** The sum the average-precision loop builds over ranks 1..i: at each relevant
      rank, the hits so far divided by the rank. */
  function ApSum<T>(rel: set<T>, retrieved: seq<T>, i: nat): real
    requires i <= |retrieved|
  {
    if i == 0 then 0.0
    else ApSum(rel, retrieved, i - 1)
         + (if retrieved[i - 1] in rel then Hits(rel, retrieved[..i]) as real / i as real else 0.0)
  }

  function Min(a: int, b: int): int {
    if a < b then a else b
  }

  /** `average_precision(relevant, retrieved, k)`: 0.0 without relevant items; an
      IndexError when the loop reads past the retrieved list; a ZeroDivisionError
      when `k` is 0; 0.0 for negative `k`. */
  function AveragePrecisionOf<T>(rel: set<T>, retrieved: seq<T>, k: int): (r: Result<real, Error>)
    ensures r.Failure? <==> rel != {} && (k == 0 || k > |retrieved|)
    ensures r.Failure? ==> r.error == if k == 0 then ZeroDivisionError else IndexError
    ensures r.Success? && (rel == {} || k < 0) ==> r.value == 0.0
  {
    if rel == {} then Success(0.0)
    else if k > |retrieved| then Failure(IndexError)
    else if k == 0 then Failure(ZeroDivisionError)
    else if k < 0 then Success(0.0 / k as real)
    else Success(ApSum(rel, retrieved, k) / Min(|rel|, k) as real)
  }

  /** The loop of `average_precision`, keeping the hit count and the running sum. */
  method AveragePrecision<T>(rel: set<T>, retrieved: seq<T>, k: int) returns (r: Result<real, Error>)
    ensures r == AveragePrecisionOf(rel, retrieved, k)
  {
    if rel == {} {
      return Success(0.0);
    }
    var ap := 0.0;
    var numHits := 0;
    var i := 1;
    while i <= k
      invariant 1 <= i && i - 1 <= |retrieved|
      invariant k >= 0 ==> i <= k + 1
      invariant k < 0 ==> i == 1
      invariant numHits == Hits(rel, retrieved[..i - 1])
      invariant ap == ApSum(rel, retrieved, i - 1)
    {
      if i - 1 >= |retrieved| {
        return Failure(IndexError);
      }
      assert retrieved[..i][..i - 1] == retrieved[..i - 1];
      if retrieved[i - 1] in rel {
        numHits := numHits + 1;
        ap := ap + numHits as real / i as real;
      }
      i := i + 1;
    }
    var denominator := Min(|rel|, k);
    if denominator == 0 {
      return Failure(ZeroDivisionError);
    }
    return Success(ap / denominator as real);
  }

  /** Every term of the sum is at most one, so the sum is at most the hit count. */
  lemma {:induction false} ApSumAtMostHits<T>(rel: set<T>, retrieved: seq<T>, i: nat)
    requires i <= |retrieved|
    ensures 0.0 <= ApSum(rel, retrieved, i) <= Hits(rel, retrieved[..i]) as real
  {
    if i > 0 {
      ApSumAtMostHits(rel, retrieved, i - 1);
      assert retrieved[..i][..i - 1] == retrieved[..i - 1];
      var h := Hits(rel, retrieved[..i]);
      if retrieved[i - 1] in rel {
        assert h == Hits(rel, retrieved[..i - 1]) + 1;
        RatioAtMostOne(h as real, i as real);
      } else {
        assert h == Hits(rel, retrieved[..i - 1]);
      }
    }
  }

  /** Average precision lies between 0 and 1 when the first `k` retrieved items are distinct. */
  lemma AveragePrecisionBounded<T>(rel: set<T>, retrieved: seq<T>, k: int)
    requires AveragePrecisionOf(rel, retrieved, k).Success?
    requires 0 <= k <= |retrieved| ==> Distinct(retrieved[..k])
    ensures 0.0 <= AveragePrecisionOf(rel, retrieved, k).value <= 1.0
  {
    if rel != {} && k > 0 {
      var s := retrieved[..k];
      ApSumAtMostHits(rel, retrieved, k);
      HitsOfDistinct(rel, s);
      SubsetNoLarger(RelevantIn(rel, s), rel);
      var m := Min(|rel|, k);
      assert ApSum(rel, retrieved, k) <= m as real;
      RatioAtMostOne(ApSum(rel, retrieved, k), m as real);
    }
  }


  /** Average precision is never negative. */
  lemma AveragePrecisionNonNegative<T>(rel: set<T>, retrieved: seq<T>, k: int)
    requires AveragePrecisionOf(rel, retrieved, k).Success?
    ensures AveragePrecisionOf(rel, retrieved, k).value >= 0.0
  {
    if rel != {} && k > 0 {
      ApSumAtMostHits(rel, retrieved, k);
    }
  }

  /** A ranking whose first `k` items are `k` distinct members of the relevant set scores exactly 1. */
  lemma PerfectRankingScoresOne<T>(rel: set<T>, retrieved: seq<T>, k: nat)
    requires 0 < k <= |retrieved|
    requires Distinct(retrieved[..k])
    requires forall i :: 0 <= i < k ==> retrieved[i] in rel
    ensures AveragePrecisionOf(rel, retrieved, k) == Success(1.0)
  {
    AllHitsSum(rel, retrieved, k);
    HitsOfDistinct(rel, retrieved[..k]);
    SubsetNoLarger(RelevantIn(rel, retrieved[..k]), rel);
    assert Min(|rel|, k) == k;
    assert (k as real) / (k as real) == 1.0;
  }

  lemma {:induction false} AllHitsSum<T>(rel: set<T>, retrieved: seq<T>, i: nat)
    requires i <= |retrieved|
    requires forall j :: 0 <= j < i ==> retrieved[j] in rel
    ensures Hits(rel, retrieved[..i]) == i
    ensures ApSum(rel, retrieved, i) == i as real
  {
    if i > 0 {
      AllHitsSum(rel, retrieved, i - 1);
      assert retrieved[..i][..i - 1] == retrieved[..i - 1];
      assert Hits(rel, retrieved[..i]) == i;
      assert (i as real) / (i as real) == 1.0;
    }
  }

  /** {"a"} against ["a", "a"] at k = 2: the repeated hit is counted twice and the score is 2. */
  lemma RepeatedHitScoresTwo()
    ensures AveragePrecisionOf({"a"}, ["a", "a"], 2) == Success(2.0)
  {
    var r := ["a", "a"];
    assert r[..1] == ["a"] && r[..2] == r;
    assert r[..1][..0] == [];
    assert Hits({"a"}, r[..1]) == 1;
    assert Hits({"a"}, r[..2]) == 2;
    assert ApSum({"a"}, r, 1) == 1.0;
  }

  /** Precision counts a repeated relevant item at each position; recall counts it once. */
  lemma RepeatsInPrecisionAndRecall()
    ensures PrecisionAtK({"a"}, ["a", "a", "b"], 3) == 2.0 / 3.0
    ensures RecallAtK({"a", "b"}, ["a", "a", "c"], 3) == 0.5
  {
    var r := ["a", "a", "b"];
    assert r[..2][..1] == ["a"] && r[..3][..2] == r[..2];
    assert Hits({"a"}, r[..2]) == 2;
    assert Hits({"a"}, r) == 2;
    var r' := ["a", "a", "c"];
    assert Prefix(r', 3) == r';
    assert RelevantIn({"a", "b"}, r') == {"a"};
    assert |{"a", "b"}| == 2;
  }

  /** `mean_average_precision(queries, predictions, k)`: each query is scored against an
      empty relevant set, so every score, and so the mean, is 0. */
  method MeanAveragePrecision<Q(==), T(==)>(queries: seq<Q>, predictions: map<Q, seq<T>>, k: int) returns (m: Result<real, Error>)
    ensures m == Success(0.0)
  {
    var mapTotal := 0.0;
    var numQueries := |queries|;
    var n := 0;
    while n < |queries|
      invariant 0 <= n <= |queries|
      invariant mapTotal == 0.0
    {
      var relevant: set<T> := {};
      var retrieved := if queries[n] in predictions then predictions[queries[n]] else [];
      var ap := AveragePrecision(relevant, retrieved, k);
      mapTotal := mapTotal + ap.value;
      n := n + 1;
    }
    if numQueries != 0 {
      return Success(mapTotal / numQueries as real);
    }
    return Success(0.0);
  }
}
