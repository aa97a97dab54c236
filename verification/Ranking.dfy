/**
 The ranking metrics of `memory/evaluation.py` over the reals. The gain `2**rel - 1` and the discount
 `1 / log2(i + 2)` are parameters, of which only their order properties are used.
 */
module Ranking {
  import opened Sequences

  type Id = string

  /** One item of the normalised relevance dict. */
  datatype Grade = Grade(id: Id, value: real)

  datatype Scoring = Scoring(gain: real -> real, discount: nat -> real)

  /** True of `2**rel - 1` and `1 / log2(i + 2)`. */
  ghost predicate Admissible(s: Scoring) {
    && s.gain(0.0) == 0.0
    && (forall x, y :: Rises(s, x, y))
    && (forall i: nat, j: nat :: Falls(s, i, j))
  }

  predicate Rises(s: Scoring, x: real, y: real) {
    x < y ==> s.gain(x) < s.gain(y)
  }

  predicate Falls(s: Scoring, i: nat, j: nat) {
    s.discount(i) > 0.0 && (i < j ==> s.discount(j) < s.discount(i))
  }

  // ---- The relevance dict ----

  function Ids(rel: seq<Grade>): seq<Id> {
    if rel == [] then [] else [rel[0].id] + Ids(rel[1..])
  }

  function Values(rel: seq<Grade>): seq<real> {
    if rel == [] then [] else [rel[0].value] + Values(rel[1..])
  }

  /** `rel_map.get(id, 0.0)`. */
  function GradeOf(rel: seq<Grade>, id: Id): real {
    if rel == [] then 0.0 else if rel[0].id == id then rel[0].value else GradeOf(rel[1..], id)
  }

  /** The dict built from a list of relevant ids: grade 1.0 each, repeated ids collapse. */
  function FromIds(ids: seq<Id>): seq<Grade> {
    if ids == [] then []
    else
      var n := |ids| - 1;
      if ids[n] in ids[..n] then FromIds(ids[..n]) else FromIds(ids[..n]) + [Grade(ids[n], 1.0)]
  }

  function Grades(ids: seq<Id>, rel: seq<Grade>): (gs: seq<real>)
    ensures |gs| == |ids| && forall i :: 0 <= i < |ids| ==> gs[i] == GradeOf(rel, ids[i])
  {
    seq(|ids|, i requires 0 <= i < |ids| => GradeOf(rel, ids[i]))
  }

  /** `xs[:k]` for a positive `k`. */
  function Take<T>(xs: seq<T>, k: int): seq<T>
    requires k >= 0
  {
    if k < |xs| then xs[..k] else xs
  }

  // ---- Sorting, as `sorted(..., reverse=True)` ----

  ghost predicate Descending(xs: seq<real>) {
    xs == [] || ((forall x :: x in xs[1..] ==> xs[0] >= x) && Descending(xs[1..]))
  }

  function Inserted(x: real, xs: seq<real>): seq<real> {
    if xs == [] || x >= xs[0] then [x] + xs else [xs[0]] + Inserted(x, xs[1..])
  }

  function Sorted(xs: seq<real>): seq<real> {
    if xs == [] then [] else Inserted(xs[0], Sorted(xs[1..]))
  }

  lemma Member(xs: seq<real>, x: real)
    ensures x in xs <==> x in multiset(xs)
  {
  }

  lemma {:induction false} InsertedDescending(x: real, xs: seq<real>)
    requires Descending(xs)
    ensures Descending(Inserted(x, xs))
    ensures forall y :: y in Inserted(x, xs) <==> y == x || y in xs
  {
    if xs == [] || x >= xs[0] {
      assert ([x] + xs)[1..] == xs;
      assert xs != [] ==> xs == [xs[0]] + xs[1..];
    } else {
      var out := Inserted(x, xs[1..]);
      InsertedDescending(x, xs[1..]);
      assert xs == [xs[0]] + xs[1..];
      assert ([xs[0]] + out)[1..] == out;
    }
  }

  lemma {:induction false} InsertedMultiset(x: real, xs: seq<real>)
    ensures multiset(Inserted(x, xs)) == multiset(xs) + multiset{x}
  {
    if xs == [] || x >= xs[0] {
    } else {
      InsertedMultiset(x, xs[1..]);
      assert xs == [xs[0]] + xs[1..];
    }
  }

  /** Sorting yields the same grades in descending order. */
  lemma {:induction false} SortedFacts(xs: seq<real>)
    ensures Descending(Sorted(xs)) && multiset(Sorted(xs)) == multiset(xs)
  {
    if xs == [] {
    } else {
      SortedFacts(xs[1..]);
      InsertedDescending(xs[0], Sorted(xs[1..]));
      InsertedMultiset(xs[0], Sorted(xs[1..]));
      assert xs == [xs[0]] + xs[1..];
    }
  }

  // ---- Discounted gain ----

  function Credit(s: Scoring, g: real): real {
    if g > 0.0 then s.gain(g) else 0.0
  }

  /** The credit at rank `i`, zero beyond the end. */
  function At(s: Scoring, gs: seq<real>, i: nat): real {
    if i < |gs| then Credit(s, gs[i]) else 0.0
  }

  /** The discounted sum of the first `n` ranks. */
  function Weighted(s: Scoring, gs: seq<real>, n: nat): real {
    if n == 0 then 0.0 else Weighted(s, gs, n - 1) + At(s, gs, n - 1) * s.discount(n - 1)
  }

  /** The plain sum of the first `n` ranks. */
  function Cumulative(s: Scoring, gs: seq<real>, n: nat): real {
    if n == 0 then 0.0 else Cumulative(s, gs, n - 1) + At(s, gs, n - 1)
  }

  function Dcg(s: Scoring, ids: seq<Id>, rel: seq<Grade>, k: int): real
    requires k >= 0
  {
    var gs := Grades(Take(ids, k), rel);
    Weighted(s, gs, |gs|)
  }

  function Ideal(rel: seq<Grade>, k: int): seq<real>
    requires k >= 0
  {
    Take(Sorted(Values(rel)), k)
  }

  function Idcg(s: Scoring, rel: seq<Grade>, k: int): real
    requires k >= 0
  {
    Weighted(s, Ideal(rel, k), |Ideal(rel, k)|)
  }

  method ComputeNdcgAtK(ids: seq<Id>, rel: seq<Grade>, k: int, s: Scoring) returns (score: real)
    ensures ids == [] || rel == [] || k <= 0 ==> score == 0.0
    ensures ids != [] && rel != [] && k > 0 && Idcg(s, rel, k) == 0.0 ==> score == 0.0
    ensures ids != [] && rel != [] && k > 0 && Idcg(s, rel, k) != 0.0 ==>
      var ratio := Dcg(s, ids, rel, k) / Idcg(s, rel, k);
      score == if ratio < 1.0 then ratio else 1.0
  {
    if ids == [] || rel == [] || k <= 0 {
      return 0.0;
    }
    var top := Take(ids, k);
    ghost var gs := Grades(top, rel);
    var dcg := 0.0;
    for i := 0 to |top|
      invariant dcg == Weighted(s, gs, i)
    {
      var grade := GradeOf(rel, top[i]);
      if grade > 0.0 {
        dcg := dcg + s.gain(grade) * s.discount(i);
      }
    }
    var best := Take(Sorted(Values(rel)), k);
    var idcg := 0.0;
    for i := 0 to |best|
      invariant idcg == Weighted(s, best, i)
    {
      if best[i] > 0.0 {
        idcg := idcg + s.gain(best[i]) * s.discount(i);
      }
    }
    if idcg == 0.0 {
      return 0.0;
    }
    score := if dcg / idcg < 1.0 then dcg / idcg else 1.0;
  }

  // ---- The sum of any n grades is at most the sum of the n best ----

  function Total(s: Scoring, gs: seq<real>): real {
    if gs == [] then 0.0 else Credit(s, gs[0]) + Total(s, gs[1..])
  }

  function Positives(gs: seq<real>): seq<real> {
    if gs == [] then []
    else (if gs[0] > 0.0 then [gs[0]] else []) + Positives(gs[1..])
  }

  lemma {:induction false} TotalOfPositives(s: Scoring, gs: seq<real>)
    ensures Total(s, Positives(gs)) == Total(s, gs) && |Positives(gs)| <= |gs|
    ensures forall x :: x in Positives(gs) ==> x > 0.0
  {
    if gs == [] {
    } else {
      TotalOfPositives(s, gs[1..]);
      assert ([gs[0]] + Positives(gs[1..]))[1..] == Positives(gs[1..]);
      assert [] + Positives(gs[1..]) == Positives(gs[1..]);
    }
  }

  lemma {:induction false} TotalWithout(s: Scoring, gs: seq<real>, j: nat)
    requires j < |gs|
    ensures Total(s, gs) == Credit(s, gs[j]) + Total(s, gs[..j] + gs[j + 1..])
  {
    if j == 0 {
      assert gs[..0] + gs[1..] == gs[1..];
    } else {
      TotalWithout(s, gs[1..], j - 1);
      var left := gs[..j] + gs[j + 1..];
      assert left[1..] == gs[1..][..j - 1] + gs[1..][j..];
      assert left[0] == gs[0];
    }
  }

  lemma MultisetWithout(gs: seq<real>, j: nat)
    requires j < |gs|
    ensures multiset(gs) == multiset(gs[..j] + gs[j + 1..]) + multiset{gs[j]}
  {
    assert gs == gs[..j] + [gs[j]] + gs[j + 1..];
  }

  lemma CreditRises(s: Scoring, x: real, y: real)
    requires Admissible(s) && x <= y
    ensures 0.0 <= Credit(s, x) <= Credit(s, y)
  {
    assert Rises(s, 0.0, x) && Rises(s, 0.0, y) && Rises(s, x, y);
  }

  lemma {:induction false} BestAreBest(s: Scoring, gs: seq<real>, top: seq<real>)
    requires Admissible(s) && Descending(top) && multiset(gs) <= multiset(top)
    requires |gs| <= |top|
    ensures Total(s, gs) <= Total(s, top[..|gs|])
    decreases |top|
  {
    if gs != [] {
      var best, rest := top[0], top[1..];
      assert top == [best] + rest;
      var j := PickNoBetter(gs, top);
      var left := gs[..j] + gs[j + 1..];
      MultisetWithout(gs, j);
      OneLess(multiset(gs), multiset(left), gs[j], multiset(top), multiset(rest), best);
      BestAreBest(s, left, rest);
      TotalWithout(s, gs, j);
      TotalOfCons(s, best, rest, |left|);
      CreditRises(s, gs[j], best);
    }
  }

  lemma TotalOfCons(s: Scoring, best: real, rest: seq<real>, n: nat)
    requires n <= |rest|
    ensures Total(s, ([best] + rest)[..n + 1]) == Credit(s, best) + Total(s, rest[..n])
  {
    assert ([best] + rest)[..n + 1][1..] == rest[..n];
  }

  lemma NotLonger(gs: seq<real>, top: seq<real>)
    requires multiset(gs) <= multiset(top)
    ensures |gs| <= |top|
  {
    var more := multiset(top) - multiset(gs);
    assert multiset(top) == multiset(gs) + more;
    assert |multiset(top)| == |multiset(gs)| + |more|;
  }

  /** The rank of the best grade among `gs` if it is there, any rank otherwise. */
  lemma PickNoBetter(gs: seq<real>, top: seq<real>) returns (j: nat)
    requires gs != [] && top != [] && Descending(top) && multiset(gs) <= multiset(top)
    ensures j < |gs| && gs[j] <= top[0] && (top[0] in multiset(gs) ==> gs[j] == top[0])
  {
    Member(gs, top[0]);
    j := if top[0] in gs then (var i :| 0 <= i < |gs| && gs[i] == top[0]; i) else 0;
    Member(gs, gs[j]);
    Member(top, gs[j]);
    assert top == [top[0]] + top[1..];
  }

  lemma OneLess(a: multiset<real>, a': multiset<real>, x: real, b: multiset<real>, b': multiset<real>, y: real)
    requires a <= b && a == a' + multiset{x} && b == b' + multiset{y}
    requires y in a ==> x == y
    ensures a' <= b'
  {
    forall z
      ensures a'[z] <= b'[z]
    {
      assert a[z] <= b[z];
    }
  }

  lemma {:induction false} TotalMonotone(s: Scoring, gs: seq<real>, m: nat, n: nat)
    requires Admissible(s) && m <= n <= |gs|
    ensures Total(s, gs[..m]) <= Total(s, gs[..n])
  {
    if n == 0 {
    } else if m == 0 {
      TotalMonotone(s, gs[1..], 0, n - 1);
      assert gs[..n][1..] == gs[1..][..n - 1];
      assert gs[1..][..0] == [] && gs[..0] == [];
      CreditRises(s, gs[0], gs[0]);
    } else {
      TotalMonotone(s, gs[1..], m - 1, n - 1);
      assert gs[..n][1..] == gs[1..][..n - 1] && gs[..m][1..] == gs[1..][..m - 1];
    }
  }

  lemma {:induction false} CumulativeIsTotal(s: Scoring, gs: seq<real>, n: nat)
    ensures Cumulative(s, gs, n) == Total(s, Take(gs, n))
  {
    if n == 0 {
      assert Take(gs, 0) == [];
    } else {
      CumulativeIsTotal(s, gs, n - 1);
      if n <= |gs| {
        TotalWithout(s, gs[..n], n - 1);
        assert gs[..n][..n - 1] + gs[..n][n..] == gs[..n - 1];
        assert gs[..|gs|] == gs;
      }
    }
  }

  // ---- The grades of distinct ids are among the grades of the dict ----

  function Drop(rel: seq<Grade>, id: Id): seq<Grade> {
    if rel == [] then [] else if rel[0].id == id then rel[1..] else [rel[0]] + Drop(rel[1..], id)
  }

  lemma {:induction false} IdsElements(rel: seq<Grade>, id: Id)
    ensures id !in Ids(rel) ==> GradeOf(rel, id) == 0.0
    ensures forall x :: x in Ids(Drop(rel, id)) ==> x in Ids(rel)
  {
    if rel == [] {
    } else {
      IdsElements(rel[1..], id);
      assert Ids(rel) == [rel[0].id] + Ids(rel[1..]);
      if rel[0].id != id {
        assert ([rel[0]] + Drop(rel[1..], id))[1..] == Drop(rel[1..], id);
      }
    }
  }

  lemma {:induction false} DropNoDup(rel: seq<Grade>, id: Id)
    requires NoDup(Ids(rel))
    ensures NoDup(Ids(Drop(rel, id)))
  {
    if rel != [] && rel[0].id != id {
      var rest := rel[1..];
      assert Ids(rel)[1..] == Ids(rest);
      DropNoDup(rest, id);
      IdsElements(rest, id);
      assert ([rel[0]] + Drop(rest, id))[1..] == Drop(rest, id);
      assert Ids(Drop(rel, id))[1..] == Ids(Drop(rest, id));
    }
  }

  lemma {:induction false} DropValues(rel: seq<Grade>, id: Id)
    requires id in Ids(rel)
    ensures multiset(Values(rel)) == multiset(Values(Drop(rel, id))) + multiset{GradeOf(rel, id)}
  {
    if rel[0].id != id {
      DropValues(rel[1..], id);
      assert ([rel[0]] + Drop(rel[1..], id))[1..] == Drop(rel[1..], id);
    }
  }

  lemma {:induction false} DropOthers(rel: seq<Grade>, id: Id, x: Id)
    requires x != id
    ensures GradeOf(Drop(rel, id), x) == GradeOf(rel, x)
  {
    if rel == [] {
    } else {
      DropOthers(rel[1..], id, x);
    }
  }

  lemma {:induction false} DistinctGrades(ids: seq<Id>, rel: seq<Grade>)
    requires NoDup(ids) && NoDup(Ids(rel))
    ensures multiset(Positives(Grades(ids, rel))) <= multiset(Values(rel))
    decreases |ids|
  {
    if ids == [] {
    } else {
      var id, rest := ids[0], ids[1..];
      var gs := Grades(ids, rel);
      assert gs[1..] == Grades(rest, rel);
      if gs[0] > 0.0 {
        var less := Drop(rel, id);
        IdsElements(rel, id);
        DropNoDup(rel, id);
        DropValues(rel, id);
        DistinctGrades(rest, less);
        GradesWithout(rest, rel, id);
        HeadOfPositives(gs, multiset(Values(less)));
      } else {
        DistinctGrades(rest, rel);
        assert Positives(gs) == [] + Positives(gs[1..]) == Positives(gs[1..]);
      }
    }
  }

  lemma GradesWithout(ids: seq<Id>, rel: seq<Grade>, id: Id)
    requires id !in ids
    ensures Grades(ids, rel) == Grades(ids, Drop(rel, id))
  {
    forall i | 0 <= i < |ids|
      ensures GradeOf(Drop(rel, id), ids[i]) == GradeOf(rel, ids[i])
    {
      assert ids[i] in ids;
      DropOthers(rel, id, ids[i]);
    }
  }

  lemma HeadOfPositives(gs: seq<real>, among: multiset<real>)
    requires gs != [] && gs[0] > 0.0 && multiset(Positives(gs[1..])) <= among
    ensures multiset(Positives(gs)) <= among + multiset{gs[0]}
  {
    assert Positives(gs) == [gs[0]] + Positives(gs[1..]);
  }

  lemma {:induction false} TakeNoDup(ids: seq<Id>, k: nat)
    requires NoDup(ids)
    ensures NoDup(Take(ids, k))
  {
    NoDupPairwise(ids);
    NoDupPairwise(Take(ids, k));
  }

  /** The plain sum of any `depth` distinct ids is at most the sum of the `depth` best grades. */
  lemma DepthBelowIdeal(s: Scoring, ids: seq<Id>, rel: seq<Grade>, depth: nat)
    requires Admissible(s) && NoDup(ids) && NoDup(Ids(rel)) && |ids| <= depth
    ensures Total(s, Grades(ids, rel)) <= Total(s, Take(Sorted(Values(rel)), depth))
  {
    var gs, all := Grades(ids, rel), Sorted(Values(rel));
    DistinctGrades(ids, rel);
    TotalOfPositives(s, gs);
    SortedFacts(Values(rel));
    NotLonger(Positives(gs), all);
    BestAreBest(s, Positives(gs), all);
    TotalUpTo(s, all, |Positives(gs)|, depth);
  }

  lemma TotalUpTo(s: Scoring, all: seq<real>, m: nat, depth: nat)
    requires Admissible(s) && m <= |all| && m <= depth
    ensures Total(s, all[..m]) <= Total(s, Take(all, depth))
  {
    TotalMonotone(s, all, m, if depth < |all| then depth else |all|);
    assert all[..|all|] == all;
  }

  /** At every depth the retrieved credit is at most the ideal credit. */
  lemma RetrievedBelowIdeal(s: Scoring, ids: seq<Id>, rel: seq<Grade>, k: nat, n: nat)
    requires Admissible(s) && NoDup(Take(ids, k)) && NoDup(Ids(rel))
    ensures Cumulative(s, Grades(Take(ids, k), rel), n) <= Cumulative(s, Ideal(rel, k), n)
  {
    var depth := if n < k then n else k;
    CumulativeIsTotal(s, Grades(Take(ids, k), rel), n);
    CumulativeIsTotal(s, Ideal(rel, k), n);
    assert Take(Grades(Take(ids, k), rel), n) == Grades(Take(ids, depth), rel);
    assert Take(Ideal(rel, k), n) == Take(Sorted(Values(rel)), depth);
    assert Take(Take(ids, k), depth) == Take(ids, depth);
    TakeNoDup(Take(ids, k), depth);
    DepthBelowIdeal(s, Take(ids, depth), rel, depth);
  }

  // ---- Summation by parts ----

  lemma {:induction false} SummedByParts(s: Scoring, a: seq<real>, b: seq<real>, n: nat)
    requires Admissible(s) && n >= 1
    requires forall m: nat :: m <= n ==> Cumulative(s, a, m) <= Cumulative(s, b, m)
    ensures Weighted(s, b, n) - Weighted(s, a, n) >=
      (Cumulative(s, b, n) - Cumulative(s, a, n)) * s.discount(n - 1)
  {
    var before := Cumulative(s, b, n - 1) - Cumulative(s, a, n - 1);
    var w := Weighted(s, b, n - 1) - Weighted(s, a, n - 1);
    assert Falls(s, n - 1, n);
    if n > 1 {
      SummedByParts(s, a, b, n - 1);
      assert Falls(s, n - 2, n - 1);
    }
    PartsStep(w, before, At(s, a, n - 1), At(s, b, n - 1), s.discount(n - 1),
              if n == 1 then s.discount(0) else s.discount(n - 2));
  }

  lemma PartsStep(w: real, before: real, x: real, y: real, d: real, e: real)
    requires before >= 0.0 && d <= e && w >= before * e
    ensures w + (y * d - x * d) >= (before + y - x) * d
  {
    assert before * d <= before * e;
    assert (before + y - x) * d == before * d + (y * d - x * d);
  }

  /** Equal discounted sums force equal credits at every rank. */
  lemma {:induction false} EqualSumsEqualCredits(s: Scoring, a: seq<real>, b: seq<real>, n: nat)
    requires Admissible(s)
    requires forall m: nat :: m <= n ==> Cumulative(s, a, m) <= Cumulative(s, b, m)
    requires Weighted(s, a, n) == Weighted(s, b, n)
    ensures forall m: nat :: m <= n ==> Cumulative(s, a, m) == Cumulative(s, b, m)
  {
    if n == 0 {
    } else {
      var before := Cumulative(s, b, n - 1) - Cumulative(s, a, n - 1);
      var w := Weighted(s, b, n - 1) - Weighted(s, a, n - 1);
      SummedByParts(s, a, b, n);
      assert Falls(s, n - 1, n);
      if n > 1 {
        SummedByParts(s, a, b, n - 1);
        assert Falls(s, n - 2, n - 1);
      }
      PartsEqual(w, before, At(s, a, n - 1), At(s, b, n - 1), s.discount(n - 1),
                 if n == 1 then 2.0 * s.discount(0) else s.discount(n - 2));
      EqualSumsEqualCredits(s, a, b, n - 1);
    }
  }

  lemma PartsEqual(w: real, before: real, x: real, y: real, d: real, e: real)
    requires before >= 0.0 && 0.0 < d < e && w >= before * e && w + (y * d - x * d) == 0.0
    requires before + y - x >= 0.0
    ensures before == 0.0 && before + y - x == 0.0 && w == 0.0
  {
    assert (before + y - x) * d == before * d + (y * d - x * d);
    NotNegative(before + y - x, d);
    assert w <= before * d;
    assert before * e - before * d == before * (e - d);
    ProductNotPositive(before, e - d);
    ProductNotPositive(before + y - x, d);
  }

  lemma NotNegative(x: real, d: real)
    requires x >= 0.0 && d >= 0.0
    ensures x * d >= 0.0
  {
  }

  lemma ProductNotPositive(x: real, d: real)
    requires x >= 0.0 && d > 0.0 && x * d <= 0.0
    ensures x == 0.0
  {
  }

  lemma {:induction false} WeightedBeyond(s: Scoring, gs: seq<real>, n: nat)
    requires n >= |gs|
    ensures Weighted(s, gs, n) == Weighted(s, gs, |gs|)
  {
    if n > |gs| {
      WeightedBeyond(s, gs, n - 1);
    }
  }

  // ---- What each rank contributes ----

  /** What replacing a credit at a rank adds. */
  function Gained(before: real, after: real, discount: real): real {
    (after - before) * discount
  }

  /** Another grade at rank `i` changes the sum by the difference of the gains, times the discount of that rank. */
  lemma {:induction false} ReplacedGrade(s: Scoring, gs: seq<real>, i: nat, g: real, n: nat)
    requires i < n <= |gs|
    ensures var before, after := if gs[i] > 0.0 then s.gain(gs[i]) else 0.0, if g > 0.0 then s.gain(g) else 0.0;
      Weighted(s, gs[i := g], n) - Weighted(s, gs, n) == Gained(before, after, s.discount(i))
  {
    var d := s.discount(n - 1);
    if i < n - 1 {
      ReplacedGrade(s, gs, i, g, n - 1);
    } else {
      SameBefore(s, gs, gs[i := g], n - 1);
      assert (Credit(s, g) - Credit(s, gs[i])) * d == Credit(s, g) * d - Credit(s, gs[i]) * d;
    }
  }

  lemma {:induction false} SameBefore(s: Scoring, a: seq<real>, b: seq<real>, n: nat)
    requires n <= |a| && n <= |b| && forall i :: 0 <= i < n ==> a[i] == b[i]
    ensures Weighted(s, a, n) == Weighted(s, b, n)
  {
    if n > 0 { SameBefore(s, a, b, n - 1); }
  }

  lemma {:induction false} NothingRelevant(s: Scoring, gs: seq<real>, n: nat)
    requires n <= |gs| && forall i :: 0 <= i < n ==> gs[i] <= 0.0
    ensures Weighted(s, gs, n) == 0.0
  {
    if n > 0 { NothingRelevant(s, gs, n - 1); }
  }

  function Exchanged<T>(xs: seq<T>, i: nat, j: nat): seq<T>
    requires i < j < |xs|
  {
    xs[i := xs[j]][j := xs[i]]
  }

  lemma GainedPositive(c: real, d: real, p: real)
    requires p > 0.0
    ensures Gained(c, d, p) > 0.0 <==> c < d
  {
    SignOfProduct(d - c, p);
  }

  lemma GainedBack(c: real, d: real, p: real, q: real)
    requires p > q
    ensures Gained(c, d, p) + Gained(d, c, q) > 0.0 <==> c < d
  {
    assert Gained(c, d, p) + Gained(d, c, q) == (d - c) * (p - q);
    SignOfProduct(d - c, p - q);
  }

  lemma SignOfProduct(x: real, d: real)
    requires d > 0.0
    ensures x * d > 0.0 <==> x > 0.0
  {
  }

  lemma CreditsCompare(s: Scoring, x: real, y: real)
    requires Admissible(s)
    ensures Credit(s, x) < Credit(s, y) <==> x < y && y > 0.0
  {
    assert Rises(s, x, y) && Rises(s, y, x) && Rises(s, 0.0, x) && Rises(s, 0.0, y);
  }

  lemma ReplacedRaises(s: Scoring, gs: seq<real>, i: nat, g: real)
    requires Admissible(s) && i < |gs|
    ensures Weighted(s, gs[i := g], |gs|) > Weighted(s, gs, |gs|) <==> gs[i] < g && g > 0.0
  {
    assert Falls(s, i, i);
    ReplacedGrade(s, gs, i, g, |gs|);
    CreditsCompare(s, gs[i], g);
    GainedPositive(Credit(s, gs[i]), Credit(s, g), s.discount(i));
  }

  lemma ExchangedRaises(s: Scoring, gs: seq<real>, i: nat, j: nat)
    requires Admissible(s) && i < j < |gs|
    ensures Weighted(s, Exchanged(gs, i, j), |gs|) > Weighted(s, gs, |gs|) <==> gs[i] < gs[j] && gs[j] > 0.0
  {
    assert Falls(s, i, j);
    ReplacedGrade(s, gs, i, gs[j], |gs|);
    ReplacedGrade(s, gs[i := gs[j]], j, gs[i], |gs|);
    CreditsCompare(s, gs[i], gs[j]);
    GainedBack(Credit(s, gs[i]), Credit(s, gs[j]), s.discount(i), s.discount(j));
  }

  lemma ExchangedGrades(ids: seq<Id>, rel: seq<Grade>, k: nat, i: nat, j: nat)
    requires i < j < |ids| && i < k
    ensures var gs := Grades(Take(ids, k), rel);
      Grades(Take(Exchanged(ids, i, j), k), rel)
      == if j < |gs| then Exchanged(gs, i, j) else gs[i := GradeOf(rel, ids[j])]
  {
  }

  /**
   Exchanging two results, the first of them among the first `k`, raises the DCG exactly if the one that moves
   forward is relevant and more so than the other: also when it comes from beyond the first `k`.
   */
  lemma ExchangeRaisesExactly(s: Scoring, ids: seq<Id>, rel: seq<Grade>, k: nat, i: nat, j: nat)
    requires Admissible(s) && i < j < |ids| && i < k
    ensures Dcg(s, Exchanged(ids, i, j), rel, k) > Dcg(s, ids, rel, k)
       <==> GradeOf(rel, ids[i]) < GradeOf(rel, ids[j]) && GradeOf(rel, ids[j]) > 0.0
  {
    var gs := Grades(Take(ids, k), rel);
    ExchangedGrades(ids, rel, k, i, j);
    if j < |gs| { ExchangedRaises(s, gs, i, j); } else { ReplacedRaises(s, gs, i, GradeOf(rel, ids[j])); }
  }

  // ---- The ideal is attained ----

  function Placed(g: Grade, ranked: seq<Grade>): seq<Grade> {
    if ranked == [] || g.value >= ranked[0].value then [g] + ranked else [ranked[0]] + Placed(g, ranked[1..])
  }

  /** The graded ids, best first. */
  function Ranked(rel: seq<Grade>): seq<Grade> {
    if rel == [] then [] else Placed(rel[0], Ranked(rel[1..]))
  }

  lemma {:induction false} PlacedFacts(g: Grade, ranked: seq<Grade>)
    requires g.id !in Ids(ranked) && NoDup(Ids(ranked))
    ensures NoDup(Ids(Placed(g, ranked))) && Values(Placed(g, ranked)) == Inserted(g.value, Values(ranked))
    ensures forall x :: x in Ids(Placed(g, ranked)) <==> x == g.id || x in Ids(ranked)
    ensures forall x :: x in Placed(g, ranked) <==> x == g || x in ranked
  {
    if ranked == [] || g.value >= ranked[0].value {
      assert ([g] + ranked)[1..] == ranked;
    } else {
      var rest, out := ranked[1..], Placed(g, ranked[1..]);
      assert ranked == [ranked[0]] + rest && Ids(ranked) == [ranked[0].id] + Ids(rest);
      PlacedFacts(g, rest);
      assert ([ranked[0]] + out)[1..] == out;
    }
  }

  lemma {:induction false} RankedFacts(rel: seq<Grade>)
    requires NoDup(Ids(rel))
    ensures NoDup(Ids(Ranked(rel))) && Values(Ranked(rel)) == Sorted(Values(rel))
    ensures forall x :: x in Ids(Ranked(rel)) <==> x in Ids(rel)
    ensures forall x :: x in Ranked(rel) <==> x in rel
  {
    if rel == [] {
    } else {
      assert rel == [rel[0]] + rel[1..] && Ids(rel) == [rel[0].id] + Ids(rel[1..]);
      RankedFacts(rel[1..]);
      PlacedFacts(rel[0], Ranked(rel[1..]));
    }
  }

  lemma {:induction false} IdsAndValues(rel: seq<Grade>)
    ensures |Ids(rel)| == |Values(rel)| == |rel|
    ensures forall i :: 0 <= i < |rel| ==> Ids(rel)[i] == rel[i].id && Values(rel)[i] == rel[i].value
  {
    if rel == [] {
    } else {
      IdsAndValues(rel[1..]);
    }
  }

  lemma {:induction false} GradeOfMember(rel: seq<Grade>, g: Grade)
    requires NoDup(Ids(rel)) && g in rel
    ensures GradeOf(rel, g.id) == g.value && g.id in Ids(rel)
  {
    assert rel == [rel[0]] + rel[1..] && Ids(rel) == [rel[0].id] + Ids(rel[1..]);
    if g != rel[0] { GradeOfMember(rel[1..], g); }
  }

  lemma RankedIsIdeal(rel: seq<Grade>, k: nat)
    requires NoDup(Ids(rel))
    ensures Grades(Take(Ids(Ranked(rel)), k), rel) == Ideal(rel, k)
  {
    var ranked := Ranked(rel);
    RankedFacts(rel);
    IdsAndValues(ranked);
    forall i | 0 <= i < |ranked|
      ensures GradeOf(rel, Ids(ranked)[i]) == Sorted(Values(rel))[i]
    {
      GradeOfMember(rel, ranked[i]);
    }
  }

  // ---- Main results ----

  /** With distinct ids among the first `k` the unclamped DCG never exceeds the ideal DCG, so the clamp is inert. */
  lemma DcgAtMostIdcg(s: Scoring, ids: seq<Id>, rel: seq<Grade>, k: nat)
    requires Admissible(s) && NoDup(Take(ids, k)) && NoDup(Ids(rel))
    ensures Dcg(s, ids, rel, k) <= Idcg(s, rel, k)
  {
    var a, b := Grades(Take(ids, k), rel), Ideal(rel, k);
    forall m: nat
      ensures Cumulative(s, a, m) <= Cumulative(s, b, m)
    {
      RetrievedBelowIdeal(s, ids, rel, k, m);
    }
    AheadAtEveryDepth(s, a, b);
  }

  lemma AheadAtEveryDepth(s: Scoring, a: seq<real>, b: seq<real>)
    requires Admissible(s)
    requires forall m: nat :: Cumulative(s, a, m) <= Cumulative(s, b, m)
    ensures Weighted(s, a, |a|) <= Weighted(s, b, |b|)
  {
    var n := |a| + |b| + 1;
    WeightedBeyond(s, a, n);
    WeightedBeyond(s, b, n);
    SummedByParts(s, a, b, n);
    assert Falls(s, n - 1, n);
    NotNegative(Cumulative(s, b, n) - Cumulative(s, a, n), s.discount(n - 1));
  }

  function Positive(gs: seq<real>, i: nat): real {
    if i < |gs| && gs[i] > 0.0 then gs[i] else 0.0
  }

  /** The grades, read as zero where absent or negative, are the ideal ones rank by rank. */
  ghost predicate IdealRanking(ids: seq<Id>, rel: seq<Grade>, k: nat) {
    forall i: nat :: Positive(Grades(Take(ids, k), rel), i) == Positive(Ideal(rel, k), i)
  }

  lemma {:induction false} SameCreditsSameSums(s: Scoring, a: seq<real>, b: seq<real>, n: nat)
    requires forall i: nat :: Positive(a, i) == Positive(b, i)
    ensures Weighted(s, a, n) == Weighted(s, b, n)
  {
    if n == 0 {
    } else {
      SameCreditsSameSums(s, a, b, n - 1);
      assert Positive(a, n - 1) == Positive(b, n - 1);
    }
  }

  lemma CreditDeterminesGrade(s: Scoring, a: seq<real>, b: seq<real>, i: nat)
    requires Admissible(s) && At(s, a, i) == At(s, b, i)
    ensures Positive(a, i) == Positive(b, i)
  {
    var x, y := Positive(a, i), Positive(b, i);
    assert At(s, a, i) == s.gain(x) && At(s, b, i) == s.gain(y);
    assert Rises(s, x, y) && Rises(s, y, x);
  }

  /** The ideal is the largest DCG of any ranking of distinct ids, and some ranking attains it. */
  lemma IdealIsMaximum(s: Scoring, rel: seq<Grade>, k: nat)
    requires Admissible(s) && NoDup(Ids(rel))
    ensures exists ids :: NoDup(ids) && Dcg(s, ids, rel, k) == Idcg(s, rel, k)
    ensures forall ids :: NoDup(ids) ==> Dcg(s, ids, rel, k) <= Idcg(s, rel, k)
  {
    RankedFacts(rel);
    RankedIsIdeal(rel, k);
    assert Dcg(s, Ids(Ranked(rel)), rel, k) == Idcg(s, rel, k);
    forall ids | NoDup(ids)
      ensures Dcg(s, ids, rel, k) <= Idcg(s, rel, k)
    {
      TakeNoDup(ids, k);
      DcgAtMostIdcg(s, ids, rel, k);
    }
  }

  /** With distinct ids among the first `k`, DCG reaches the ideal exactly when the ranking is the ideal one. */
  lemma PerfectExactly(s: Scoring, ids: seq<Id>, rel: seq<Grade>, k: nat)
    requires Admissible(s) && NoDup(Take(ids, k)) && NoDup(Ids(rel))
    ensures Dcg(s, ids, rel, k) == Idcg(s, rel, k) <==> IdealRanking(ids, rel, k)
  {
    var a, b := Grades(Take(ids, k), rel), Ideal(rel, k);
    var n := |a| + |b| + 1;
    WeightedBeyond(s, a, n);
    WeightedBeyond(s, b, n);
    if IdealRanking(ids, rel, k) {
      SameCreditsSameSums(s, a, b, n);
    }
    if Weighted(s, a, n) == Weighted(s, b, n) {
      forall m: nat | m <= n
        ensures Cumulative(s, a, m) <= Cumulative(s, b, m)
      {
        RetrievedBelowIdeal(s, ids, rel, k, m);
      }
      EqualSumsEqualCredits(s, a, b, n);
      forall i: nat
        ensures Positive(a, i) == Positive(b, i)
      {
        if i < n {
          assert Cumulative(s, a, i + 1) == Cumulative(s, b, i + 1) && Cumulative(s, a, i) == Cumulative(s, b, i);
          CreditDeterminesGrade(s, a, b, i);
        }
      }
    }
  }

  lemma {:induction false} IdsAppend(rel: seq<Grade>, g: Grade, x: Id)
    ensures Ids(rel + [g]) == Ids(rel) + [g.id]
    ensures GradeOf(rel + [g], x) == if x in Ids(rel) then GradeOf(rel, x) else if x == g.id then g.value else 0.0
  {
    if rel == [] {
    } else {
      IdsAppend(rel[1..], g, x);
      assert (rel + [g])[1..] == rel[1..] + [g];
    }
  }

  /** A plain list of relevant ids becomes a dict without repeated keys that grades exactly those ids 1. */
  lemma {:induction false} FromIdsFacts(ids: seq<Id>, x: Id)
    ensures NoDup(Ids(FromIds(ids)))
    ensures x in Ids(FromIds(ids)) <==> x in ids
    ensures GradeOf(FromIds(ids), x) == if x in ids then 1.0 else 0.0
  {
    if ids == [] {
    } else {
      var n := |ids| - 1;
      FromIdsFacts(ids[..n], x);
      FromIdsFacts(ids[..n], ids[n]);
      assert ids == ids[..n] + [ids[n]];
      if ids[n] !in ids[..n] {
        IdsAppend(FromIds(ids[..n]), Grade(ids[n], 1.0), x);
        NoDupAppend(Ids(FromIds(ids[..n])), ids[n]);
      }
    }
  }

  // ---- Repeated ids ----

  ghost predicate AllOnes(gs: seq<real>) {
    forall i :: 0 <= i < |gs| ==> gs[i] == 1.0
  }

  lemma {:induction false} FromIdsOnes(ids: seq<Id>)
    ensures AllOnes(Values(FromIds(ids))) && |Values(FromIds(ids))| == |FromIds(ids)| <= |ids|
    ensures |FromIds(ids)| == |ids| ==> NoDup(ids)
  {
    if ids == [] {
    } else {
      var n := |ids| - 1;
      var before := ids[..n];
      FromIdsOnes(before);
      assert ids == before + [ids[n]];
      if ids[n] !in before {
        ValuesAppend(FromIds(before), Grade(ids[n], 1.0));
        if NoDup(before) { NoDupAppend(before, ids[n]); }
      }
    }
  }

  lemma {:induction false} ValuesAppend(rel: seq<Grade>, g: Grade)
    ensures Values(rel + [g]) == Values(rel) + [g.value]
    ensures |Values(rel)| == |rel|
  {
    if rel == [] {
    } else {
      ValuesAppend(rel[1..], g);
      assert (rel + [g])[1..] == rel[1..] + [g];
    }
  }

  lemma {:induction false} SortedOnes(gs: seq<real>)
    requires AllOnes(gs)
    ensures AllOnes(Sorted(gs)) && |Sorted(gs)| == |gs|
  {
    if gs != [] {
      assert AllOnes(gs[1..]);
      SortedOnes(gs[1..]);
    }
  }

  /** The discounted sum of `n` grades of one. */
  function Ladder(s: Scoring, n: nat): real {
    if n == 0 then 0.0 else Ladder(s, n - 1) + s.gain(1.0) * s.discount(n - 1)
  }

  lemma {:induction false} WeightedOnes(s: Scoring, gs: seq<real>, n: nat)
    requires AllOnes(gs) && n <= |gs|
    ensures Weighted(s, gs, n) == Ladder(s, n)
  {
    if n > 0 {
      WeightedOnes(s, gs, n - 1);
    }
  }

  lemma {:induction false} LadderRises(s: Scoring, m: nat, n: nat)
    requires Admissible(s) && m < n
    ensures Ladder(s, m) < Ladder(s, n)
  {
    assert Rises(s, 0.0, 1.0) && Falls(s, n - 1, n);
    assert s.gain(1.0) * s.discount(n - 1) > 0.0;
    if m < n - 1 {
      LadderRises(s, m, n - 1);
    }
  }

  /** Any list with a repeat among its first `k` ids exceeds the ideal, when just those ids are relevant. */
  lemma RepeatExceedsIdeal(s: Scoring, ids: seq<Id>, k: nat)
    requires Admissible(s) && !NoDup(Take(ids, k))
    ensures var rel := FromIds(Take(ids, k));
      NoDup(Ids(rel)) && Dcg(s, ids, rel, k) > Idcg(s, rel, k)
  {
    var top := Take(ids, k);
    var rel := FromIds(top);
    FromIdsFacts(top, "");
    FromIdsOnes(top);
    var gs := Grades(top, rel);
    forall i | 0 <= i < |top|
      ensures gs[i] == 1.0
    {
      FromIdsFacts(top, top[i]);
    }
    SortedOnes(Values(rel));
    WeightedOnes(s, gs, |gs|);
    WeightedOnes(s, Ideal(rel, k), |Ideal(rel, k)|);
    LadderRises(s, |Ideal(rel, k)|, |gs|);
  }

  /** The clamp is inert for every relevance map exactly when no id is repeated among the first `k`. */
  lemma ClampInertExactly(s: Scoring, ids: seq<Id>, k: nat)
    requires Admissible(s)
    ensures NoDup(Take(ids, k)) <==> forall rel :: NoDup(Ids(rel)) ==> Dcg(s, ids, rel, k) <= Idcg(s, rel, k)
  {
    if NoDup(Take(ids, k)) {
      forall rel | NoDup(Ids(rel))
        ensures Dcg(s, ids, rel, k) <= Idcg(s, rel, k)
      {
        DcgAtMostIdcg(s, ids, rel, k);
      }
    } else {
      RepeatExceedsIdeal(s, ids, k);
    }
  }

  // ---- Recall ----

  function Hits(ids: seq<Id>, rel: set<Id>): nat {
    if ids == [] then 0 else (if ids[0] in rel then 1 else 0) + Hits(ids[1..], rel)
  }

  function RecallAtK(ids: seq<Id>, rel: set<Id>, k: int): real {
    if rel == {} then 1.0
    else if ids == [] || k <= 0 then 0.0
    else
      var ratio := Hits(Take(ids, k), rel) as real / |rel| as real;
      if ratio < 1.0 then ratio else 1.0
  }

  /** The relevant ids among the first `k`. */
  function Found(ids: seq<Id>, rel: set<Id>, k: int): set<Id> {
    if k <= 0 then {} else Elements(Take(ids, k)) * rel
  }

  /** No relevant id is repeated. */
  predicate RelevantOnce(ids: seq<Id>, rel: set<Id>) {
    ids == [] || ((ids[0] in rel ==> ids[0] !in ids[1..]) && RelevantOnce(ids[1..], rel))
  }

  /** Hits count the relevant ids, and more exactly when one is repeated. */
  lemma {:induction false} HitsExactly(ids: seq<Id>, rel: set<Id>)
    ensures Hits(ids, rel) >= |Elements(ids) * rel|
    ensures Hits(ids, rel) == |Elements(ids) * rel| <==> RelevantOnce(ids, rel)
  {
    if ids == [] {
      assert Elements(ids) * rel == {};
    } else {
      HitsExactly(ids[1..], rel);
      assert ids == [ids[0]] + ids[1..];
      if ids[0] in rel && ids[0] !in ids[1..] {
        assert Elements(ids) * rel == Elements(ids[1..]) * rel + {ids[0]};
      } else {
        assert Elements(ids) * rel == Elements(ids[1..]) * rel;
      }
    }
  }

  /**
   The clamped ratio is the share of relevant ids retrieved exactly when no relevant id is repeated
   among the first `k`, or all of them were retrieved anyway. It is never less.
   */
  lemma RecallExactly(ids: seq<Id>, rel: set<Id>, k: int)
    ensures rel == {} ==> RecallAtK(ids, rel, k) == 1.0
    ensures rel != {} ==>
      var share := |Found(ids, rel, k)| as real / |rel| as real;
      && share <= RecallAtK(ids, rel, k) <= 1.0
      && (RecallAtK(ids, rel, k) == share <==> k <= 0 || RelevantOnce(Take(ids, k), rel) || Found(ids, rel, k) == rel)
  {
    var found := Found(ids, rel, k);
    SubsetSizes(found, rel);
    if rel == {} {
    } else if ids != [] && k > 0 {
      HitsExactly(Take(ids, k), rel);
      ClampedShare(Hits(Take(ids, k), rel), |found|, |rel|);
    } else {
      assert found == {};
    }
  }

  lemma ClampedShare(hits: nat, found: nat, total: nat)
    requires found <= hits && found <= total && total > 0
    ensures var ratio, share := hits as real / total as real, found as real / total as real;
      var clamped := if ratio < 1.0 then ratio else 1.0;
      share <= clamped && (clamped == share <==> hits == found || found == total)
  {
    var ratio, share := hits as real / total as real, found as real / total as real;
    assert ratio * total as real == hits as real && share * total as real == found as real;
  }

  lemma {:induction false} DistinctRelevantOnce(ids: seq<Id>, rel: set<Id>)
    requires NoDup(ids)
    ensures RelevantOnce(ids, rel)
  {
    if ids != [] { DistinctRelevantOnce(ids[1..], rel); }
  }

  /** For distinct ids recall is the share retrieved, 1 exactly when every relevant id is among the first `k`. */
  lemma RecallOfDistinct(ids: seq<Id>, rel: set<Id>, k: int)
    requires NoDup(ids) && rel != {}
    ensures RecallAtK(ids, rel, k) == |Found(ids, rel, k)| as real / |rel| as real
    ensures RecallAtK(ids, rel, k) == 1.0 <==> Found(ids, rel, k) == rel
  {
    if k > 0 {
      TakeNoDup(ids, k);
      DistinctRelevantOnce(Take(ids, k), rel);
    }
    RecallExactly(ids, rel, k);
    ShareOfSubset(Found(ids, rel, k), rel);
  }

  lemma ShareOfSubset(found: set<Id>, rel: set<Id>)
    requires found <= rel && rel != {}
    ensures |found| as real / |rel| as real <= 1.0
    ensures |found| as real / |rel| as real == 1.0 <==> found == rel
  {
    SubsetSizes(found, rel);
    FractionAtMostOne(|found|, |rel|);
  }

  lemma FractionAtMostOne(a: nat, b: nat)
    requires a <= b && b > 0
    ensures a as real / b as real <= 1.0 && (a as real / b as real == 1.0 <==> a == b)
  {
  }

  /** A repeated id counts twice and hides a relevant id that was not retrieved. */
  lemma RepeatedIdInflatesRecall()
    ensures RecallAtK(["a", "a"], {"a", "b"}, 2) == 1.0
  {
    var ids := ["a", "a"];
    assert ids[1..] == ["a"] && ["a"][1..] == [];
    assert Hits(ids, {"a", "b"}) == 2;
    assert "a" != "b" by { assert "a"[0] != "b"[0]; }
    assert |{"a", "b"}| == 2;
  }

  // ---- Mean reciprocal rank ----

  predicate IsFirstRelevant(ids: seq<Id>, rel: set<Id>, i: nat)
    requires i < |ids|
  {
    ids[i] in rel && forall j :: 0 <= j < i ==> ids[j] !in rel
  }

  method ComputeMrrAtK(ids: seq<Id>, rel: set<Id>, k: int) returns (score: real)
    ensures (forall i :: 0 <= i < |ids| && i < k ==> ids[i] !in rel) ==> score == 0.0
    ensures forall i :: 0 <= i < |ids| && i < k && IsFirstRelevant(ids, rel, i) ==> score == 1.0 / (i + 1) as real
  {
    if rel == {} || ids == [] || k <= 0 {
      return 0.0;
    }
    var top := Take(ids, k);
    for rank := 0 to |top|
      invariant forall j :: 0 <= j < rank ==> ids[j] !in rel
    {
      if top[rank] in rel {
        return 1.0 / (rank + 1) as real;
      }
    }
    score := 0.0;
  }
}
