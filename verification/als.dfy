/** The alternating-least-squares predictors: `ALS_rating` for explicit
    ratings and `ALS` for implicit 0/1 labels. Both hold one latent factor
    row per user (`pu`) and per item (`qi`); they differ in how a single
    prediction reads the dot product, but share `recommend_user`, which
    ranks every unrated item by the dot product clamped to [1, 5]. The
    training loop is modelled for one latent factor, where each update is
    a closed-form scalar ridge solve. */
module Als {
  import opened Common
  import opened Data
  import opened Ranking

  /** `ALS_rating` (explicit ratings) or `ALS` (implicit labels). */
  datatype Variant = Explicit | Implicit

  /** A fitted model: the factor tables beside the training data. */
  datatype Model = Model(variant: Variant, data: Dataset, nFactors: nat, pu: seq<seq<real>>, qi: seq<seq<real>>)

  /** The shapes `fit` leaves behind: one row of `nFactors` reals per user
      and per item, and every training user has a row. */
  ghost predicate Valid(m: Model) {
    && |m.pu| == m.data.nUsers
    && |m.qi| == m.data.nItems
    && |m.data.trainUser| <= m.data.nUsers
    && (forall u | 0 <= u < |m.pu| :: |m.pu[u]| == m.nFactors)
    && (forall i | 0 <= i < |m.qi| :: |m.qi[i]| == m.nFactors)
  }

  /** `np.dot` of two vectors. The rows of a valid model always have the
      same length; the sum stops at the shorter one. */
  function Dot(a: seq<real>, b: seq<real>): real {
    if |a| == 0 || |b| == 0 then 0.0 else a[0] * b[0] + Dot(a[1..], b[1..])
  }

  // ---------------------------------------------------------------------
  // Single predictions

  /** Both indices name a row of the factor tables. */
  predicate InRange(m: Model, u: nat, i: nat) {
    u < |m.pu| && i < |m.qi|
  }

  /** `ALS_rating.predict`: the dot product pulled into [1, 5], or the
      global mean when an index has no factor row. */
  function PredictExplicit(m: Model, u: nat, i: nat): (r: real)
    ensures InRange(m, u, i) ==> 1.0 <= r <= 5.0
    ensures InRange(m, u, i) && 1.0 <= Dot(m.pu[u], m.qi[i]) <= 5.0 ==> r == Dot(m.pu[u], m.qi[i])
    ensures InRange(m, u, i) && Dot(m.pu[u], m.qi[i]) < 1.0 ==> r == 1.0
    ensures InRange(m, u, i) && Dot(m.pu[u], m.qi[i]) > 5.0 ==> r == 5.0
    ensures !InRange(m, u, i) ==> r == m.data.globalMean
  {
    if InRange(m, u, i) then Clamp(Dot(m.pu[u], m.qi[i]), 1.0, 5.0) else m.data.globalMean
  }

  /** The explicit prediction is the rating in [1, 5] closest to the dot product. */
  lemma PredictExplicitIsNearest(m: Model, u: nat, i: nat, y: real)
    requires InRange(m, u, i) && 1.0 <= y <= 5.0
    ensures Abs(PredictExplicit(m, u, i) - Dot(m.pu[u], m.qi[i])) <= Abs(y - Dot(m.pu[u], m.qi[i]))
  {
    ClampIsNearest(Dot(m.pu[u], m.qi[i]), 1.0, 5.0, y);
  }

  /** `ALS.predict`: label 1.0 when the sigmoid of the dot product reaches
      one half, that is when the dot product is non-negative (see
      `SigmoidThreshold`), label 0.0 otherwise, and the global mean (not a
      label) when an index has no factor row. */
  function PredictImplicit(m: Model, u: nat, i: nat): (r: real)
    ensures InRange(m, u, i) ==> (r == 1.0 <==> Dot(m.pu[u], m.qi[i]) >= 0.0)
    ensures InRange(m, u, i) ==> (r == 0.0 <==> Dot(m.pu[u], m.qi[i]) < 0.0)
    ensures !InRange(m, u, i) ==> r == m.data.globalMean
  {
    if InRange(m, u, i) then
      (if Dot(m.pu[u], m.qi[i]) >= 0.0 then 1.0 else 0.0)
    else m.data.globalMean
  }

  /** `1 / (1 + exp(-x)) >= 0.5` exactly when `x >= 0`, for any value `e`
      standing for `exp(-x)`: positive, and at most 1 exactly when `x` is
      non-negative. */
  lemma SigmoidThreshold(x: real, e: real)
    requires e > 0.0
    requires e <= 1.0 <==> x >= 0.0
    ensures 1.0 / (1.0 + e) >= 0.5 <==> x >= 0.0
  {
    var p := 1.0 / (1.0 + e);
    assert p * (1.0 + e) == 1.0;
    if e <= 1.0 {
      assert p * 2.0 >= p * (1.0 + e);
    } else {
      assert p * 2.0 < p * (1.0 + e);
    }
  }

  /** The `predict` of the model's own class. */
  function Predict(m: Model, u: nat, i: nat): (r: real)
    ensures !InRange(m, u, i) ==> r == m.data.globalMean
    ensures InRange(m, u, i) && m.variant == Explicit ==> 1.0 <= r <= 5.0
    ensures InRange(m, u, i) && m.variant == Implicit ==> r == 0.0 || r == 1.0
  {
    match m.variant
    case Explicit => PredictExplicit(m, u, i)
    case Implicit => PredictImplicit(m, u, i)
  }

  // ---------------------------------------------------------------------
  // recommend_user

  /** `list(set(range(n)) - set(consumed))`, in ascending order of id. */
  function UnratedBelow(consumed: seq<nat>, n: nat): (r: seq<nat>)
    ensures forall j: nat :: j in r <==> j < n && j !in consumed
    ensures forall a, b | 0 <= a < b < |r| :: r[a] < r[b]
  {
    if n == 0 then [] else
      var init := UnratedBelow(consumed, n - 1);
      assert forall a | 0 <= a < |init| :: init[a] in init;
      init + (if n - 1 in consumed then [] else [n - 1])
  }

  /** The unrated items as a set. */
  function UnratedSet(consumed: seq<nat>, n: nat): set<nat> {
    set j: nat | j < n && j !in consumed
  }

  /** An ascending list has as many elements as its set of values. */
  lemma {:induction false} AscendingCard(s: seq<nat>)
    requires forall a, b | 0 <= a < b < |s| :: s[a] < s[b]
    ensures |Values(s)| == |s|
  {
    if |s| > 0 {
      var tail := s[1..];
      assert forall a, b | 0 <= a < b < |tail| :: tail[a] < tail[b] by {
        assert forall a | 0 <= a < |tail| :: tail[a] == s[a + 1];
      }
      AscendingCard(tail);
      assert s[0] !in Values(tail) by {
        assert forall a | 0 <= a < |tail| :: s[0] < tail[a];
      }
      ValuesCons(s);
    }
  }

  /** One list entry per unrated item. */
  lemma UnratedCount(consumed: seq<nat>, n: nat)
    ensures |UnratedBelow(consumed, n)| == |UnratedSet(consumed, n)|
  {
    var ids := UnratedBelow(consumed, n);
    AscendingCard(ids);
    assert Values(ids) == UnratedSet(consumed, n);
  }

  /** The guard of the per-item branch: some candidate id exceeds `n`. */
  function AnyAbove(ids: seq<nat>, n: nat): bool {
    exists j | j in ids :: j > n
  }

  /** The per-item branch: `(j, predict(u, j))` for every unrated item. */
  function PredictRank(m: Model, u: nat, consumed: seq<nat>): seq<Scored> {
    var ids := UnratedBelow(consumed, |m.qi|);
    seq(|ids|, k requires 0 <= k < |ids| => Scored(ids[k], Predict(m, u, ids[k])))
  }

  /** The recommendation score of item `j`: the dot product clamped to [1, 5]. */
  function RecScore(m: Model, u: nat, j: nat): real
    requires InRange(m, u, j)
  {
    Clamp(Dot(m.pu[u], m.qi[j]), 1.0, 5.0)
  }

  /** The vectorised branch: `zip(ids, clip(pu[u] . qi[ids].T, 1, 5))`. */
  function ClampedRank(m: Model, u: nat, ids: seq<nat>): (rank: seq<Scored>)
    requires u < |m.pu| && forall k | 0 <= k < |ids| :: ids[k] < |m.qi|
    ensures |rank| == |ids|
    ensures forall k | 0 <= k < |ids| :: rank[k].id == ids[k] && rank[k].score == RecScore(m, u, ids[k])
  {
    seq(|ids|, k requires 0 <= k < |ids| => Scored(ids[k], RecScore(m, u, ids[k])))
  }

  /** The vectorised branch over ids that ascend and are each unique
      keeps one entry per id. */
  lemma ClampedRankFacts(m: Model, u: nat, ids: seq<nat>)
    requires u < |m.pu| && forall k | 0 <= k < |ids| :: ids[k] < |m.qi|
    requires forall a, b | 0 <= a < b < |ids| :: ids[a] < ids[b]
    ensures DistinctIds(ClampedRank(m, u, ids))
    ensures forall j | j in ids :: Scored(j, RecScore(m, u, j)) in ClampedRank(m, u, ids)
  {
    var rank := ClampedRank(m, u, ids);
    forall j | j in ids ensures Scored(j, RecScore(m, u, j)) in rank {
      var k :| 0 <= k < |ids| && ids[k] == j;
      assert rank[k] == Scored(j, RecScore(m, u, j));
    }
  }

  /** The ranked candidates `recommend_user` builds before selecting. The
      per-item branch is never taken: every candidate comes from
      `range(n_items)`, so none exceeds `n_items`. */
  function Candidates(m: Model, u: nat): (rank: seq<Scored>)
    requires Valid(m) && u < |m.data.trainUser|
    ensures forall x | x in rank :: x.id < m.data.nItems && x.id !in Keys(m.data.trainUser[u])
    ensures forall x | x in rank :: x.score == RecScore(m, u, x.id)
    ensures forall j: nat | j < m.data.nItems && j !in Keys(m.data.trainUser[u]) :: Scored(j, RecScore(m, u, j)) in rank
    ensures DistinctIds(rank)
    ensures |rank| == |UnratedSet(Keys(m.data.trainUser[u]), m.data.nItems)|
  {
    var consumed := Keys(m.data.trainUser[u]);
    var ids := UnratedBelow(consumed, m.data.nItems);
    UnratedCount(consumed, m.data.nItems);
    assert forall k | 0 <= k < |ids| :: ids[k] in ids;
    ClampedRankFacts(m, u, ids);
    if AnyAbove(ids, m.data.nItems) then PredictRank(m, u, consumed) else ClampedRank(m, u, ids)
  }

  /** `recommend_user(u, n_rec, random_rec)` of either class; `draws`
      stands for the choices of `np.random.choice`. */
  function RecommendUser(m: Model, u: nat, nRec: nat, randomRec: bool, draws: seq<nat>): (r: Result<seq<Scored>>)
    requires Valid(m)
    ensures u >= |m.data.trainUser| ==> r == Err(IndexOutOfRange)
    ensures r.Ok? ==> forall x | x in r.value ::
      && x.id < m.data.nItems
      && x.id !in Keys(m.data.trainUser[u])
      && x.score == RecScore(m, u, x.id)
      && 1.0 <= x.score <= 5.0
    ensures u < |m.data.trainUser| && !randomRec ==>
      && r.Ok?
      && |r.value| == Min(nRec, |UnratedSet(Keys(m.data.trainUser[u]), m.data.nItems)|)
      && SortedDesc(r.value, ScoreOf)
      && multiset(r.value) <= multiset(Candidates(m, u))
      && DistinctIds(r.value)
    ensures u < |m.data.trainUser| && randomRec ==>
      (r.Ok? <==> nRec <= |QualifyingIds(Candidates(m, u))|)
    ensures u < |m.data.trainUser| && randomRec && r.Ok? ==>
      |r.value| == nRec && DistinctIds(r.value) && forall x | x in r.value :: x.score >= 4.0
    ensures r.Err? && u < |m.data.trainUser| ==> r.error == PoolTooSmall
  {
    if u >= |m.data.trainUser| then Err(IndexOutOfRange) else
    if randomRec then Select(Candidates(m, u), nRec, randomRec, draws) else
      var r := Select(Candidates(m, u), nRec, randomRec, draws);
      SubMultisetDistinct(Candidates(m, u), r.value);
      r
  }

  /** The qualifying pool of the random path is exactly the unrated items
      whose clamped score reaches 4. */
  lemma QualifyingAreUnratedAbove4(m: Model, u: nat)
    requires Valid(m) && u < |m.data.trainUser|
    ensures QualifyingIds(Candidates(m, u)) ==
      set j: nat | j < m.data.nItems && j !in Keys(m.data.trainUser[u]) && RecScore(m, u, j) >= 4.0
  {
    var rank := Candidates(m, u);
    forall j: nat | j < m.data.nItems && j !in Keys(m.data.trainUser[u]) && RecScore(m, u, j) >= 4.0
      ensures j in QualifyingIds(rank)
    {
      assert Scored(j, RecScore(m, u, j)) in rank;
    }
  }

  /** Sorted path: an unrated item left out of the list scores no higher
      than any item in it. */
  lemma RecommendSortedIsBest(m: Model, u: nat, nRec: nat, draws: seq<nat>)
    requires Valid(m) && u < |m.data.trainUser|
    ensures var top := RecommendUser(m, u, nRec, false, draws).value;
      forall j: nat, y | j < m.data.nItems && j !in Keys(m.data.trainUser[u]) && j !in IdSet(top) && y in top ::
        RecScore(m, u, j) <= y.score
  {
    var rank := Candidates(m, u);
    var top := RecommendUser(m, u, nRec, false, draws).value;
    forall j: nat, y | j < m.data.nItems && j !in Keys(m.data.trainUser[u]) && j !in IdSet(top) && y in top
      ensures RecScore(m, u, j) <= y.score
    {
      var x := Scored(j, RecScore(m, u, j));
      assert x in rank;
      MissingIdOutranked(rank, top, x, y);
    }
  }

  /** `ALS` ranks by the clamped dot product, not by its own 0/1 `predict`:
      an item whose dot product is negative has label 0 but score 1. */
  lemma ImplicitScoresAreClampedDots(m: Model, u: nat, j: nat)
    requires m.variant == Implicit && InRange(m, u, j)
    requires Dot(m.pu[u], m.qi[j]) < 0.0
    ensures Predict(m, u, j) == 0.0 && RecScore(m, u, j) == 1.0
  {
  }

  // ---------------------------------------------------------------------
  // fit, one latent factor

  /** Every key names a row of a table of `n` rows. */
  predicate KeysBelow(es: seq<Entry>, n: nat) {
    forall e | e in es :: e.key < n
  }

  /** `f[k]`, read as zero past the end; `Solve` rejects such keys first. */
  function At(f: seq<real>, k: nat): real {
    if k < |f| then f[k] else 0.0
  }

  /** `Σ f[k]²` over the entries' keys: the 1×1 `Y^T Y`. */
  function SumSq(es: seq<Entry>, f: seq<real>): real {
    if |es| == 0 then 0.0 else At(f, es[0].key) * At(f, es[0].key) + SumSq(es[1..], f)
  }

  /** `Σ r · f[k]`: the one-element `r_y`. */
  function SumProd(es: seq<Entry>, f: seq<real>): real {
    if |es| == 0 then 0.0 else es[0].rating * At(f, es[0].key) + SumProd(es[1..], f)
  }

  function SumRatingSq(es: seq<Entry>): real {
    if |es| == 0 then 0.0 else es[0].rating * es[0].rating + SumRatingSq(es[1..])
  }

  lemma {:induction false} SumSqNonNegative(es: seq<Entry>, f: seq<real>)
    ensures SumSq(es, f) >= 0.0
  {
    if |es| > 0 {
      SumSqNonNegative(es[1..], f);
    }
  }

  /** `inv(Y^T Y + reg) . r_y` with one factor: the entity's new factor
      solves the normal equation `p (Σ q² + reg) = Σ r q`. An unknown key
      fails the lookup; a zero system has no inverse. */
  function Solve(es: seq<Entry>, f: seq<real>, reg: real): (r: Result<real>)
    ensures r.Ok? <==> KeysBelow(es, |f|) && SumSq(es, f) + reg != 0.0
    ensures r.Err? ==> (r.error == IndexOutOfRange <==> !KeysBelow(es, |f|))
    ensures r.Err? ==> (r.error == IndexOutOfRange || r.error == SingularSystem)
    ensures r.Ok? ==> r.value * (SumSq(es, f) + reg) == SumProd(es, f)
  {
    if !KeysBelow(es, |f|) then Err(IndexOutOfRange)
    else if SumSq(es, f) + reg == 0.0 then Err(SingularSystem)
    else Ok(SumProd(es, f) / (SumSq(es, f) + reg))
  }

  /** A positive regulariser makes every lookup-safe system solvable. */
  lemma SolveRegularised(es: seq<Entry>, f: seq<real>, reg: real)
    requires KeysBelow(es, |f|) && reg > 0.0
    ensures Solve(es, f, reg).Ok?
  {
    SumSqNonNegative(es, f);
  }

  /** The residual sum of squares `Σ (r - p f[k])²`. */
  function Rss(es: seq<Entry>, f: seq<real>, p: real): real {
    if |es| == 0 then 0.0 else
      var d := es[0].rating - p * At(f, es[0].key);
      d * d + Rss(es[1..], f, p)
  }

  /** The regularised least-squares loss the update minimises. */
  function Loss(es: seq<Entry>, f: seq<real>, p: real, reg: real): real {
    Rss(es, f, p) + reg * (p * p)
  }

  /** `Σ p (r f[k])` */
  function Cross(es: seq<Entry>, f: seq<real>, p: real): real {
    if |es| == 0 then 0.0 else p * (es[0].rating * At(f, es[0].key)) + Cross(es[1..], f, p)
  }

  /** `Σ c f[k]²` */
  function ScaledSq(es: seq<Entry>, f: seq<real>, c: real): real {
    if |es| == 0 then 0.0 else c * (At(f, es[0].key) * At(f, es[0].key)) + ScaledSq(es[1..], f, c)
  }

  lemma {:induction false} CrossScales(es: seq<Entry>, f: seq<real>, p: real)
    ensures Cross(es, f, p) == p * SumProd(es, f)
  {
    if |es| > 0 {
      CrossScales(es[1..], f, p);
      var t := es[0].rating * At(f, es[0].key);
      assert p * (t + SumProd(es[1..], f)) == p * t + p * SumProd(es[1..], f);
    }
  }

  lemma {:induction false} ScaledSqScales(es: seq<Entry>, f: seq<real>, c: real)
    ensures ScaledSq(es, f, c) == c * SumSq(es, f)
  {
    if |es| > 0 {
      ScaledSqScales(es[1..], f, c);
      var t := At(f, es[0].key) * At(f, es[0].key);
      assert c * (t + SumSq(es[1..], f)) == c * t + c * SumSq(es[1..], f);
    }
  }

  /** One squared residual, multiplied out. */
  lemma SquareExpand(r: real, q: real, p: real)
    ensures (r - p * q) * (r - p * q) == r * r - 2.0 * (p * (r * q)) + (p * p) * (q * q)
  {
  }

  lemma {:induction false} RssSplit(es: seq<Entry>, f: seq<real>, p: real)
    ensures Rss(es, f, p) == SumRatingSq(es) - 2.0 * Cross(es, f, p) + ScaledSq(es, f, p * p)
  {
    if |es| > 0 {
      RssSplit(es[1..], f, p);
      SquareExpand(es[0].rating, At(f, es[0].key), p);
    }
  }

  /** The quadratic `c - 2 x b + x² sq + reg x²`. */
  function Quadratic(c: real, b: real, sq: real, reg: real, x: real): real {
    c - 2.0 * (x * b) + (x * x) * sq + reg * (x * x)
  }

  /** The residual sum of squares in closed form. */
  lemma RssClosedForm(es: seq<Entry>, f: seq<real>, x: real)
    ensures Rss(es, f, x) == SumRatingSq(es) - 2.0 * (x * SumProd(es, f)) + (x * x) * SumSq(es, f)
  {
    RssSplit(es, f, x);
    CrossScales(es, f, x);
    ScaledSqScales(es, f, x * x);
  }

  /** The loss is a quadratic in the factor value. */
  lemma LossExpand(es: seq<Entry>, f: seq<real>, x: real, reg: real)
    ensures Loss(es, f, x, reg) == Quadratic(SumRatingSq(es), SumProd(es, f), SumSq(es, f), reg, x)
  {
    RssClosedForm(es, f, x);
  }

  /** With `s (sq + reg) = b` and `sq + reg > 0`, `s` minimises the
      quadratic; the gap at `p` is `(sq + reg)(p - s)²`. */
  lemma QuadraticMinimum(c: real, b: real, sq: real, reg: real, s: real, p: real)
    requires sq + reg > 0.0 && s * (sq + reg) == b
    ensures Quadratic(c, b, sq, reg, s) <= Quadratic(c, b, sq, reg, p)
  {
    var a, d := sq + reg, p - s;
    assert (s * s) * sq + reg * (s * s) == (s * s) * a;
    assert (p * p) * sq + reg * (p * p) == (p * p) * a;
    assert s * b == (s * s) * a;
    assert p * b == (p * s) * a;
    assert (p * p) * a - 2.0 * ((p * s) * a) + (s * s) * a == a * (d * d);
    assert d * d >= 0.0;
    assert a * (d * d) >= 0.0;
  }

  /** The update is the ridge minimiser: no other factor value has a
      smaller regularised loss, whenever the system is positive definite. */
  lemma RidgeMinimiser(es: seq<Entry>, f: seq<real>, reg: real, p: real)
    requires KeysBelow(es, |f|) && SumSq(es, f) + reg > 0.0
    ensures Solve(es, f, reg).Ok?
    ensures Loss(es, f, Solve(es, f, reg).value, reg) <= Loss(es, f, p, reg)
  {
    var s := SolveValue(es, f, reg);
    NormalEquationMinimises(es, f, reg, s, p);
  }

  /** The value of a successful update and the normal equation it solves. */
  lemma SolveValue(es: seq<Entry>, f: seq<real>, reg: real) returns (s: real)
    requires KeysBelow(es, |f|) && SumSq(es, f) + reg > 0.0
    ensures Solve(es, f, reg) == Ok(s) && s * (SumSq(es, f) + reg) == SumProd(es, f)
  {
    s := Solve(es, f, reg).value;
  }

  /** Any solution of the normal equation minimises the loss. */
  lemma NormalEquationMinimises(es: seq<Entry>, f: seq<real>, reg: real, s: real, p: real)
    requires KeysBelow(es, |f|) && SumSq(es, f) + reg > 0.0
    requires s * (SumSq(es, f) + reg) == SumProd(es, f)
    ensures Loss(es, f, s, reg) <= Loss(es, f, p, reg)
  {
    var c, b, sq := SumRatingSq(es), SumProd(es, f), SumSq(es, f);
    LossExpand(es, f, s, reg);
    LossExpand(es, f, p, reg);
    QuadraticMinimum(c, b, sq, reg, s, p);
  }

  // ---------------------------------------------------------------------
  // The epoch loop

  /** The rows a half-epoch visits, one slot per id: `None` for an id that
      is not a key of the training dictionary, which the loop never
      reaches, and `Some(es)` for the entries of one that is. */
  type Rows = seq<Option<seq<Entry>>>

  /** Every present row only names ids below `n`. */
  predicate RowsBelow(rows: Rows, n: nat) {
    forall e | 0 <= e < |rows| && rows[e].Some? :: KeysBelow(rows[e].value, n)
  }

  /** Every present row's own id is below `n`. */
  predicate PresentBelow(rows: Rows, n: nat) {
    forall e | 0 <= e < |rows| && rows[e].Some? :: e < n
  }

  /** The error a half-epoch stops at: that of the first present row from
      `e` on whose system cannot be solved against `other`, or whose id has
      no slot among the `n` factors being updated. */
  function FirstFailure(rows: Rows, other: seq<real>, n: nat, reg: real, e: nat): (r: Option<Error>)
    decreases |rows| - e
    ensures r.None? <==> forall d | e <= d < |rows| && rows[d].Some? ::
      d < n && Solve(rows[d].value, other, reg).Ok?
    ensures r.Some? ==> r.value == IndexOutOfRange || r.value == SingularSystem
    ensures r == Some(SingularSystem) ==> reg <= 0.0
  {
    if e >= |rows| then None
    else if rows[e].None? then FirstFailure(rows, other, n, reg, e + 1)
    else
      var s := Solve(rows[e].value, other, reg);
      if s.Err? then
        SumSqNonNegative(rows[e].value, other);
        Some(s.error)
      else if e >= n then Some(IndexOutOfRange)
      else FirstFailure(rows, other, n, reg, e + 1)
  }

  /** The factors after a half-epoch that meets no failure. */
  function Solved(rows: Rows, other: seq<real>, current: seq<real>, reg: real): seq<real>
    requires forall d | 0 <= d < |rows| && rows[d].Some? :: Solve(rows[d].value, other, reg).Ok?
  {
    seq(|current|, k requires 0 <= k < |current| =>
      if k < |rows| && rows[k].Some? then Solve(rows[k].value, other, reg).value else current[k])
  }

  /** One half-epoch, `for u in train_user: pu[u] = solve(...)`, taken as a
      whole: it fails with the first failure, and otherwise gives each
      present row's id the solution of its system against `other` while
      every other id keeps its factor. */
  function Swept(rows: Rows, other: seq<real>, current: seq<real>, reg: real): (r: Result<seq<real>>)
    ensures r.Ok? <==> forall d | 0 <= d < |rows| && rows[d].Some? ::
      d < |current| && Solve(rows[d].value, other, reg).Ok?
    ensures r.Ok? ==> |r.value| == |current|
    ensures r.Ok? ==> forall d | 0 <= d < |rows| && rows[d].Some? ::
      Solve(rows[d].value, other, reg) == Ok(r.value[d])
    ensures r.Ok? ==> forall d | 0 <= d < |current| && (d >= |rows| || rows[d].None?) ::
      r.value[d] == current[d]
    ensures r.Err? ==> r.error == IndexOutOfRange || r.error == SingularSystem
    ensures r.Err? && r.error == SingularSystem ==> reg <= 0.0
  {
    match FirstFailure(rows, other, |current|, reg, 0)
    case Some(err) => Err(err)
    case None => Ok(Solved(rows, other, current, reg))
  }

  /** The half-epoch loop, updating one factor at a time in id order,
      computes `Swept`. */
  method Sweep(rows: Rows, other: seq<real>, current: seq<real>, reg: real) returns (r: Result<seq<real>>)
    ensures r == Swept(rows, other, current, reg)
  {
    var out := current;
    var e := 0;
    while e < |rows|
      invariant 0 <= e <= |rows|
      invariant |out| == |current|
      invariant FirstFailure(rows, other, |current|, reg, 0) == FirstFailure(rows, other, |current|, reg, e)
      invariant forall d | 0 <= d < e && rows[d].Some? :: d < |current| && Solve(rows[d].value, other, reg).Ok?
      invariant forall d | 0 <= d < |current| ::
        out[d] == if d < e && rows[d].Some? then Solve(rows[d].value, other, reg).value else current[d]
    {
      if rows[e].Some? {
        var s := Solve(rows[e].value, other, reg);
        if s.Err? {
          return Err(s.error);
        }
        if e >= |out| {
          return Err(IndexOutOfRange);
        }
        out := out[e := s.value];
      }
      e := e + 1;
    }
    assert out == Solved(rows, other, current, reg);
    return Ok(out);
  }

  /** With reg > 0 and every key in range, every present row's system can
      be solved. */
  lemma SweepSolvable(rows: Rows, other: seq<real>, reg: real)
    ensures reg > 0.0 && RowsBelow(rows, |other|) ==>
      forall e | 0 <= e < |rows| && rows[e].Some? :: Solve(rows[e].value, other, reg).Ok?
  {
    if reg > 0.0 && RowsBelow(rows, |other|) {
      forall e | 0 <= e < |rows| && rows[e].Some? ensures Solve(rows[e].value, other, reg).Ok? {
        SolveRegularised(rows[e].value, other, reg);
      }
    }
  }

  /** One epoch: every user against the item factors, then every item
      against the new user factors. It succeeds whenever reg > 0 and every
      id and key has a factor row. */
  function Epoch(userRows: Rows, itemRows: Rows, pu: seq<real>, qi: seq<real>, reg: real): (r: Result<(seq<real>, seq<real>)>)
    ensures r.Ok? ==> |r.value.0| == |pu| && |r.value.1| == |qi|
    ensures r.Ok? ==> PresentBelow(userRows, |pu|) && PresentBelow(itemRows, |qi|)
    ensures r.Ok? ==> forall u | 0 <= u < |userRows| && userRows[u].Some? ::
      Solve(userRows[u].value, qi, reg) == Ok(r.value.0[u])
    ensures r.Ok? ==> forall i | 0 <= i < |itemRows| && itemRows[i].Some? ::
      Solve(itemRows[i].value, r.value.0, reg) == Ok(r.value.1[i])
    ensures r.Ok? ==> forall u | 0 <= u < |pu| && (u >= |userRows| || userRows[u].None?) ::
      r.value.0[u] == pu[u]
    ensures r.Ok? ==> forall i | 0 <= i < |qi| && (i >= |itemRows| || itemRows[i].None?) ::
      r.value.1[i] == qi[i]
    ensures r.Err? ==> r.error == IndexOutOfRange || r.error == SingularSystem
    ensures r.Err? && r.error == SingularSystem ==> reg <= 0.0
    ensures (reg > 0.0 && PresentBelow(userRows, |pu|) && PresentBelow(itemRows, |qi|)
      && RowsBelow(userRows, |qi|) && RowsBelow(itemRows, |pu|)) ==> r.Ok?
  {
    SweepSolvable(userRows, qi, reg);
    match Swept(userRows, qi, pu, reg)
    case Err(e) => Err(e)
    case Ok(pu1) =>
      SweepSolvable(itemRows, pu1, reg);
      match Swept(itemRows, pu1, qi, reg)
      case Err(e) => Err(e)
      case Ok(qi1) => Ok((pu1, qi1))
  }

  /** `n` epochs from the initial factors, stopping at the first failure.
      Ids the dictionaries do not hold keep their initial factors, and the
      run succeeds whenever reg > 0 and every id and key has a row. */
  function Epochs(userRows: Rows, itemRows: Rows, pu0: seq<real>, qi0: seq<real>, reg: real, n: nat)
    : (r: Result<(seq<real>, seq<real>)>)
    ensures n == 0 ==> r == Ok((pu0, qi0))
    ensures r.Ok? ==> |r.value.0| == |pu0| && |r.value.1| == |qi0|
    ensures r.Ok? && n > 0 ==> PresentBelow(userRows, |pu0|) && PresentBelow(itemRows, |qi0|)
    ensures r.Ok? ==> forall u | 0 <= u < |pu0| && (u >= |userRows| || userRows[u].None?) ::
      r.value.0[u] == pu0[u]
    ensures r.Ok? ==> forall i | 0 <= i < |qi0| && (i >= |itemRows| || itemRows[i].None?) ::
      r.value.1[i] == qi0[i]
    ensures r.Err? ==> r.error == IndexOutOfRange || r.error == SingularSystem
    ensures r.Err? && r.error == SingularSystem ==> reg <= 0.0
    ensures (reg > 0.0 && PresentBelow(userRows, |pu0|) && PresentBelow(itemRows, |qi0|)
      && RowsBelow(userRows, |qi0|) && RowsBelow(itemRows, |pu0|)) ==> r.Ok?
  {
    if n == 0 then Ok((pu0, qi0))
    else match Epochs(userRows, itemRows, pu0, qi0, reg, n - 1)
      case Err(e) => Err(e)
      case Ok((pu, qi)) => Epoch(userRows, itemRows, pu, qi, reg)
  }

  /** A run one epoch longer than a successful one adds one epoch from
      its factors. */
  lemma EpochsNext(userRows: Rows, itemRows: Rows, pu0: seq<real>, qi0: seq<real>, reg: real, k: nat, pu: seq<real>, qi: seq<real>)
    requires Epochs(userRows, itemRows, pu0, qi0, reg, k) == Ok((pu, qi))
    ensures Epochs(userRows, itemRows, pu0, qi0, reg, k + 1) == Epoch(userRows, itemRows, pu, qi, reg)
  {
  }

  /** Once a run has failed, running longer reports the same failure. */
  lemma {:induction false} EpochsStayFailed(userRows: Rows, itemRows: Rows, pu0: seq<real>, qi0: seq<real>, reg: real, k: nat, n: nat)
    requires k <= n
    ensures Epochs(userRows, itemRows, pu0, qi0, reg, k).Err? ==>
      Epochs(userRows, itemRows, pu0, qi0, reg, n) == Epochs(userRows, itemRows, pu0, qi0, reg, k)
  {
    if k < n {
      EpochsStayFailed(userRows, itemRows, pu0, qi0, reg, k, n - 1);
    }
  }

  /** The body of the epoch loop: the user sweep, then the item sweep
      against the new user factors; it computes `Epoch`. */
  method RunEpoch(userRows: Rows, itemRows: Rows, pu: seq<real>, qi: seq<real>, reg: real)
    returns (r: Result<(seq<real>, seq<real>)>)
    ensures r == Epoch(userRows, itemRows, pu, qi, reg)
  {
    var users := Sweep(userRows, qi, pu, reg);
    if users.Err? {
      return Err(users.error);
    }
    var items := Sweep(itemRows, users.value, qi, reg);
    if items.Err? {
      return Err(items.error);
    }
    return Ok((users.value, items.value));
  }

  /** The epoch loop of `fit` with one factor: `nEpochs` rounds of a full
      user sweep then a full item sweep, with no convergence test. It
      computes `Epochs`. */
  method Fit(userRows: Rows, itemRows: Rows, pu0: seq<real>, qi0: seq<real>, reg: real, nEpochs: nat)
    returns (r: Result<(seq<real>, seq<real>)>)
    ensures r == Epochs(userRows, itemRows, pu0, qi0, reg, nEpochs)
  {
    var pu, qi := pu0, qi0;
    var epoch := 0;
    while epoch < nEpochs
      invariant epoch <= nEpochs
      invariant Epochs(userRows, itemRows, pu0, qi0, reg, epoch) == Ok((pu, qi))
    {
      EpochsNext(userRows, itemRows, pu0, qi0, reg, epoch, pu, qi);
      var step := RunEpoch(userRows, itemRows, pu, qi, reg);
      if step.Err? {
        EpochsStayFailed(userRows, itemRows, pu0, qi0, reg, epoch + 1, nEpochs);
        return Err(step.error);
      }
      pu, qi := step.value.0, step.value.1;
      epoch := epoch + 1;
    }
    return Ok((pu, qi));
  }

  /** A successful run ends with an epoch from the factors of the run one
      epoch shorter: every user factor solves its system against the item
      factors that epoch started from, and every item factor solves its
      system against the final user factors. */
  lemma LastEpoch(userRows: Rows, itemRows: Rows, pu0: seq<real>, qi0: seq<real>, reg: real, n: nat)
    ensures var r := Epochs(userRows, itemRows, pu0, qi0, reg, n);
      r.Ok? && n > 0 ==>
      var prev := Epochs(userRows, itemRows, pu0, qi0, reg, n - 1);
      && prev.Ok?
      && (forall u | 0 <= u < |userRows| && userRows[u].Some? ::
            Solve(userRows[u].value, prev.value.1, reg) == Ok(r.value.0[u]))
      && (forall i | 0 <= i < |itemRows| && itemRows[i].Some? ::
            Solve(itemRows[i].value, r.value.0, reg) == Ok(r.value.1[i]))
  {
    var r := Epochs(userRows, itemRows, pu0, qi0, reg, n);
    if r.Ok? && n > 0 {
      var prev := Epochs(userRows, itemRows, pu0, qi0, reg, n - 1);
      assert r == Epoch(userRows, itemRows, prev.value.0, prev.value.1, reg);
    }
  }

  /** A table of one-element factor rows. */
  function Column(v: seq<real>): (rows: seq<seq<real>>)
    ensures |rows| == |v|
    ensures forall k | 0 <= k < |v| :: rows[k] == [v[k]]
  {
    seq(|v|, k requires 0 <= k < |v| => [v[k]])
  }

  /** The first factor of every row. */
  function FirstColumn(rows: seq<seq<real>>): seq<real> {
    seq(|rows|, k requires 0 <= k < |rows| => if |rows[k]| == 0 then 0.0 else rows[k][0])
  }

  lemma ColumnRoundTrip(v: seq<real>)
    ensures FirstColumn(Column(v)) == v
  {
  }

  /** Every row of a dense table only names ids below `n`. */
  predicate TableBelow(table: seq<seq<Entry>>, n: nat) {
    forall e | 0 <= e < |table| :: KeysBelow(table[e], n)
  }

  /** The training dictionary as half-epoch rows: an id without entries is
      not a key of the dictionary. */
  function Present(table: seq<seq<Entry>>): Rows {
    seq(|table|, e requires 0 <= e < |table| => if |table[e]| == 0 then None else Some(table[e]))
  }

  /** `ALS_rating.fit` with one factor: users solve against their rated
      items, items against their raters, from the given initial factors.
      The model holds exactly the factors `Epochs` produces; every item the
      dictionary holds ends up solving its system against the final user
      factors; the fit succeeds whenever reg > 0 and every id is in range. */
  method FitExplicit(data: Dataset, pu0: seq<real>, qi0: seq<real>, reg: real, nEpochs: nat) returns (r: Result<Model>)
    requires |pu0| == data.nUsers && |qi0| == data.nItems && |data.trainUser| <= data.nUsers
    ensures var run := Epochs(Present(data.trainUser), Present(data.trainItem), pu0, qi0, reg, nEpochs);
      && (r.Ok? <==> run.Ok?)
      && (r.Ok? ==> run.value == (FirstColumn(r.value.pu), FirstColumn(r.value.qi)))
      && (r.Err? ==> r.error == run.error)
    ensures r.Ok? ==> Valid(r.value) && r.value.nFactors == 1 && r.value.variant == Explicit && r.value.data == data
    ensures r.Ok? && nEpochs > 0 ==> forall i | 0 <= i < |data.trainItem| && |data.trainItem[i]| > 0 :: i < data.nItems
    ensures r.Ok? && nEpochs > 0 ==> forall i | 0 <= i < |data.trainItem| && |data.trainItem[i]| > 0 ::
      Solve(data.trainItem[i], FirstColumn(r.value.pu), reg) == Ok(FirstColumn(r.value.qi)[i])
    ensures (reg > 0.0 && |data.trainItem| <= data.nItems
      && TableBelow(data.trainUser, data.nItems) && TableBelow(data.trainItem, data.nUsers)) ==> r.Ok?
  {
    var userRows, itemRows := Present(data.trainUser), Present(data.trainItem);
    var f := Fit(userRows, itemRows, pu0, qi0, reg, nEpochs);
    if f.Err? {
      return Err(f.error);
    }
    var (pu, qi) := f.value;
    ColumnRoundTrip(pu);
    ColumnRoundTrip(qi);
    if nEpochs > 0 {
      assert forall i | 0 <= i < |data.trainItem| && |data.trainItem[i]| > 0 :: itemRows[i] == Some(data.trainItem[i]);
    }
    return Ok(Model(Explicit, data, 1, Column(pu), Column(qi)));
  }

  // ---------------------------------------------------------------------
  // The implicit variant's rows: equality filters on the flat arrays

  /** Which array `np.where` compares against the id. */
  datatype Axis = ByUser | ByItem

  /** The interaction's id on `axis` is `id`. */
  predicate Matches(x: Interaction, axis: Axis, id: nat) {
    if axis == ByUser then x.user == id else x.item == id
  }

  /** The entry a matching interaction contributes: its id on the other
      axis with its label. */
  function EntryOf(x: Interaction, axis: Axis): Entry {
    if axis == ByUser then Entry(x.item, x.value) else Entry(x.user, x.value)
  }

  /** `np.where(ids == id)`: exactly the positions of the matching
      interactions, in increasing order. */
  function Where(xs: seq<Interaction>, axis: Axis, id: nat): (ks: seq<nat>)
    ensures forall j | 0 <= j < |ks| :: ks[j] < |xs| && Matches(xs[ks[j]], axis, id)
    ensures forall k | 0 <= k < |xs| && Matches(xs[k], axis, id) :: k in ks
    ensures forall a, b | 0 <= a < b < |ks| :: ks[a] < ks[b]
  {
    if |xs| == 0 then [] else
      var init := xs[..|xs| - 1];
      var ks := Where(init, axis, id);
      assert forall k | 0 <= k < |init| :: init[k] == xs[k];
      if Matches(xs[|xs| - 1], axis, id) then ks + [|xs| - 1] else ks
  }

  /** `items[where(users == u)]` zipped with `labels[where(users == u)]`,
      or the same with the axes swapped: entry `j` comes from the `j`-th
      matching interaction. */
  function RowsOf(xs: seq<Interaction>, axis: Axis, id: nat): (r: seq<Entry>)
    ensures |r| == |Where(xs, axis, id)|
    ensures forall j | 0 <= j < |r| :: r[j] == EntryOf(xs[Where(xs, axis, id)[j]], axis)
  {
    var ks := Where(xs, axis, id);
    seq(|ks|, j requires 0 <= j < |ks| => EntryOf(xs[ks[j]], axis))
  }

  /** The row holds exactly the pairs the interactions give `id`. */
  lemma RowsOfExact(xs: seq<Interaction>, axis: Axis, id: nat, e: Entry)
    ensures e in RowsOf(xs, axis, id) <==>
      (if axis == ByUser then Interaction(id, e.key, e.rating) else Interaction(e.key, id, e.rating)) in xs
  {
    var ks := Where(xs, axis, id);
    var r := RowsOf(xs, axis, id);
    var x := if axis == ByUser then Interaction(id, e.key, e.rating) else Interaction(e.key, id, e.rating);
    if e in r {
      var j :| 0 <= j < |r| && r[j] == e;
      assert xs[ks[j]] == x;
    }
    if x in xs {
      var k :| 0 <= k < |xs| && xs[k] == x;
      assert Matches(xs[k], axis, id);
      var j :| 0 <= j < |ks| && ks[j] == k;
      assert r[j] == e;
    }
  }

  /** The implicit rows of the dictionary's ids: an id the training
      dictionary does not hold is skipped, any other reads its row from
      the interaction arrays. */
  function ImplicitRows(table: seq<seq<Entry>>, xs: seq<Interaction>, axis: Axis): Rows {
    seq(|table|, e requires 0 <= e < |table| => if |table[e]| == 0 then None else Some(RowsOf(xs, axis, e)))
  }

  /** `ALS.fit` with one factor: the same epochs over rows selected from
      the implicit-feedback arrays, for every user and item of the
      training dictionaries. */
  method FitImplicit(data: Dataset, pu0: seq<real>, qi0: seq<real>, reg: real, nEpochs: nat) returns (r: Result<Model>)
    requires |pu0| == data.nUsers && |qi0| == data.nItems && |data.trainUser| <= data.nUsers
    ensures var run := Epochs(ImplicitRows(data.trainUser, data.implicit, ByUser),
                              ImplicitRows(data.trainItem, data.implicit, ByItem), pu0, qi0, reg, nEpochs);
      && (r.Ok? <==> run.Ok?)
      && (r.Ok? ==> run.value == (FirstColumn(r.value.pu), FirstColumn(r.value.qi)))
      && (r.Err? ==> r.error == run.error)
    ensures r.Ok? ==> Valid(r.value) && r.value.nFactors == 1 && r.value.variant == Implicit && r.value.data == data
    ensures r.Ok? && nEpochs > 0 ==> forall i | 0 <= i < |data.trainItem| && |data.trainItem[i]| > 0 :: i < data.nItems
    ensures r.Ok? && nEpochs > 0 ==> forall i | 0 <= i < |data.trainItem| && |data.trainItem[i]| > 0 ::
      Solve(RowsOf(data.implicit, ByItem, i), FirstColumn(r.value.pu), reg) == Ok(FirstColumn(r.value.qi)[i])
    ensures (reg > 0.0 && |data.trainItem| <= data.nItems
      && (forall x | x in data.implicit :: x.user < data.nUsers && x.item < data.nItems)) ==> r.Ok?
  {
    var userRows := ImplicitRows(data.trainUser, data.implicit, ByUser);
    var itemRows := ImplicitRows(data.trainItem, data.implicit, ByItem);
    if forall x | x in data.implicit :: x.user < data.nUsers && x.item < data.nItems {
      ImplicitRowsBelow(data.trainUser, data.implicit, ByUser, data.nItems);
      ImplicitRowsBelow(data.trainItem, data.implicit, ByItem, data.nUsers);
    }
    var f := Fit(userRows, itemRows, pu0, qi0, reg, nEpochs);
    if f.Err? {
      return Err(f.error);
    }
    var (pu, qi) := f.value;
    ColumnRoundTrip(pu);
    ColumnRoundTrip(qi);
    if nEpochs > 0 {
      assert forall i | 0 <= i < |data.trainItem| && |data.trainItem[i]| > 0 ::
        itemRows[i] == Some(RowsOf(data.implicit, ByItem, i));
    }
    return Ok(Model(Implicit, data, 1, Column(pu), Column(qi)));
  }

  /** When every interaction's other id is below `n`, so is every key of
      the implicit rows. */
  lemma ImplicitRowsBelow(table: seq<seq<Entry>>, xs: seq<Interaction>, axis: Axis, n: nat)
    requires forall x | x in xs :: (if axis == ByUser then x.item else x.user) < n
    ensures RowsBelow(ImplicitRows(table, xs, axis), n)
  {
    var rows := ImplicitRows(table, xs, axis);
    forall e | 0 <= e < |rows| && rows[e].Some? ensures KeysBelow(rows[e].value, n) {
      var r := RowsOf(xs, axis, e);
      forall en | en in r ensures en.key < n {
        var j :| 0 <= j < |r| && r[j] == en;
        assert xs[Where(xs, axis, e)[j]] in xs;
      }
    }
  }
}
