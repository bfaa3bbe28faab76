/** The user-based k-nearest-neighbour predictor. The user-user similarity
    matrix and the baseline biases are computed by helpers outside this model
    and enter as fields of the fitted model. */
module UserKnn {
  import opened Common
  import opened Data
  import opened Ranking

  // ---------------------------------------------------------------------
  // Construction

  /** The similarity measures the constructor accepts. */
  datatype Metric = Cosine | Msd | Pearson

  function MetricName(m: Metric): string {
    match m
    case Cosine => "cosine"
    case Msd => "msd"
    case Pearson => "pearson"
  }

  datatype Config = Config(metric: Metric, k: nat, minSupport: int, baseline: bool)

  /** `userKNN(sim_option, k, min_support, baseline)`: the metric name is
      resolved once, and any other name is rejected before data is seen. */
  function NewConfig(simOption: string, k: nat, minSupport: int, baseline: bool): (r: Result<Config>)
    ensures r.Ok? <==> simOption == "cosine" || simOption == "msd" || simOption == "pearson"
    ensures r.Ok? ==> MetricName(r.value.metric) == simOption
    ensures r.Ok? ==> r.value.k == k && r.value.minSupport == minSupport && r.value.baseline == baseline
    ensures r.Err? ==> r.error == UnknownMetric(simOption)
  {
    if simOption == "cosine" then Ok(Config(Cosine, k, minSupport, baseline))
    else if simOption == "msd" then Ok(Config(Msd, k, minSupport, baseline))
    else if simOption == "pearson" then Ok(Config(Pearson, k, minSupport, baseline))
    else Err(UnknownMetric(simOption))
  }

  /** Every metric is reachable by its name. */
  lemma MetricNameRoundTrip(m: Metric, k: nat, minSupport: int, baseline: bool)
    ensures NewConfig(MetricName(m), k, minSupport, baseline) == Ok(Config(m, k, minSupport, baseline))
  {
  }

  // ---------------------------------------------------------------------
  // The fitted model

  /** What `fit` leaves behind: the data (its global mean is the default
      prediction), the user-user similarity matrix and the user and item
      biases of the baseline estimate. */
  datatype Model = Model(config: Config, data: Dataset, sim: seq<seq<real>>, bu: seq<real>, bi: seq<real>)

  /** The shape `fit` guarantees: a square similarity matrix over the users
      of `train_user`, and, with baseline, a bias for every such user. */
  ghost predicate Valid(m: Model) {
    && |m.data.trainUser| == |m.sim|
    && (forall row | row in m.sim :: |row| == |m.sim|)
    && (m.config.baseline ==> |m.bu| >= |m.sim|)
  }

  /** A rater of the target item with its similarity to the target user. */
  datatype Neighbour = Neighbour(user: nat, sim: real, rating: real)

  function SimOf(n: Neighbour): real {
    n.sim
  }

  /** `[(v, sim[u, v], r) for (v, r) in raters]`, or None when a lookup in
      the similarity matrix is out of range. */
  function Neighbours(sim: seq<seq<real>>, u: nat, raters: seq<Entry>): (r: Option<seq<Neighbour>>)
    ensures r.None? <==> exists e | e in raters :: !(u < |sim| && e.key < |sim[u]|)
    ensures r.Some? ==> |r.value| == |raters|
    ensures r.Some? ==> forall j | 0 <= j < |raters| ::
      u < |sim| && raters[j].key < |sim[u]|
      && r.value[j] == Neighbour(raters[j].key, sim[u][raters[j].key], raters[j].rating)
    ensures r.Some? ==> forall n | n in r.value ::
      u < |sim| && n.user < |sim[u]| && n.sim == sim[u][n.user] && Entry(n.user, n.rating) in raters
  {
    if forall e | e in raters :: u < |sim| && e.key < |sim[u]| then
      assert forall j | 0 <= j < |raters| :: raters[j] in raters;
      var ns := seq(|raters|, j requires 0 <= j < |raters| =>
        Neighbour(raters[j].key, sim[u][raters[j].key], raters[j].rating));
      forall n | n in ns
        ensures u < |sim| && n.user < |sim[u]| && n.sim == sim[u][n.user] && Entry(n.user, n.rating) in raters
      {
        var j :| 0 <= j < |raters| && ns[j] == n;
        assert raters[j] == Entry(n.user, n.rating);
      }
      assert !exists e | e in raters :: !(u < |sim| && e.key < |sim[u]|);
      Some(ns)
    else
      None
  }

  /** The k raters of item `i` most similar to `u`, whatever the sign of
      their similarity; None on an unknown item or an out-of-range lookup. */
  function Neighbourhood(m: Model, u: nat, i: nat): (r: Option<seq<Neighbour>>)
    requires Valid(m)
    ensures r.None? <==> i >= |m.data.trainItem| || Neighbours(m.sim, u, m.data.trainItem[i]).None?
    ensures r.Some? ==> i < |m.data.trainItem| && (u < |m.sim| || |r.value| == 0)
    ensures r.Some? ==> forall n | n in r.value :: n.user < |m.sim|
  {
    if i >= |m.data.trainItem| then None
    else match Neighbours(m.sim, u, m.data.trainItem[i])
      case None => None
      case Some(ns) => Some(TopK(ns, SimOf, m.config.k))
  }

  // ---------------------------------------------------------------------
  // The weighted vote

  /** One neighbour's vote: its similarity and the rating it contributes
      (raw, or centred on its own baseline). */
  datatype Vote = Vote(sim: real, dev: real)

  /** `sim_ratings`: only strictly positive similarities contribute. */
  function Num(vs: seq<Vote>): real {
    if |vs| == 0 then 0.0 else Weighted(vs[0]) + Num(vs[1..])
  }

  /** One vote's share of `sim_ratings`. */
  function Weighted(v: Vote): real {
    if v.sim > 0.0 then v.sim * v.dev else 0.0
  }

  /** `sim_sums` */
  function Den(vs: seq<Vote>): real {
    if |vs| == 0 then 0.0
    else (if vs[0].sim > 0.0 then vs[0].sim else 0.0) + Den(vs[1..])
  }

  /** `sim_sums` is never negative, and is zero exactly when no vote has a
      positive similarity (the ZeroDivisionError case). */
  lemma {:induction false} DenSign(vs: seq<Vote>)
    ensures Den(vs) >= 0.0
    ensures Den(vs) > 0.0 <==> exists j | 0 <= j < |vs| :: vs[j].sim > 0.0
  {
    if |vs| > 0 {
      DenSign(vs[1..]);
      if Den(vs[1..]) > 0.0 {
        var j :| 0 <= j < |vs| - 1 && vs[1..][j].sim > 0.0;
        assert vs[j + 1].sim > 0.0;
      }
      if vs[0].sim <= 0.0 && Den(vs[1..]) == 0.0 {
        forall j | 0 <= j < |vs| ensures vs[j].sim <= 0.0 {
          if j > 0 {
            assert vs[j] == vs[1..][j - 1];
          }
        }
      }
    }
  }

  /** The votes with a positive similarity. */
  function Positive(vs: seq<Vote>): seq<Vote> {
    if |vs| == 0 then []
    else (if vs[0].sim > 0.0 then [vs[0]] else []) + Positive(vs[1..])
  }

  /** Votes with similarity at most 0 add nothing to either sum: dropping
      them leaves numerator and denominator unchanged. */
  lemma {:induction false} NonPositiveVotesIgnored(vs: seq<Vote>)
    ensures Num(Positive(vs)) == Num(vs)
    ensures Den(Positive(vs)) == Den(vs)
  {
    if |vs| > 0 {
      NonPositiveVotesIgnored(vs[1..]);
      var p := Positive(vs);
      if vs[0].sim > 0.0 {
        assert p == [vs[0]] + Positive(vs[1..]);
        assert p[0] == vs[0] && p[1..] == Positive(vs[1..]);
      } else {
        assert p == Positive(vs[1..]);
      }
    }
  }

  /** The same votes, every one casting the value `c`. */
  function WithDev(vs: seq<Vote>, c: real): (ws: seq<Vote>)
    ensures |ws| == |vs|
    ensures forall j | 0 <= j < |vs| :: ws[j] == Vote(vs[j].sim, c)
  {
    seq(|vs|, j requires 0 <= j < |vs| => Vote(vs[j].sim, c))
  }

  lemma {:induction false} ConstNum(vs: seq<Vote>, c: real)
    ensures Num(WithDev(vs, c)) == c * Den(vs)
  {
    if |vs| > 0 {
      ConstNum(vs[1..], c);
      var ws := WithDev(vs, c);
      assert ws[1..] == WithDev(vs[1..], c);
      var w := if vs[0].sim > 0.0 then vs[0].sim else 0.0;
      assert c * (w + Den(vs[1..])) == c * w + c * Den(vs[1..]);
    }
  }

  /** Raising the values of voters with positive weight never lowers the
      numerator. */
  lemma {:induction false} NumMonotone(vs: seq<Vote>, ws: seq<Vote>)
    requires |vs| == |ws|
    requires forall j | 0 <= j < |vs| :: vs[j].sim == ws[j].sim && (vs[j].sim > 0.0 ==> vs[j].dev <= ws[j].dev)
    ensures Num(vs) <= Num(ws)
  {
    if |vs| > 0 {
      NumMonotone(vs[1..], ws[1..]);
      if vs[0].sim > 0.0 {
        assert vs[0].sim * vs[0].dev <= vs[0].sim * ws[0].dev;
      }
    }
  }

  lemma NumBounds(vs: seq<Vote>, lo: real, hi: real)
    requires forall j | 0 <= j < |vs| :: vs[j].sim > 0.0 ==> lo <= vs[j].dev <= hi
    ensures lo * Den(vs) <= Num(vs) <= hi * Den(vs)
  {
    ConstNum(vs, lo);
    ConstNum(vs, hi);
    NumMonotone(WithDev(vs, lo), vs);
    NumMonotone(vs, WithDev(vs, hi));
  }

  lemma QuotientBounds(n: real, d: real, lo: real, hi: real)
    requires d > 0.0 && lo * d <= n <= hi * d
    ensures lo <= n / d <= hi
  {
    var q := n / d;
    assert q * d == n;
  }

  /** The weighted average lies between the smallest and the largest
      contributing value. */
  lemma WeightedMeanWithin(vs: seq<Vote>, lo: real, hi: real)
    requires Den(vs) > 0.0
    requires forall j | 0 <= j < |vs| :: vs[j].sim > 0.0 ==> lo <= vs[j].dev <= hi
    ensures lo <= Num(vs) / Den(vs) <= hi
  {
    var n, d := Num(vs), Den(vs);
    assert lo * d <= n <= hi * d by { NumBounds(vs, lo, hi); }
    QuotientBounds(n, d, lo, hi);
  }

  /** `offset + sim_ratings / sim_sums` clamped to [0, 5]; a zero
      denominator is the ZeroDivisionError path and gives the fallback. */
  function Estimate(offset: real, vs: seq<Vote>, fallback: real): (r: real)
    ensures Den(vs) == 0.0 ==> r == fallback
    ensures Den(vs) != 0.0 ==> 0.0 <= r <= 5.0
  {
    if Den(vs) == 0.0 then fallback else Clamp(offset + Num(vs) / Den(vs), 0.0, 5.0)
  }

  function PlainVotes(top: seq<Neighbour>): (vs: seq<Vote>)
    ensures |vs| == |top|
    ensures forall j | 0 <= j < |top| :: vs[j] == Vote(top[j].sim, top[j].rating)
  {
    seq(|top|, j requires 0 <= j < |top| => Vote(top[j].sim, top[j].rating))
  }

  /** `global_mean + bu[u] + bi[i]` */
  function Baseline(m: Model, u: nat, i: nat): real
    requires u < |m.bu| && i < |m.bi|
  {
    m.data.globalMean + m.bu[u] + m.bi[i]
  }

  /** Each neighbour votes its rating minus its own baseline for item `i`. */
  function BaselineVotes(m: Model, top: seq<Neighbour>, i: nat): (vs: seq<Vote>)
    requires i < |m.bi|
    requires forall n | n in top :: n.user < |m.bu|
    ensures |vs| == |top|
    ensures forall j | 0 <= j < |top| :: vs[j] == Vote(top[j].sim, top[j].rating - Baseline(m, top[j].user, i))
  {
    seq(|top|, j requires 0 <= j < |top| => Vote(top[j].sim, top[j].rating - Baseline(m, top[j].user, i)))
  }

  /** The votes `predict` weighs: None when it falls back before voting. */
  function VotesFor(m: Model, u: nat, i: nat): (r: Option<(real, seq<Vote>)>)
    requires Valid(m)
    ensures r.None? <==> Neighbourhood(m, u, i).None? || (m.config.baseline && (u >= |m.bu| || i >= |m.bi|))
    ensures r.Some? ==> |r.value.1| == |Neighbourhood(m, u, i).value|
    ensures r.Some? ==> forall j | 0 <= j < |r.value.1| :: r.value.1[j].sim == Neighbourhood(m, u, i).value[j].sim
    ensures r.Some? && !m.config.baseline ==> r.value.0 == 0.0 && forall j | 0 <= j < |r.value.1| ::
      r.value.1[j].dev == Neighbourhood(m, u, i).value[j].rating
    ensures r.Some? && m.config.baseline ==>
      && u < |m.bu| && i < |m.bi|
      && r.value.0 == Baseline(m, u, i)
      && forall j | 0 <= j < |r.value.1| ::
        var n := Neighbourhood(m, u, i).value[j];
        n.user < |m.bu| && r.value.1[j].dev == n.rating - Baseline(m, n.user, i)
  {
    match Neighbourhood(m, u, i)
    case None => None
    case Some(top) =>
      if !m.config.baseline then Some((0.0, PlainVotes(top)))
      else if u >= |m.bu| || i >= |m.bi| then None
      else Some((Baseline(m, u, i), BaselineVotes(m, top, i)))
  }

  // ---------------------------------------------------------------------
  // predict

  /** `predict(u, i)`: the similarity-weighted vote of the top-k raters of
      `i`, clamped to [0, 5], or the global mean when a lookup fails or no
      selected neighbour has a positive similarity. */
  function Predict(m: Model, u: nat, i: nat): (r: real)
    requires Valid(m)
    ensures r == m.data.globalMean || 0.0 <= r <= 5.0
    ensures i >= |m.data.trainItem| ==> r == m.data.globalMean
    ensures m.config.baseline && (u >= |m.bu| || i >= |m.bi|) ==> r == m.data.globalMean
  {
    match VotesFor(m, u, i)
    case None => m.data.globalMean
    case Some((offset, vs)) => Estimate(offset, vs, m.data.globalMean)
  }

  /** The selected neighbourhood is the top k by similarity: as many raters
      as `k` allows, drawn from the raters with their similarity to `u`,
      sorted, and no rater left out is more similar than one kept. */
  lemma NeighbourhoodIsTopK(m: Model, u: nat, i: nat)
    requires Valid(m) && i < |m.data.trainItem| && u < |m.sim|
    requires forall e | e in m.data.trainItem[i] :: e.key < |m.sim|
    ensures Neighbourhood(m, u, i).Some?
    ensures var ns := Neighbours(m.sim, u, m.data.trainItem[i]).value;
      var top := Neighbourhood(m, u, i).value;
      && |top| == Min(m.config.k, |m.data.trainItem[i]|)
      && SortedDesc(top, SimOf)
      && multiset(top) <= multiset(ns)
      && (forall n | n in top :: Entry(n.user, n.rating) in m.data.trainItem[i] && n.sim == m.sim[u][n.user])
      && (forall x, y | x in multiset(ns) - multiset(top) && y in top :: x.sim <= y.sim)
  {
    var ns := Neighbours(m.sim, u, m.data.trainItem[i]).value;
    TopKIsBest(ns, SimOf, m.config.k);
  }

  /** Non-positive neighbours still take top-k slots: the number of
      neighbours that actually vote is min(k, raters with positive
      similarity). */
  lemma EffectiveNeighbourhood(m: Model, u: nat, i: nat)
    requires Valid(m)
    ensures Neighbourhood(m, u, i).Some? ==>
      var ns := Neighbours(m.sim, u, m.data.trainItem[i]).value;
      CountAbove(Neighbourhood(m, u, i).value, SimOf, 0.0) == Min(m.config.k, CountAbove(ns, SimOf, 0.0))
  {
    if Neighbourhood(m, u, i).Some? {
      var ns := Neighbours(m.sim, u, m.data.trainItem[i]).value;
      TopKCountAbove(ns, SimOf, m.config.k, 0.0);
    }
  }

  /** Nobody votes: a failed lookup, or no selected neighbour with positive
      similarity. */
  ghost predicate NoVoter(m: Model, u: nat, i: nat)
    requires Valid(m)
  {
    VotesFor(m, u, i).None? || CountAbove(Neighbourhood(m, u, i).value, SimOf, 0.0) == 0
  }

  /** `predict` falls back to the global mean when nobody votes, and
      otherwise returns a value in [0, 5]. */
  lemma PredictFallsBack(m: Model, u: nat, i: nat)
    requires Valid(m)
    ensures NoVoter(m, u, i) ==> Predict(m, u, i) == m.data.globalMean
    ensures !NoVoter(m, u, i) ==> 0.0 <= Predict(m, u, i) <= 5.0
  {
    var votes := VotesFor(m, u, i);
    if votes.Some? {
      var vs := votes.value.1;
      var top := Neighbourhood(m, u, i).value;
      CountAboveWitness(top, SimOf, 0.0);
      DenSign(vs);
      assert (exists j | 0 <= j < |vs| :: vs[j].sim > 0.0) <==> (exists j | 0 <= j < |top| :: SimOf(top[j]) > 0.0) by {
        if exists j | 0 <= j < |top| :: SimOf(top[j]) > 0.0 {
          var j :| 0 <= j < |top| && SimOf(top[j]) > 0.0;
          assert vs[j].sim > 0.0;
        }
      }
    }
  }

  /** Without baseline the prediction is a weighted mean of the voters'
      raw ratings: when some selected neighbour has a positive similarity,
      it stays within any band [lo, hi] inside [0, 5] that holds all of
      their ratings. */
  lemma PlainPredictWithinRatings(m: Model, u: nat, i: nat, lo: real, hi: real)
    requires Valid(m) && !m.config.baseline
    requires 0.0 <= lo <= hi <= 5.0
    ensures && Neighbourhood(m, u, i).Some?
            && (exists n | n in Neighbourhood(m, u, i).value :: n.sim > 0.0)
            && (forall n | n in Neighbourhood(m, u, i).value :: n.sim > 0.0 ==> lo <= n.rating <= hi)
            ==> lo <= Predict(m, u, i) <= hi
  {
    var nb := Neighbourhood(m, u, i);
    if nb.Some? && (exists n | n in nb.value :: n.sim > 0.0)
      && (forall n | n in nb.value :: n.sim > 0.0 ==> lo <= n.rating <= hi)
    {
      var vs := PlainVotes(nb.value);
      PlainPredictIsEstimate(m, u, i);
      PlainVotesBand(nb.value, lo, hi);
      ShiftedBand(0.0, vs, m.data.globalMean, lo, hi);
    }
  }

  /** Some selected neighbour of `u` for item `i` has a positive
      similarity, and every such neighbour's rating deviates from its own
      baseline by an amount in [lo, hi]. */
  /** Without baseline and with a neighbourhood, the prediction is the
      estimate from the neighbours' own ratings. */
  lemma PlainPredictIsEstimate(m: Model, u: nat, i: nat)
    requires Valid(m) && !m.config.baseline
    requires Neighbourhood(m, u, i).Some?
    ensures Predict(m, u, i) == Estimate(0.0, PlainVotes(Neighbourhood(m, u, i).value), m.data.globalMean)
  {
    assert VotesFor(m, u, i) == Some((0.0, PlainVotes(Neighbourhood(m, u, i).value)));
  }

  /** Plain votes carry a positive weight when some neighbour has positive
      similarity, and their deviations are the neighbours' ratings. */
  lemma PlainVotesBand(top: seq<Neighbour>, lo: real, hi: real)
    ensures (exists n | n in top :: n.sim > 0.0) ==> Den(PlainVotes(top)) > 0.0
    ensures (forall n | n in top :: n.sim > 0.0 ==> lo <= n.rating <= hi) ==>
      var vs := PlainVotes(top);
      forall j | 0 <= j < |vs| :: vs[j].sim > 0.0 ==> lo <= vs[j].dev <= hi
  {
    var vs := PlainVotes(top);
    if exists n | n in top :: n.sim > 0.0 {
      var n :| n in top && n.sim > 0.0;
      var j :| 0 <= j < |top| && top[j] == n;
      assert vs[j].sim > 0.0;
      DenSign(vs);
    }
    if forall n | n in top :: n.sim > 0.0 ==> lo <= n.rating <= hi {
      forall j | 0 <= j < |vs| ensures vs[j].sim > 0.0 ==> lo <= vs[j].dev <= hi {
        assert top[j] in top;
      }
    }
  }

  ghost predicate DeviationsWithin(m: Model, u: nat, i: nat, lo: real, hi: real)
    requires Valid(m) && m.config.baseline && i < |m.bi|
  {
    && Neighbourhood(m, u, i).Some?
    && (exists n | n in Neighbourhood(m, u, i).value :: n.sim > 0.0)
    && (forall n | n in Neighbourhood(m, u, i).value ::
          n.sim > 0.0 ==> lo <= n.rating - Baseline(m, n.user, i) <= hi)
  }

  /** With baseline the prediction is `bui` plus a weighted mean of the
      voters' deviations from their own baselines, clamped: when some
      selected neighbour has a positive similarity and every such voter's
      deviation lies in [lo, hi], the prediction lies between the clamped
      `bui + lo` and the clamped `bui + hi`. */
  lemma BaselinePredictWithin(m: Model, u: nat, i: nat, lo: real, hi: real)
    requires Valid(m) && m.config.baseline
    requires u < |m.bu| && i < |m.bi|
    ensures DeviationsWithin(m, u, i, lo, hi) ==>
      Clamp(Baseline(m, u, i) + lo, 0.0, 5.0) <= Predict(m, u, i) <= Clamp(Baseline(m, u, i) + hi, 0.0, 5.0)
  {
    if DeviationsWithin(m, u, i, lo, hi) {
      var top := Neighbourhood(m, u, i).value;
      var vs := BaselineVotes(m, top, i);
      BaselinePredictIsEstimate(m, u, i);
      BaselineVotesPositive(m, top, i);
      BaselineVotesBand(m, top, i, lo, hi);
      ShiftedBand(Baseline(m, u, i), vs, m.data.globalMean, lo, hi);
    }
  }

  /** With baseline and a neighbourhood, the prediction is the estimate
      from the target's baseline and the voters' deviations. */
  lemma BaselinePredictIsEstimate(m: Model, u: nat, i: nat)
    requires Valid(m) && m.config.baseline
    requires u < |m.bu| && i < |m.bi|
    requires Neighbourhood(m, u, i).Some?
    ensures Predict(m, u, i) ==
      Estimate(Baseline(m, u, i), BaselineVotes(m, Neighbourhood(m, u, i).value, i), m.data.globalMean)
  {
    assert VotesFor(m, u, i) == Some((Baseline(m, u, i), BaselineVotes(m, Neighbourhood(m, u, i).value, i)));
  }

  /** A neighbour with positive similarity gives the votes a positive weight. */
  lemma BaselineVotesPositive(m: Model, top: seq<Neighbour>, i: nat)
    requires i < |m.bi| && forall n | n in top :: n.user < |m.bu|
    ensures (exists n | n in top :: n.sim > 0.0) ==> Den(BaselineVotes(m, top, i)) > 0.0
  {
    if exists n | n in top :: n.sim > 0.0 {
      var vs := BaselineVotes(m, top, i);
      var n :| n in top && n.sim > 0.0;
      var j :| 0 <= j < |top| && top[j] == n;
      assert vs[j].sim > 0.0;
      DenSign(vs);
    }
  }

  /** The deviations the baseline votes carry inherit the band of the raters. */
  lemma BaselineVotesBand(m: Model, top: seq<Neighbour>, i: nat, lo: real, hi: real)
    requires i < |m.bi| && forall n | n in top :: n.user < |m.bu|
    requires forall n | n in top :: n.sim > 0.0 ==> lo <= n.rating - Baseline(m, n.user, i) <= hi
    ensures var vs := BaselineVotes(m, top, i);
      forall j | 0 <= j < |vs| :: vs[j].sim > 0.0 ==> lo <= vs[j].dev <= hi
  {
    var vs := BaselineVotes(m, top, i);
    forall j | 0 <= j < |vs| ensures vs[j].sim > 0.0 ==> lo <= vs[j].dev <= hi {
      assert top[j] in top;
    }
  }

  /** Shifting a weighted mean that lies in [lo, hi] by `b` and clamping
      keeps it between the clamped shifted bounds. */
  lemma ShiftedBand(b: real, vs: seq<Vote>, fallback: real, lo: real, hi: real)
    requires Den(vs) > 0.0
    requires forall j | 0 <= j < |vs| :: vs[j].sim > 0.0 ==> lo <= vs[j].dev <= hi
    ensures Clamp(b + lo, 0.0, 5.0) <= Estimate(b, vs, fallback) <= Clamp(b + hi, 0.0, 5.0)
  {
    WeightedMeanWithin(vs, lo, hi);
    var q := Num(vs) / Den(vs);
    ClampMonotone(b + lo, b + q, 0.0, 5.0);
    ClampMonotone(b + q, b + hi, 0.0, 5.0);
  }

  /** A single rater `v` with positive similarity decides the prediction:
      its rating clamped to [0, 5] without baseline, and the target's
      baseline plus the rater's deviation from its own baseline with it. */
  lemma SingleRaterPrediction(m: Model, u: nat, i: nat, v: nat, rating: real)
    requires Valid(m) && m.config.k >= 1
    requires i < |m.data.trainItem| && m.data.trainItem[i] == [Entry(v, rating)]
    requires u < |m.sim| && v < |m.sim| && m.sim[u][v] > 0.0
    ensures !m.config.baseline ==> Predict(m, u, i) == Clamp(rating, 0.0, 5.0)
    ensures m.config.baseline && u < |m.bu| && i < |m.bi| ==>
      Predict(m, u, i) == Clamp(Baseline(m, u, i) + (rating - Baseline(m, v, i)), 0.0, 5.0)
  {
    if !m.config.baseline {
      SinglePlainRater(m, u, i, v, rating);
    } else if u < |m.bu| && i < |m.bi| {
      SingleBaselineRater(m, u, i, v, rating);
    }
  }

  lemma SinglePlainRater(m: Model, u: nat, i: nat, v: nat, rating: real)
    requires Valid(m) && m.config.k >= 1 && !m.config.baseline
    requires i < |m.data.trainItem| && m.data.trainItem[i] == [Entry(v, rating)]
    requires u < |m.sim| && v < |m.sim| && m.sim[u][v] > 0.0
    ensures Predict(m, u, i) == Clamp(rating, 0.0, 5.0)
  {
    var s := m.sim[u][v];
    var top := SingleRaterNeighbourhood(m, u, i, v, rating);
    SingleVote(s, rating);
    assert PlainVotes(top) == [Vote(s, rating)];
    assert VotesFor(m, u, i) == Some((0.0, [Vote(s, rating)]));
    assert Predict(m, u, i) == Clamp(0.0 + rating, 0.0, 5.0);
  }

  lemma SingleBaselineRater(m: Model, u: nat, i: nat, v: nat, rating: real)
    requires Valid(m) && m.config.k >= 1 && m.config.baseline
    requires i < |m.data.trainItem| && m.data.trainItem[i] == [Entry(v, rating)]
    requires u < |m.sim| && v < |m.sim| && m.sim[u][v] > 0.0
    requires u < |m.bu| && i < |m.bi|
    ensures Predict(m, u, i) == Clamp(Baseline(m, u, i) + (rating - Baseline(m, v, i)), 0.0, 5.0)
  {
    var s := m.sim[u][v];
    var top := SingleRaterNeighbourhood(m, u, i, v, rating);
    var d, b := rating - Baseline(m, v, i), Baseline(m, u, i);
    assert BaselineVotes(m, top, i) == [Vote(s, d)];
    assert VotesFor(m, u, i) == Some((b, [Vote(s, d)]));
    assert Estimate(b, [Vote(s, d)], m.data.globalMean) == Clamp(b + d, 0.0, 5.0) by {
      SingleVote(s, d);
    }
  }

  lemma SingleRaterNeighbourhood(m: Model, u: nat, i: nat, v: nat, rating: real) returns (top: seq<Neighbour>)
    requires Valid(m) && m.config.k >= 1
    requires i < |m.data.trainItem| && m.data.trainItem[i] == [Entry(v, rating)]
    requires u < |m.sim| && v < |m.sim|
    ensures top == [Neighbour(v, m.sim[u][v], rating)]
    ensures Neighbourhood(m, u, i) == Some(top)
  {
    var ns := Neighbours(m.sim, u, m.data.trainItem[i]).value;
    assert ns[0] in ns;
    assert ns == [Neighbour(v, m.sim[u][v], rating)];
    top := TopK(ns, SimOf, m.config.k);
    assert top[0] in multiset(ns);
  }

  lemma SingleVote(s: real, d: real)
    requires s > 0.0
    ensures Den([Vote(s, d)]) == s
    ensures Num([Vote(s, d)]) == s * d
    ensures Num([Vote(s, d)]) / Den([Vote(s, d)]) == d
  {
    assert [Vote(s, d)][1..] == [];
  }

  // ---------------------------------------------------------------------
  // topN

  /** `u`'s row of the similarity matrix as (user, similarity) pairs. */
  function SimRow(m: Model, u: nat): (row: seq<Scored>)
    requires Valid(m) && u < |m.sim|
    ensures |row| == |m.sim|
    ensures forall v | 0 <= v < |row| :: row[v] == Scored(v, m.sim[u][v])
  {
    seq(|m.sim|, v requires 0 <= v < |m.sim| => Scored(v, m.sim[u][v]))
  }

  /** The ids of a similarity row are its indices, so they are distinct. */
  lemma SimRowDistinct(m: Model, u: nat)
    requires Valid(m) && u < |m.sim|
    ensures DistinctIds(SortDesc(SimRow(m, u), ScoreOf))
  {
    var row := SimRow(m, u);
    assert DistinctIds(row);
    SubMultisetDistinct(row, SortDesc(row, ScoreOf));
  }

  /** `sorted(..., reverse=True)[0]`: the entry `topN` skips, a user most
      similar to `u` (normally `u` itself). */
  function RankZero(m: Model, u: nat): (z: Scored)
    requires Valid(m) && u < |m.sim|
    ensures z.id < |m.sim| && z.score == m.sim[u][z.id]
    ensures forall v | 0 <= v < |m.sim| :: m.sim[u][v] <= z.score
  {
    var row := SimRow(m, u);
    var t := SortDesc(row, ScoreOf);
    assert t[0] in t;
    assert forall v | 0 <= v < |m.sim| :: m.sim[u][v] <= t[0].score by {
      forall v | 0 <= v < |m.sim| ensures m.sim[u][v] <= t[0].score {
        assert row[v] in multiset(t);
        var j :| 0 <= j < |t| && t[j] == row[v];
        assert j == 0 || ScoreOf(t[0]) >= ScoreOf(t[j]);
      }
    }
    t[0]
  }

  /** Similarity ranks 1..k of `u`: `sorted(..., reverse=True)[1:k+1]`. */
  function NeighbourRanks(m: Model, u: nat, k: nat): (r: seq<Scored>)
    requires Valid(m) && u < |m.sim|
    ensures |r| == Min(k, |m.sim| - 1)
    ensures SortedDesc(r, ScoreOf) && DistinctIds(r)
    ensures forall x | x in r :: x.id < |m.sim| && x.score == m.sim[u][x.id]
    ensures forall x | x in r :: x.id != RankZero(m, u).id
  {
    var t := SortDesc(SimRow(m, u), ScoreOf);
    SimRowDistinct(m, u);
    AfterHead(t, k);
    Take(DropFirst(t), k)
  }

  /** The neighbours are the best of the row: a user that is neither rank 0
      nor among them is no more similar to `u` than any of them. */
  lemma {:induction false} NeighbourRanksAreBest(m: Model, u: nat, k: nat)
    requires Valid(m) && u < |m.sim|
    ensures forall v, x | 0 <= v < |m.sim| && v != RankZero(m, u).id && v !in IdSet(NeighbourRanks(m, u, k))
      && x in NeighbourRanks(m, u, k) :: m.sim[u][v] <= x.score
  {
    var row := SimRow(m, u);
    var t := SortDesc(row, ScoreOf);
    var r := NeighbourRanks(m, u, k);
    forall v, x | 0 <= v < |m.sim| && v != RankZero(m, u).id && v !in IdSet(r) && x in r
      ensures m.sim[u][v] <= x.score
    {
      assert row[v] in multiset(t);
      assert row[v] !in r;
      PastHeadOutranked(t, k, row[v], x);
    }
  }

  /** When `k` reaches past the row, every user other than rank 0 is a
      neighbour. */
  lemma {:induction false} NeighbourRanksCoverRow(m: Model, u: nat, k: nat)
    requires Valid(m) && u < |m.sim|
    ensures k + 1 >= |m.sim| ==>
      forall v | 0 <= v < |m.sim| && v != RankZero(m, u).id :: v in IdSet(NeighbourRanks(m, u, k))
  {
    var row := SimRow(m, u);
    var t := SortDesc(row, ScoreOf);
    var r := NeighbourRanks(m, u, k);
    if k + 1 >= |m.sim| {
      assert r == DropFirst(t);
      forall v | 0 <= v < |m.sim| && v != RankZero(m, u).id
        ensures v in IdSet(r)
      {
        assert row[v] in multiset(t);
        var j :| 0 <= j < |t| && t[j] == row[v];
        assert j != 0;
        assert r[j - 1] == row[v];
      }
    }
  }

  // The pieces of `topN`'s `rank` list. They read the users' rows `rows`,
  // the target user's rated items `rated` and the scoring function `score`
  // as parameters; `TopNCandidates` plugs in `predict(u, ·)`.

  /** Whether a neighbour's entry `e` enters `rank` for a user whose rated
      items are `rated`: the neighbour rated it above 3 and the user has not
      rated the item. */
  predicate Recommends(rated: seq<nat>, e: Entry) {
    e.rating > 3.0 && e.key !in rated
  }

  /** The positions from `from` on whose entry `Recommends` keeps: exactly
      those, in increasing order. */
  function LikedPositions(rated: seq<nat>, es: seq<Entry>, from: nat): (p: seq<nat>)
    requires from <= |es|
    ensures forall t | 0 <= t < |p| :: from <= p[t] < |es| && Recommends(rated, es[p[t]])
    ensures forall t {:trigger t in p} | from <= t < |es| && Recommends(rated, es[t]) :: t in p
    ensures forall s, t | 0 <= s < t < |p| :: p[s] < p[t]
    decreases |es| - from
  {
    if from == |es| then []
    else if Recommends(rated, es[from]) then
      var rest := LikedPositions(rated, es, from + 1);
      var p := [from] + rest;
      assert forall t | 0 < t < |p| :: p[t] == rest[t - 1];
      p
    else
      LikedPositions(rated, es, from + 1)
  }

  /** How many entries of `es` from `from` on have key `j` and a rating
      above 3. */
  ghost function RowLikes(es: seq<Entry>, j: nat, from: nat := 0): nat
    requires from <= |es|
    decreases |es| - from
  {
    if from == |es| then 0
    else (if es[from].key == j && es[from].rating > 3.0 then 1 else 0) + RowLikes(es, j, from + 1)
  }

  /** How many entries with key `j` and a rating above 3 the rows of
      `nbrs` hold together. */
  ghost function Likes(rows: seq<seq<Entry>>, nbrs: seq<Scored>, j: nat): nat
    requires forall t | 0 <= t < |nbrs| :: nbrs[t].id < |rows|
  {
    if |nbrs| == 0 then 0
    else RowLikes(rows[nbrs[0].id], j) + Likes(rows, nbrs[1..], j)
  }

  /** Some neighbour in `nbrs` rated item `j` above 3. */
  ghost predicate LikedBy(rows: seq<seq<Entry>>, nbrs: seq<Scored>, j: nat) {
    && |nbrs| > 0
    && ((nbrs[0].id < |rows| && exists e | e in rows[nbrs[0].id] :: e.key == j && e.rating > 3.0)
        || LikedBy(rows, nbrs[1..], j))
  }

  /** One neighbour's contribution to `rank`: the entries of its row `es`
      from `from` on that `Recommends` keeps, in row order, each paired with
      `score` of its item. */
  function FromNeighbour(rated: seq<nat>, score: nat -> real, es: seq<Entry>, from: nat := 0): (r: seq<Scored>)
    requires from <= |es|
    ensures forall x | x in r :: x.id !in rated && x.score == score(x.id)
    decreases |es| - from
  {
    if from == |es| then []
    else
      var e := es[from];
      var rest := FromNeighbour(rated, score, es, from + 1);
      if Recommends(rated, e) then [Scored(e.key, score(e.key))] + rest else rest
  }

  /** `FromNeighbour` holds exactly one entry per recommended position of the
      row, in row order. */
  lemma {:induction false} FromNeighbourInOrder(rated: seq<nat>, score: nat -> real, es: seq<Entry>, from: nat)
    requires from <= |es|
    ensures var r := FromNeighbour(rated, score, es, from);
      && |r| == |LikedPositions(rated, es, from)|
      && forall t | 0 <= t < |r| ::
           var e := es[LikedPositions(rated, es, from)[t]]; r[t] == Scored(e.key, score(e.key))
    decreases |es| - from
  {
    if from < |es| {
      FromNeighbourInOrder(rated, score, es, from + 1);
      var rest := FromNeighbour(rated, score, es, from + 1);
      var q := LikedPositions(rated, es, from + 1);
      var e := es[from];
      if Recommends(rated, e) {
        var r := FromNeighbour(rated, score, es, from);
        var p := LikedPositions(rated, es, from);
        assert r == [Scored(e.key, score(e.key))] + rest;
        assert p == [from] + q;
        forall t | 0 <= t < |r|
          ensures r[t] == Scored(es[p[t]].key, score(es[p[t]].key))
        {
          if t > 0 {
            assert r[t] == rest[t - 1] && p[t] == q[t - 1];
          }
        }
      }
    }
  }

  /** `FromNeighbour` holds an item once per entry of it rated above 3, and
      never an item the user has rated. */
  lemma {:induction false} FromNeighbourCounts(rated: seq<nat>, score: nat -> real, es: seq<Entry>, from: nat, j: nat)
    requires from <= |es|
    ensures multiset(FromNeighbour(rated, score, es, from))[Scored(j, score(j))] ==
      (if j in rated then 0 else RowLikes(es, j, from))
    decreases |es| - from
  {
    if from < |es| {
      var rest := FromNeighbour(rated, score, es, from + 1);
      FromNeighbourCounts(rated, score, es, from + 1, j);
      var e := es[from];
      var x := Scored(j, score(j));
      if Recommends(rated, e) {
        var h := Scored(e.key, score(e.key));
        assert FromNeighbour(rated, score, es, from) == [h] + rest;
        assert multiset([h] + rest)[x] == multiset([h])[x] + multiset(rest)[x];
        assert h == x <==> e.key == j;
      } else {
        assert FromNeighbour(rated, score, es, from) == rest;
      }
    }
  }

  /** An item is in a neighbour's contribution iff the row recommends it. */
  lemma FromNeighbourMembers(rated: seq<nat>, score: nat -> real, es: seq<Entry>)
    ensures forall x | x in FromNeighbour(rated, score, es) ::
      exists e | e in es :: e.key == x.id && e.rating > 3.0
    ensures forall e | e in es && Recommends(rated, e) :: Scored(e.key, score(e.key)) in FromNeighbour(rated, score, es)
  {
    var r := FromNeighbour(rated, score, es);
    var p := LikedPositions(rated, es, 0);
    FromNeighbourInOrder(rated, score, es, 0);
    forall x | x in r ensures exists e | e in es :: e.key == x.id && e.rating > 3.0 {
      var t :| 0 <= t < |r| && r[t] == x;
      assert es[p[t]] in es;
    }
    forall e | e in es && Recommends(rated, e) ensures Scored(e.key, score(e.key)) in r {
      var t :| 0 <= t < |es| && es[t] == e;
      assert t in p;
      var i :| 0 <= i < |p| && p[i] == t;
      assert r[i] == Scored(e.key, score(e.key));
    }
  }

  /** `rank`: the contributions of every neighbour in `nbrs`, in neighbour
      order. */
  function Candidates(rows: seq<seq<Entry>>, rated: seq<nat>, score: nat -> real, nbrs: seq<Scored>): (r: seq<Scored>)
    requires forall t | 0 <= t < |nbrs| :: nbrs[t].id < |rows|
    ensures forall t | 0 <= t < |r| :: r[t].id !in rated && r[t].score == score(r[t].id) && LikedBy(rows, nbrs, r[t].id)
    ensures forall t, e | 0 <= t < |nbrs| && e in rows[nbrs[t].id] && Recommends(rated, e) :: Scored(e.key, score(e.key)) in r
  {
    if |nbrs| == 0 then []
    else
      var here := FromNeighbour(rated, score, rows[nbrs[0].id]);
      var rest := Candidates(rows, rated, score, nbrs[1..]);
      var r := here + rest;
      FromNeighbourMembers(rated, score, rows[nbrs[0].id]);
      assert forall x | x in r :: x in here || x in rest;
      assert forall n | n in nbrs :: n == nbrs[0] || n in nbrs[1..];
      r
  }

  /** `rank` holds an item once per entry of it rated above 3 in the
      neighbours' rows together, and never an item the user has rated. */
  lemma {:induction false} CandidatesCounts(rows: seq<seq<Entry>>, rated: seq<nat>, score: nat -> real, nbrs: seq<Scored>, j: nat)
    requires forall t | 0 <= t < |nbrs| :: nbrs[t].id < |rows|
    ensures multiset(Candidates(rows, rated, score, nbrs))[Scored(j, score(j))] ==
      (if j in rated then 0 else Likes(rows, nbrs, j))
  {
    if |nbrs| > 0 {
      var here := FromNeighbour(rated, score, rows[nbrs[0].id]);
      var rest := Candidates(rows, rated, score, nbrs[1..]);
      CandidatesCounts(rows, rated, score, nbrs[1..], j);
      FromNeighbourCounts(rated, score, rows[nbrs[0].id], 0, j);
      assert Candidates(rows, rated, score, nbrs) == here + rest;
    }
  }

  /** `rank` over two runs of neighbours is the first run's candidates
      followed by the second's: candidates come out in neighbour order. */
  lemma {:induction false} CandidatesAppend(rows: seq<seq<Entry>>, rated: seq<nat>, score: nat -> real, a: seq<Scored>, b: seq<Scored>)
    requires forall t | 0 <= t < |a| :: a[t].id < |rows|
    requires forall t | 0 <= t < |b| :: b[t].id < |rows|
    ensures Candidates(rows, rated, score, a + b) == Candidates(rows, rated, score, a) + Candidates(rows, rated, score, b)
  {
    if |a| == 0 {
      assert a + b == b;
    } else {
      CandidatesAppend(rows, rated, score, a[1..], b);
      assert (a + b)[0] == a[0] && (a + b)[1..] == a[1..] + b;
    }
  }

  /** The last neighbour's contribution closes `rank`. */
  lemma CandidatesSnoc(rows: seq<seq<Entry>>, rated: seq<nat>, score: nat -> real, nbrs: seq<Scored>, n: Scored)
    requires forall t | 0 <= t < |nbrs| :: nbrs[t].id < |rows|
    requires n.id < |rows|
    ensures Candidates(rows, rated, score, nbrs + [n]) ==
      Candidates(rows, rated, score, nbrs) + FromNeighbour(rated, score, rows[n.id])
  {
    CandidatesAppend(rows, rated, score, nbrs, [n]);
    assert [n][1..] == [];
  }

  /** The candidates `topN` ranks for `u` (empty when there are no users):
      `rank` over the neighbours at similarity ranks 1..k, scored by
      `predict(u, ·)`. */
  function TopNCandidates(m: Model, u: nat, k: nat): seq<Scored>
    requires Valid(m) && (|m.sim| == 0 || u < |m.sim|)
  {
    if |m.sim| == 0 then []
    else Candidates(m.data.trainUser, Keys(m.data.trainUser[u]), (j: nat) => Predict(m, u, j), NeighbourRanks(m, u, k))
  }

  /** Each item `u` has not rated appears in `topN`'s `rank` once per entry
      of it rated above 3 in the rows of `u`'s neighbours, scored by
      `predict(u, j)`; an item `u` has rated never appears. */
  lemma TopNCandidatesCount(m: Model, u: nat, k: nat, j: nat)
    requires Valid(m) && u < |m.sim|
    ensures var c := TopNCandidates(m, u, k);
      && (forall x | x in c :: x.score == Predict(m, u, x.id))
      && multiset(c)[Scored(j, Predict(m, u, j))] ==
           (if j in Keys(m.data.trainUser[u]) then 0 else Likes(m.data.trainUser, NeighbourRanks(m, u, k), j))
  {
    var score := (i: nat) => Predict(m, u, i);
    CandidatesCounts(m.data.trainUser, Keys(m.data.trainUser[u]), score, NeighbourRanks(m, u, k), j);
  }

  /** `topN(u, k, n_rec, random_rec)`: the items that `u`'s neighbours at
      similarity ranks 1..k rated above 3 and `u` has not rated, scored by
      `predict`; then the `n_rec` best in descending order, or `n_rec`
      distinct items sampled among those scoring at least 4. An item reached
      through several neighbours may appear more than once on the sorted
      path. */
  function TopN(m: Model, u: nat, k: nat, nRec: nat, randomRec: bool, draws: seq<nat>): (r: Result<seq<Scored>>)
    requires Valid(m)
    ensures 0 < |m.sim| <= u ==> r == Err(IndexOutOfRange)
    ensures r.Ok? ==> forall x | x in r.value ::
      && u < |m.sim|
      && x.id !in Keys(m.data.trainUser[u])
      && x.score == Predict(m, u, x.id)
      && LikedBy(m.data.trainUser, NeighbourRanks(m, u, k), x.id)
    ensures !randomRec && (|m.sim| == 0 || u < |m.sim|) ==>
      && r.Ok? && |r.value| == Min(nRec, |TopNCandidates(m, u, k)|) && SortedDesc(r.value, ScoreOf)
      && multiset(r.value) <= multiset(TopNCandidates(m, u, k))
      && forall x, y | x in multiset(TopNCandidates(m, u, k)) - multiset(r.value) && y in r.value ::
           x.score <= y.score
    ensures randomRec && (|m.sim| == 0 || u < |m.sim|) ==>
      (r.Ok? <==> nRec <= |QualifyingIds(TopNCandidates(m, u, k))|)
    ensures randomRec && r.Ok? ==> |r.value| == nRec && DistinctIds(r.value)
    ensures randomRec && r.Ok? ==> forall x | x in r.value :: x.score >= 4.0
    ensures r.Err? && (|m.sim| == 0 || u < |m.sim|) ==> r.error == PoolTooSmall
  {
    if 0 < |m.sim| <= u then Err(IndexOutOfRange)
    else Select(TopNCandidates(m, u, k), nRec, randomRec, draws)
  }

  /** When `u` is strictly more similar to itself than to anyone else, the
      rank-0 entry that `topN` drops is `u` itself, and `u` is not among its
      neighbours. */
  lemma SelfNotANeighbour(m: Model, u: nat, k: nat)
    requires Valid(m) && u < |m.sim|
    requires forall v | 0 <= v < |m.sim| && v != u :: m.sim[u][v] < m.sim[u][u]
    ensures forall x | x in NeighbourRanks(m, u, k) :: x.id != u
  {
    var row := SimRow(m, u);
    var t := SortDesc(row, ScoreOf);
    var me := Scored(u, m.sim[u][u]);
    assert row[u] == me;
    assert me in multiset(t);
    var j :| 0 <= j < |t| && t[j] == me;
    assert t[0] in row;
    assert ScoreOf(t[0]) >= ScoreOf(t[j]);
    assert t[0] == me;
    assert DistinctIds(row);
    DistinctOccursOnce(row, me);
    assert t == [t[0]] + t[1..];
    assert multiset(t[1..])[me] == 0;
    forall x | x in NeighbourRanks(m, u, k)
      ensures x.id != u
    {
      assert x in t[1..];
      assert x in row;
    }
  }
}
