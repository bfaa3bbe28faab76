/** Neural collaborative filtering, seen from outside the network: the
    trained graph is a pair of score functions, `pred` (the rating head)
    and `prob` (the ranking head's probability). What is modelled is how
    `predict` reads one score and how `recommend_user` turns the scores of
    every item into a list of unconsumed items. */
module Ncf {
  import opened Common
  import opened Data
  import opened Ranking

  datatype Task = RatingTask | RankingTask

  /** The trained network's two heads beside the training data. */
  datatype Model = Model(task: Task, data: Dataset, pred: (nat, nat) -> real, prob: (nat, nat) -> real)

  /** `predict` returns a clamped rating for the rating task and the pair
      (probability, raw prediction) for the ranking task. */
  datatype Prediction = Rated(rating: real) | Ranked(prob: real, pred: real)

  /** Both ids have an embedding row. */
  predicate Known(m: Model, u: nat, i: nat) {
    u < m.data.nUsers && i < m.data.nItems
  }

  /** `predict(u, i)`. An id without an embedding row makes the network
      fail; the fallback values of the except branch are scalars that are
      then indexed, so that path fails too. */
  function Predict(m: Model, u: nat, i: nat): (r: Result<Prediction>)
    ensures r.Ok? <==> Known(m, u, i)
    ensures r.Err? ==> r.error == IndexOutOfRange
    ensures r.Ok? && m.task == RatingTask ==> r.value.Rated? && 1.0 <= r.value.rating <= 5.0
    ensures r.Ok? && m.task == RatingTask && 1.0 <= m.pred(u, i) <= 5.0 ==> r.value.rating == m.pred(u, i)
    ensures r.Ok? && m.task == RankingTask ==> r.value == Ranked(m.prob(u, i), m.pred(u, i))
  {
    if !Known(m, u, i) then Err(IndexOutOfRange)
    else match m.task
      case RatingTask => Ok(Rated(Clamp(m.pred(u, i), 1.0, 5.0)))
      case RankingTask => Ok(Ranked(m.prob(u, i), m.pred(u, i)))
  }

  /** The rating-task prediction is the rating in [1, 5] nearest to the
      network's raw output. */
  lemma PredictIsNearest(m: Model, u: nat, i: nat, y: real)
    requires m.task == RatingTask && Known(m, u, i) && 1.0 <= y <= 5.0
    ensures Abs(Predict(m, u, i).value.rating - m.pred(u, i)) <= Abs(y - m.pred(u, i))
  {
    ClampIsNearest(m.pred(u, i), 1.0, 5.0, y);
  }

  // ---------------------------------------------------------------------
  // recommend_user

  /** The head `recommend_user` ranks by: `pred` for the rating task,
      `y_prob` for the ranking task, in both cases unclamped. */
  function Target(m: Model): (nat, nat) -> real {
    if m.task == RatingTask then m.pred else m.prob
  }

  /** One score per item id `0 .. n_items - 1` for user `u`: the raw
      rating for the rating task, the probability for the ranking task.
      For a known user each score is what `predict` reports for that item,
      before the rating task's clamp. */
  function Scores(m: Model, u: nat): (preds: seq<real>)
    ensures |preds| == m.data.nItems
    ensures m.task == RatingTask ==> forall j | 0 <= j < |preds| :: preds[j] == m.pred(u, j)
    ensures m.task == RankingTask ==> forall j | 0 <= j < |preds| :: preds[j] == m.prob(u, j)
    ensures u < m.data.nUsers && m.task == RatingTask ==> forall j | 0 <= j < |preds| ::
      Predict(m, u, j) == Ok(Rated(Clamp(preds[j], 1.0, 5.0)))
    ensures u < m.data.nUsers && m.task == RankingTask ==> forall j | 0 <= j < |preds| ::
      Predict(m, u, j).Ok? && Predict(m, u, j).value.prob == preds[j]
  {
    var preds := seq(m.data.nItems, j requires 0 <= j < m.data.nItems => Target(m)(u, j));
    assert m.task == RatingTask ==> Target(m) == m.pred;
    assert m.task == RankingTask ==> Target(m) == m.prob;
    assert forall j | 0 <= j < |preds| :: Known(m, u, j) <==> u < m.data.nUsers;
    preds
  }

  /** `np.argpartition(preds, -count)` accepts `kth = -count` only when
      `-n <= -count < n`. */
  predicate KthInBounds(count: nat, n: nat) {
    count <= n && (count > 0 || n > 0)
  }

  /** The ids `np.argpartition(preds, -count)[-count:]` may return: the
      positions of `count` largest scores in some order, or of every score
      when `count` is 0 (the slice `[-0:]` is the whole array). Which of
      several tied scores land inside is left open. */
  ghost predicate IsPartition(preds: seq<real>, count: nat, ids: seq<nat>) {
    && |ids| == (if count == 0 then |preds| else count)
    && (forall k | 0 <= k < |ids| :: ids[k] < |preds|)
    && (forall a, b | 0 <= a < b < |ids| :: ids[a] != ids[b])
    && (forall k, j | 0 <= k < |ids| && 0 <= j < |preds| && j !in ids :: preds[j] <= preds[ids[k]])
  }

  /** `zip(ids, preds[ids])` */
  function Pairs(preds: seq<real>, ids: seq<nat>): (ps: seq<Scored>)
    requires forall k | 0 <= k < |ids| :: ids[k] < |preds|
    ensures |ps| == |ids|
    ensures forall k | 0 <= k < |ids| :: ps[k] == Scored(ids[k], preds[ids[k]])
  {
    seq(|ids|, k requires 0 <= k < |ids| => Scored(ids[k], preds[ids[k]]))
  }

  /** `(rec for rec in rank if rec[0] not in consumed)` */
  function Unconsumed(rank: seq<Scored>, consumed: seq<nat>): (r: seq<Scored>)
    ensures forall x {:trigger x in r} :: x in r <==> x in rank && x.id !in consumed
    ensures SortedDesc(rank, ScoreOf) ==> SortedDesc(r, ScoreOf)
    ensures DistinctIds(rank) ==> DistinctIds(r)
  {
    KeptFacts(rank, consumed);
    Kept(rank, consumed)
  }

  /** The filter, one entry at a time. */
  function Kept(rank: seq<Scored>, consumed: seq<nat>): seq<Scored> {
    if |rank| == 0 then []
    else (if rank[0].id in consumed then [] else [rank[0]]) + Kept(rank[1..], consumed)
  }

  /** What `Unconsumed` promises, by induction over the filter. */
  lemma {:induction false} KeptFacts(rank: seq<Scored>, consumed: seq<nat>)
    ensures forall x {:trigger x in Kept(rank, consumed)} ::
      x in Kept(rank, consumed) <==> x in rank && x.id !in consumed
    ensures SortedDesc(rank, ScoreOf) ==> SortedDesc(Kept(rank, consumed), ScoreOf)
    ensures DistinctIds(rank) ==> DistinctIds(Kept(rank, consumed))
  {
    if |rank| > 0 {
      KeptFacts(rank[1..], consumed);
      UnconsumedStep(rank, consumed, Kept(rank[1..], consumed));
    }
  }

  /** The filter keeps a single entry exactly when its id is unconsumed. */
  lemma UnconsumedSingle(x: Scored, consumed: seq<nat>)
    ensures Unconsumed([x], consumed) == if x.id in consumed then [] else [x]
  {
    assert [x][1..] == [];
    assert Kept([x], consumed) == (if x.id in consumed then [] else [x]) + Kept([], consumed);
  }

  /** The filter keeps the order: filtering a concatenation concatenates the
      filtered parts. */
  lemma UnconsumedAppend(a: seq<Scored>, b: seq<Scored>, consumed: seq<nat>)
    ensures Unconsumed(a + b, consumed) == Unconsumed(a, consumed) + Unconsumed(b, consumed)
  {
    KeptAppend(a, b, consumed);
  }

  lemma {:induction false} KeptAppend(a: seq<Scored>, b: seq<Scored>, consumed: seq<nat>)
    ensures Kept(a + b, consumed) == Kept(a, consumed) + Kept(b, consumed)
  {
    if |a| == 0 {
      assert a + b == b;
    } else {
      assert (a + b)[0] == a[0] && (a + b)[1..] == a[1..] + b;
      KeptAppend(a[1..], b, consumed);
      var h := if a[0].id in consumed then [] else [a[0]];
      assert Kept(a + b, consumed) == h + (Kept(a[1..], consumed) + Kept(b, consumed));
      assert Kept(a, consumed) == h + Kept(a[1..], consumed);
    }
  }

  /** One step of the filter: keeping or dropping the head preserves what
      the filter of the tail guarantees. */
  lemma UnconsumedStep(rank: seq<Scored>, consumed: seq<nat>, rest: seq<Scored>)
    requires |rank| > 0
    requires forall x :: x in rest <==> x in rank[1..] && x.id !in consumed
    requires SortedDesc(rank[1..], ScoreOf) ==> SortedDesc(rest, ScoreOf)
    requires DistinctIds(rank[1..]) ==> DistinctIds(rest)
    ensures SortedDesc(rank, ScoreOf) ==> SortedDesc(rest, ScoreOf) && SortedDesc([rank[0]] + rest, ScoreOf)
    ensures DistinctIds(rank) ==> DistinctIds(rest) && DistinctIds([rank[0]] + rest)
    ensures forall x :: x in [rank[0]] + rest <==> x == rank[0] || x in rest
  {
    ConsTail(rank);
    SortedCons(rank[0], rank[1..], ScoreOf);
    SortedCons(rank[0], rest, ScoreOf);
    ConsIds(rank[0], rank[1..]);
    ConsIds(rank[0], rest);
    if DistinctIds(rank) {
      assert forall x | x in rest :: x.id in IdSet(rank[1..]);
    }
  }

  /** The ids of `rank` that are consumed. */
  function Hit(rank: seq<Scored>, consumed: seq<nat>): set<nat> {
    set x | x in rank && x.id in consumed :: x.id
  }

  /** Filtering a list whose ids are distinct drops one entry per consumed
      id it holds. */
  lemma {:induction false} UnconsumedLength(rank: seq<Scored>, consumed: seq<nat>)
    requires DistinctIds(rank)
    ensures |Unconsumed(rank, consumed)| + |Hit(rank, consumed)| == |rank|
  {
    if |rank| > 0 {
      ConsTail(rank);
      ConsIds(rank[0], rank[1..]);
      UnconsumedLength(rank[1..], consumed);
      var h1 := Hit(rank[1..], consumed);
      assert rank[0].id !in h1 by {
        assert h1 <= IdSet(rank[1..]);
      }
      HitCons(rank, consumed);
    }
  }

  lemma HitCons(rank: seq<Scored>, consumed: seq<nat>)
    requires |rank| > 0
    ensures Hit(rank, consumed) == (if rank[0].id in consumed then {rank[0].id} else {}) + Hit(rank[1..], consumed)
  {
    ConsTail(rank);
    assert forall x | x in rank :: x == rank[0] || x in rank[1..];
  }

  lemma {:induction false} SubsetCard(a: set<nat>, b: set<nat>)
    requires a <= b
    ensures |a| <= |b|
    decreases |a|
  {
    if a != {} {
      var x :| x in a;
      SubsetCard(a - {x}, b - {x});
    }
  }

  lemma {:induction false} ValuesCard(s: seq<nat>)
    ensures |Values(s)| <= |s|
  {
    if |s| > 0 {
      ValuesCard(s[1..]);
      var rest := Values(s[1..]);
      assert Values(s) == rest + {s[0]};
      if s[0] in rest {
        assert Values(s) == rest;
      } else {
        assert |rest + {s[0]}| == |rest| + 1;
      }
    }
  }

  /** At most `|consumed|` entries are filtered out. */
  lemma UnconsumedLeft(rank: seq<Scored>, consumed: seq<nat>)
    requires DistinctIds(rank)
    ensures |Unconsumed(rank, consumed)| >= |rank| - |consumed|
  {
    UnconsumedLength(rank, consumed);
    assert Hit(rank, consumed) <= Values(consumed);
    SubsetCard(Hit(rank, consumed), Values(consumed));
    ValuesCard(consumed);
  }

  /** The ids are distinct, and so are the pairs built from them. */
  lemma PairsDistinct(preds: seq<real>, ids: seq<nat>)
    requires forall k | 0 <= k < |ids| :: ids[k] < |preds|
    requires forall a, b | 0 <= a < b < |ids| :: ids[a] != ids[b]
    ensures DistinctIds(Pairs(preds, ids))
  {
  }

  /** `sorted(zip(ids, preds[ids]), key=lambda x: -x[1])`: one entry per
      id, each carrying that id's score. */
  function SortedPairs(preds: seq<real>, ids: seq<nat>): (rank: seq<Scored>)
    requires forall k | 0 <= k < |ids| :: ids[k] < |preds|
    requires forall a, b | 0 <= a < b < |ids| :: ids[a] != ids[b]
    ensures |rank| == |ids|
    ensures SortedDesc(rank, ScoreOf) && DistinctIds(rank)
    ensures forall x | x in rank :: x.id in ids && x.id < |preds| && x.score == preds[x.id]
    ensures forall k | 0 <= k < |ids| :: Scored(ids[k], preds[ids[k]]) in rank
  {
    var pairs := Pairs(preds, ids);
    var rank := SortDesc(pairs, ScoreOf);
    PairsDistinct(preds, ids);
    SubMultisetDistinct(pairs, rank);
    assert forall k | 0 <= k < |ids| :: pairs[k] in multiset(rank);
    rank
  }

  /** The tail of `recommend_user` over a score vector: partition off the
      `n_rec + |consumed|` best, sort them by descending score, drop the
      consumed ones and keep the first `n_rec`. `ids` stands for what the
      partition returned. */
  function RankTail(preds: seq<real>, consumed: seq<nat>, nRec: nat, ids: seq<nat>): (r: Result<seq<Scored>>)
    requires KthInBounds(nRec + |consumed|, |preds|) ==> IsPartition(preds, nRec + |consumed|, ids)
    ensures r.Ok? <==> KthInBounds(nRec + |consumed|, |preds|)
    ensures r.Err? ==> r.error == KthOutOfBounds
    ensures r.Ok? ==> |r.value| == nRec
    ensures r.Ok? ==> forall x | x in r.value :: x.id < |preds| && x.id !in consumed && x.score == preds[x.id]
    ensures r.Ok? ==> forall x | x in r.value :: x.id in ids
    ensures r.Ok? ==> SortedDesc(r.value, ScoreOf) && DistinctIds(r.value)
  {
    if !KthInBounds(nRec + |consumed|, |preds|) then Err(KthOutOfBounds) else
      var pairs := SortedPairs(preds, ids);
      var kept := Unconsumed(pairs, consumed);
      UnconsumedLeft(pairs, consumed);
      assert |kept| >= nRec;
      TakeKeeps(kept, nRec);
      Ok(Take(kept, nRec))
  }

  /** An unconsumed item missing from the list scores no higher than any
      item in it, whichever tied ids the partition kept. */
  lemma RankTailIsBest(preds: seq<real>, consumed: seq<nat>, nRec: nat, ids: seq<nat>, j: nat, y: Scored)
    requires KthInBounds(nRec + |consumed|, |preds|) && IsPartition(preds, nRec + |consumed|, ids)
    requires j < |preds| && j !in consumed
    requires j !in IdSet(RankTail(preds, consumed, nRec, ids).value)
    requires y in RankTail(preds, consumed, nRec, ids).value
    ensures preds[j] <= y.score
  {
    var r := RankTail(preds, consumed, nRec, ids).value;
    var k :| 0 <= k < |ids| && ids[k] == y.id;
    if j !in ids {
      assert preds[j] <= preds[ids[k]];
    } else {
      var kept := Unconsumed(SortedPairs(preds, ids), consumed);
      var x := Scored(j, preds[j]);
      var p :| 0 <= p < |ids| && ids[p] == j;
      assert x in kept;
      assert r == Take(kept, nRec);
      assert x !in r by {
        assert forall z | z in r :: z.id in IdSet(r);
      }
      PrefixOutranksRest(kept, nRec, x, y);
    }
  }

  /** `recommend_user(u, n_rec)`: score every item for `u`, then rank.
      `ids` stands for the partition's choice among tied scores. */
  function Recommend(m: Model, u: nat, nRec: nat, ids: seq<nat>): (r: Result<seq<Scored>>)
    requires u < m.data.nUsers && u < |m.data.trainUser|
      && KthInBounds(nRec + |m.data.trainUser[u]|, m.data.nItems)
      ==> IsPartition(Scores(m, u), nRec + |m.data.trainUser[u]|, ids)
    ensures u >= m.data.nUsers || u >= |m.data.trainUser| ==> r == Err(IndexOutOfRange)
    ensures u < m.data.nUsers && u < |m.data.trainUser| ==>
      (r.Ok? <==> KthInBounds(nRec + |m.data.trainUser[u]|, m.data.nItems))
    ensures u < m.data.nUsers && u < |m.data.trainUser| && r.Err? ==> r.error == KthOutOfBounds
    ensures r.Ok? ==> |r.value| == nRec && SortedDesc(r.value, ScoreOf) && DistinctIds(r.value)
    ensures r.Ok? ==> forall x | x in r.value ::
      && x.id < m.data.nItems
      && x.id !in Keys(m.data.trainUser[u])
      && x.score == Target(m)(u, x.id)
  {
    if u >= m.data.nUsers || u >= |m.data.trainUser| then Err(IndexOutOfRange) else
      RankTail(Scores(m, u), Keys(m.data.trainUser[u]), nRec, ids)
  }

  /** For the rating task, the list is also in order of the clamped
      `predict`: clamping never reverses two scores. */
  lemma RecommendOrderMatchesPredict(m: Model, u: nat, nRec: nat, ids: seq<nat>)
    requires m.task == RatingTask
    requires u < m.data.nUsers && u < |m.data.trainUser|
    requires KthInBounds(nRec + |m.data.trainUser[u]|, m.data.nItems)
    requires IsPartition(Scores(m, u), nRec + |m.data.trainUser[u]|, ids)
    ensures Recommend(m, u, nRec, ids).Ok?
    ensures var r := Recommend(m, u, nRec, ids).value;
      forall a, b | 0 <= a < b < |r| ::
        Predict(m, u, r[a].id).value.rating >= Predict(m, u, r[b].id).value.rating
  {
    var r := Recommend(m, u, nRec, ids).value;
    forall a, b | 0 <= a < b < |r|
      ensures Predict(m, u, r[a].id).value.rating >= Predict(m, u, r[b].id).value.rating
    {
      assert r[a].score >= r[b].score;
      assert r[a] in r && r[b] in r;
      RatedEntry(m, u, r[a]);
      RatedEntry(m, u, r[b]);
      ClampMonotone(r[b].score, r[a].score, 1.0, 5.0);
    }
  }

  /** A listed entry's clamped score is its rating-task prediction. */
  lemma RatedEntry(m: Model, u: nat, x: Scored)
    requires m.task == RatingTask && u < m.data.nUsers
    requires x.id < m.data.nItems && x.score == Target(m)(u, x.id)
    ensures Predict(m, u, x.id).Ok?
    ensures Predict(m, u, x.id).value.rating == Clamp(x.score, 1.0, 5.0)
  {
  }

  // ---------------------------------------------------------------------
  // One realisation of the partition

  /** The best `count` indexed scores (all of them for `count = 0`). */
  function IndexedTop(preds: seq<real>, count: nat): (top: seq<Scored>)
    ensures forall t | 0 <= t < |top| :: top[t].id < |preds| && top[t].score == preds[top[t].id]
  {
    var top := TopK(Indexed(preds), ScoreOf, if count == 0 then |preds| else count);
    assert forall t | 0 <= t < |top| :: top[t].id < |preds| && top[t].score == preds[top[t].id] by {
      forall t | 0 <= t < |top|
        ensures top[t].id < |preds| && top[t].score == preds[top[t].id]
      {
        IndexedMember(preds, top[t]);
      }
    }
    top
  }

  /** The ids of a stable descending sort of all scores, cut to the
      partition's length: one choice `np.argpartition` may make. */
  function ArgPartition(preds: seq<real>, count: nat): (ids: seq<nat>)
    ensures |ids| == |IndexedTop(preds, count)|
    ensures forall t | 0 <= t < |ids| :: ids[t] == IndexedTop(preds, count)[t].id
    ensures forall t | 0 <= t < |ids| :: ids[t] < |preds|
  {
    var top := IndexedTop(preds, count);
    seq(|top|, k requires 0 <= k < |top| => top[k].id)
  }

  /** The indexed scores `(0, preds[0]), (1, preds[1]), ...`. */
  function Indexed(preds: seq<real>): (all: seq<Scored>)
    ensures |all| == |preds|
    ensures forall k | 0 <= k < |preds| :: all[k] == Scored(k, preds[k])
    ensures DistinctIds(all)
  {
    seq(|preds|, k requires 0 <= k < |preds| => Scored(k, preds[k]))
  }

  /** The partition built from the top of the indexed scores has the
      right length, in-range and distinct ids. */
  lemma ArgPartitionShape(preds: seq<real>, count: nat)
    requires KthInBounds(count, |preds|)
    ensures |ArgPartition(preds, count)| == (if count == 0 then |preds| else count)
    ensures forall k | 0 <= k < |ArgPartition(preds, count)| ::
      ArgPartition(preds, count)[k] < |preds|
    ensures forall a, b | 0 <= a < b < |ArgPartition(preds, count)| ::
      ArgPartition(preds, count)[a] != ArgPartition(preds, count)[b]
  {
    var all, top := Indexed(preds), IndexedTop(preds, count);
    assert forall k | 0 <= k < |top| :: top[k] in all;
    SubMultisetDistinct(all, top);
  }

  /** An indexed score carries its index and the score at that index. */
  lemma IndexedMember(preds: seq<real>, x: Scored)
    requires x in Indexed(preds)
    ensures x.id < |preds| && x.score == preds[x.id]
  {
    var all := Indexed(preds);
    var i :| 0 <= i < |all| && all[i] == x;
  }

  /** An index left out of the partition scores no higher than one in it. */
  lemma LeftOutRanksLower(preds: seq<real>, count: nat, j: nat, k: nat)
    requires k < |ArgPartition(preds, count)| && j < |preds| && j !in ArgPartition(preds, count)
    ensures preds[j] <= preds[ArgPartition(preds, count)[k]]
  {
    var all, top := Indexed(preds), IndexedTop(preds, count);
    LeftOutOfTop(preds, count, j);
    IndexedTopIsBest(preds, count);
    assert all[j] in multiset(all);
    assert top[k] in top;
  }

  /** The indexed score of an index outside the partition is not in the top. */
  lemma LeftOutOfTop(preds: seq<real>, count: nat, j: nat)
    requires j < |preds|
    ensures j !in ArgPartition(preds, count) ==> Indexed(preds)[j] !in multiset(IndexedTop(preds, count))
  {
    var top, ids := IndexedTop(preds, count), ArgPartition(preds, count);
    if j !in ids {
      forall t | 0 <= t < |top|
        ensures top[t] != Indexed(preds)[j]
      {
        assert ids[t] in ids;
      }
    }
  }

  lemma IndexedTopIsBest(preds: seq<real>, count: nat)
    ensures forall x, y | x in multiset(Indexed(preds)) - multiset(IndexedTop(preds, count)) && y in IndexedTop(preds, count) ::
      x.score <= y.score
  {
    TopKIsBest(Indexed(preds), ScoreOf, if count == 0 then |preds| else count);
  }

  /** Every index left out of the partition scores no higher than any
      index in it. */
  lemma ArgPartitionRanks(preds: seq<real>, count: nat)
    ensures forall k, j | 0 <= k < |ArgPartition(preds, count)| && 0 <= j < |preds| && j !in ArgPartition(preds, count) ::
      preds[j] <= preds[ArgPartition(preds, count)[k]]
  {
    forall k, j | 0 <= k < |ArgPartition(preds, count)| && 0 <= j < |preds| && j !in ArgPartition(preds, count)
      ensures preds[j] <= preds[ArgPartition(preds, count)[k]]
    {
      LeftOutRanksLower(preds, count, j, k);
    }
  }

  /** Any in-bounds request has a partition. */
  lemma ArgPartitionIsPartition(preds: seq<real>, count: nat)
    requires KthInBounds(count, |preds|)
    ensures IsPartition(preds, count, ArgPartition(preds, count))
  {
    ArgPartitionShape(preds, count);
    ArgPartitionRanks(preds, count);
  }
}
