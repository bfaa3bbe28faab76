/** The ranking machinery the recommenders share: Python's stable descending
    sort, the top-k prefix, the `{id: score}` dictionary of candidates scoring
    at least 4, sampling without replacement from it, and the sorted-or-sampled
    tail that ends both the kNN `topN` and the ALS `recommend_user`. */
module Ranking {
  import opened Common

  /** A scored id: an (item, score) or (user, similarity) pair. */
  datatype Scored = Scored(id: nat, score: real)

  function ScoreOf(x: Scored): real {
    x.score
  }

  /** Earlier elements never have a lower key. */
  ghost predicate SortedDesc<T>(s: seq<T>, key: T -> real) {
    forall a, b | 0 <= a < b < |s| :: key(s[a]) >= key(s[b])
  }

  /** No id occurs twice. */
  ghost predicate DistinctIds(s: seq<Scored>) {
    forall a, b | 0 <= a < b < |s| :: s[a].id != s[b].id
  }

  function IdSet(s: seq<Scored>): set<nat> {
    set x | x in s :: x.id
  }

  /** `s[:k]` */
  function Take<T>(s: seq<T>, k: nat): (r: seq<T>)
    ensures |r| == Min(k, |s|)
    ensures r == s[..|r|]
  {
    if k <= |s| then s[..k] else s
  }

  /** A prefix keeps the order and the distinct ids of the list. */
  lemma TakeKeeps(s: seq<Scored>, k: nat)
    ensures forall x | x in Take(s, k) :: x in s
    ensures SortedDesc(s, ScoreOf) ==> SortedDesc(Take(s, k), ScoreOf)
    ensures DistinctIds(s) ==> DistinctIds(Take(s, k))
  {
    var r := Take(s, k);
    assert forall j | 0 <= j < |r| :: r[j] == s[j];
  }

  /** In a sorted list, an element past the prefix scores no higher than
      one in it. */
  lemma PrefixOutranksRest(s: seq<Scored>, k: nat, x: Scored, y: Scored)
    requires SortedDesc(s, ScoreOf) && x in s && x !in Take(s, k) && y in Take(s, k)
    ensures x.score <= y.score
  {
    var r := Take(s, k);
    assert forall i | 0 <= i < |r| :: r[i] == s[i];
    assert forall i | 0 <= i < |r| :: s[i] != x;
    var q :| 0 <= q < |s| && s[q] == x;
    var t :| 0 <= t < |r| && r[t] == y;
    assert q >= |r|;
    assert s[t] == y;
  }

  /** `s[1:]` */
  function DropFirst<T>(s: seq<T>): (r: seq<T>)
    ensures |s| > 0 ==> r == s[1..]
    ensures |s| == 0 ==> r == []
  {
    if |s| == 0 then [] else s[1..]
  }

  /** The first `k` after the head of a sorted list with distinct ids keep
      its order and distinctness and never repeat the head's id. */
  lemma AfterHead(s: seq<Scored>, k: nat)
    requires SortedDesc(s, ScoreOf) && DistinctIds(s) && |s| > 0
    ensures var r := Take(DropFirst(s), k);
      && |r| == Min(k, |s| - 1) && SortedDesc(r, ScoreOf) && DistinctIds(r)
      && forall x | x in r :: x in s && x.id != s[0].id
  {
    var r := Take(DropFirst(s), k);
    assert forall j | 0 <= j < |r| :: r[j] == s[j + 1];
  }

  /** In a sorted list, an element other than the head that is past the
      first `k` after the head scores no higher than any of those `k`. */
  lemma PastHeadOutranked(s: seq<Scored>, k: nat, x: Scored, y: Scored)
    requires SortedDesc(s, ScoreOf) && |s| > 0 && x in s && x != s[0]
    requires x !in Take(DropFirst(s), k) && y in Take(DropFirst(s), k)
    ensures x.score <= y.score
  {
    var t := s[1..];
    assert forall a, b | 0 <= a < b < |t| :: t[a] == s[a + 1] && t[b] == s[b + 1];
    assert x in t by { assert s == [s[0]] + t; }
    PrefixOutranksRest(t, k, x, y);
  }

  // ---------------------------------------------------------------------
  // Stable descending sort

  /** Inserts `x` in front of the first element whose key does not exceed its
      own, so that it precedes every element with an equal key. */
  function Insert<T>(x: T, s: seq<T>, key: T -> real): (r: seq<T>)
    requires SortedDesc(s, key)
    ensures |r| == |s| + 1
    ensures multiset(r) == multiset(s) + multiset{x}
    ensures SortedDesc(r, key)
  {
    if |s| == 0 || key(x) >= key(s[0]) then
      [x] + s
    else
      var t := Insert(x, s[1..], key);
      InsertBelowHead(x, s, key, t);
      [s[0]] + t
  }

  /** Putting the head back in front of the insertion into the tail keeps
      the list sorted and adds exactly `x`. */
  lemma InsertBelowHead<T>(x: T, s: seq<T>, key: T -> real, t: seq<T>)
    requires |s| > 0 && SortedDesc(s, key) && key(x) < key(s[0])
    requires SortedDesc(t, key) && multiset(t) == multiset(s[1..]) + multiset{x}
    ensures SortedDesc([s[0]] + t, key)
    ensures multiset([s[0]] + t) == multiset(s) + multiset{x}
  {
    forall j | 0 <= j < |t|
      ensures key(t[j]) <= key(s[0])
    {
      assert t[j] in multiset(t);
      if t[j] != x {
        assert t[j] in multiset(s[1..]);
        assert t[j] in s[1..];
      }
    }
    ConsTail(s);
  }

  /** When `[y] + t` is sorted. */
  lemma SortedCons<T>(y: T, t: seq<T>, key: T -> real)
    ensures SortedDesc([y] + t, key) <==> SortedDesc(t, key) && forall z | z in t :: key(z) <= key(y)
  {
    if SortedDesc([y] + t, key) {
      SortedConsParts(y, t, key);
    }
    if SortedDesc(t, key) && forall z | z in t :: key(z) <= key(y) {
      var s := [y] + t;
      forall a, b | 0 <= a < b < |s|
        ensures key(s[a]) >= key(s[b])
      {
        assert s[b] == t[b - 1] && t[b - 1] in t;
        if a > 0 {
          assert s[a] == t[a - 1];
        }
      }
    }
  }

  lemma SortedConsParts<T>(y: T, t: seq<T>, key: T -> real)
    requires SortedDesc([y] + t, key)
    ensures SortedDesc(t, key) && forall z | z in t :: key(z) <= key(y)
  {
    var s := [y] + t;
    forall a, b | 0 <= a < b < |t|
      ensures key(t[a]) >= key(t[b])
    {
      assert s[a + 1] == t[a] && s[b + 1] == t[b];
    }
    forall z | z in t
      ensures key(z) <= key(y)
    {
      var j :| 0 <= j < |t| && t[j] == z;
      assert s[0] == y && s[j + 1] == z;
    }
  }

  /** Python's `sorted(s, key=key, reverse=True)`. */
  function SortDesc<T>(s: seq<T>, key: T -> real): (r: seq<T>)
    ensures |r| == |s|
    ensures multiset(r) == multiset(s)
    ensures SortedDesc(r, key)
    ensures forall x | x in r :: x in s
  {
    if |s| == 0 then [] else
      assert s == [s[0]] + s[1..];
      var r := Insert(s[0], SortDesc(s[1..], key), key);
      assert multiset(r) == multiset(s);
      assert forall x | x in r :: x in multiset(r);
      r
  }

  /** The elements whose key is `c`, in order. */
  function Ties<T>(s: seq<T>, key: T -> real, c: real): seq<T> {
    if |s| == 0 then [] else (if key(s[0]) == c then [s[0]] else []) + Ties(s[1..], key, c)
  }

  lemma TiesCons<T>(y: T, t: seq<T>, key: T -> real, c: real)
    ensures Ties([y] + t, key, c) == (if key(y) == c then [y] else []) + Ties(t, key, c)
  {
    assert ([y] + t)[1..] == t;
  }

  lemma {:induction false} InsertTies<T>(x: T, s: seq<T>, key: T -> real, c: real)
    requires SortedDesc(s, key)
    ensures Ties(Insert(x, s, key), key, c) == (if key(x) == c then [x] else []) + Ties(s, key, c)
  {
    if |s| == 0 || key(x) >= key(s[0]) {
      TiesCons(x, s, key, c);
    } else {
      var t := Insert(x, s[1..], key);
      var a := if key(s[0]) == c then [s[0]] else [];
      var b := if key(x) == c then [x] else [];
      var rest := Ties(s[1..], key, c);
      assert Insert(x, s, key) == [s[0]] + t;
      assert Ties(t, key, c) == b + rest by { InsertTies(x, s[1..], key, c); }
      assert Ties([s[0]] + t, key, c) == a + (b + rest) by { TiesCons(s[0], t, key, c); }
      assert Ties(s, key, c) == a + rest by {
        ConsTail(s);
        TiesCons(s[0], s[1..], key, c);
      }
      assert a + (b + rest) == b + (a + rest) by {
        if a == [] {
          assert a + (b + rest) == b + rest && a + rest == rest;
        } else {
          assert b == [];
          assert b + (a + rest) == a + rest && b + rest == rest;
        }
      }
    }
  }

  /** The sort is stable: elements with equal keys keep their input order,
      as Python's `sorted(..., reverse=True)` promises. Together with the
      contract of `SortDesc` this pins the result down uniquely. */
  lemma {:induction false} SortIsStable<T>(s: seq<T>, key: T -> real, c: real)
    ensures Ties(SortDesc(s, key), key, c) == Ties(s, key, c)
  {
    if |s| > 0 {
      SortIsStable(s[1..], key, c);
      InsertTies(s[0], SortDesc(s[1..], key), key, c);
    }
  }

  // ---------------------------------------------------------------------
  // Top k

  /** `sorted(s, key=key, reverse=True)[:k]`. */
  function TopK<T>(s: seq<T>, key: T -> real, k: nat): (r: seq<T>)
    ensures |r| == Min(k, |s|)
    ensures SortedDesc(r, key)
    ensures multiset(r) <= multiset(s)
    ensures forall x | x in r :: x in s
  {
    var t := SortDesc(s, key);
    TakeSub(t, key, k);
    Take(t, k)
  }

  /** A prefix is a sub-multiset of the list and keeps its order. */
  lemma TakeSub<T>(t: seq<T>, key: T -> real, k: nat)
    ensures multiset(Take(t, k)) <= multiset(t)
    ensures SortedDesc(t, key) ==> SortedDesc(Take(t, k), key)
  {
    var r := Take(t, k);
    assert t == r + t[|r|..];
  }

  /** In a sorted list, nothing after position `n` outranks anything before it. */
  lemma SortedPrefixDominates<T>(t: seq<T>, key: T -> real, n: nat)
    requires SortedDesc(t, key) && n <= |t|
    ensures forall x, y | x in t[n..] && y in t[..n] :: key(x) <= key(y)
  {
    forall x, y | x in t[n..] && y in t[..n]
      ensures key(x) <= key(y)
    {
      var a :| 0 <= a < n && t[..n][a] == y;
      var b :| 0 <= b < |t| - n && t[n..][b] == x;
      assert t[a] == y && t[n + b] == x;
    }
  }

  /** The top k are the best k: nothing left out outranks anything kept. */
  lemma TopKIsBest<T>(s: seq<T>, key: T -> real, k: nat)
    ensures forall x, y | x in multiset(s) - multiset(TopK(s, key, k)) && y in TopK(s, key, k) ::
      key(x) <= key(y)
  {
    var t := SortDesc(s, key);
    var r := TopK(s, key, k);
    var n := |r|;
    assert r == t[..n];
    SplitMultiset(t, n);
    SortedPrefixDominates(t, key, n);
  }

  /** When nothing left out of `top` outranks anything in it, an entry of
      `rank` whose id is missing from `top` scores no higher than any entry
      of `top`. */
  lemma MissingIdOutranked(rank: seq<Scored>, top: seq<Scored>, x: Scored, y: Scored)
    requires forall a, b | a in multiset(rank) - multiset(top) && b in top :: a.score <= b.score
    requires x in rank && x.id !in IdSet(top) && y in top
    ensures x.score <= y.score
  {
    assert x !in top by {
      assert forall z | z in top :: z.id in IdSet(top);
    }
    assert x in multiset(rank) - multiset(top) by {
      assert multiset(top)[x] == 0;
      assert multiset(rank)[x] >= 1;
    }
  }

  lemma SplitMultiset<T>(t: seq<T>, n: nat)
    requires n <= |t|
    ensures multiset(t) == multiset(t[..n]) + multiset(t[n..])
  {
    assert t == t[..n] + t[n..];
  }

  /** Number of elements whose key exceeds `t`. */
  function CountAbove<T>(s: seq<T>, key: T -> real, t: real): nat {
    if |s| == 0 then 0 else (if key(s[0]) > t then 1 else 0) + CountAbove(s[1..], key, t)
  }

  lemma {:induction false} CountAboveInsert<T>(x: T, s: seq<T>, key: T -> real, t: real)
    requires SortedDesc(s, key)
    ensures CountAbove(Insert(x, s, key), key, t) == (if key(x) > t then 1 else 0) + CountAbove(s, key, t)
  {
    if |s| == 0 || key(x) >= key(s[0]) {
      assert ([x] + s)[1..] == s;
    } else {
      var r := Insert(x, s[1..], key);
      assert ([s[0]] + r)[1..] == r;
      CountAboveInsert(x, s[1..], key, t);
    }
  }

  lemma {:induction false} CountAboveSort<T>(s: seq<T>, key: T -> real, t: real)
    ensures CountAbove(SortDesc(s, key), key, t) == CountAbove(s, key, t)
  {
    if |s| > 0 {
      CountAboveSort(s[1..], key, t);
      CountAboveInsert(s[0], SortDesc(s[1..], key), key, t);
    }
  }

  lemma {:induction false} CountAboveWitness<T>(s: seq<T>, key: T -> real, t: real)
    ensures CountAbove(s, key, t) > 0 <==> exists j | 0 <= j < |s| :: key(s[j]) > t
  {
    if |s| > 0 {
      CountAboveWitness(s[1..], key, t);
      if CountAbove(s[1..], key, t) > 0 {
        var j :| 0 <= j < |s| - 1 && key(s[1..][j]) > t;
        assert key(s[j + 1]) > t;
      }
    }
  }

  lemma {:induction false} CountAboveNone<T>(s: seq<T>, key: T -> real, t: real)
    requires forall j | 0 <= j < |s| :: key(s[j]) <= t
    ensures CountAbove(s, key, t) == 0
  {
    if |s| > 0 {
      CountAboveNone(s[1..], key, t);
    }
  }

  lemma {:induction false} CountAbovePrefix<T>(s: seq<T>, key: T -> real, t: real, k: nat)
    requires SortedDesc(s, key)
    ensures CountAbove(Take(s, k), key, t) == Min(k, CountAbove(s, key, t))
  {
    if |s| == 0 {
    } else if key(s[0]) <= t {
      CountAboveNone(s, key, t);
      CountAboveNone(Take(s, k), key, t);
    } else if k == 0 {
    } else {
      CountAbovePrefix(s[1..], key, t, k - 1);
      assert Take(s, k)[1..] == Take(s[1..], k - 1);
    }
  }

  /** Among the top k, the number of elements whose key exceeds `t` is as
      large as it can be: the top k take them first. */
  lemma TopKCountAbove<T>(s: seq<T>, key: T -> real, k: nat, t: real)
    ensures CountAbove(TopK(s, key, k), key, t) == Min(k, CountAbove(s, key, t))
  {
    CountAboveSort(s, key, t);
    CountAbovePrefix(SortDesc(s, key), key, t, k);
  }

  // ---------------------------------------------------------------------
  // The {id: score} dictionary of qualifying candidates

  /** The candidates scoring at least 4, in order. */
  function Qualifying(rank: seq<Scored>): (r: seq<Scored>)
    ensures forall x | x in r :: x in rank && x.score >= 4.0
    ensures forall x | x in rank && x.score >= 4.0 :: x in r
  {
    if |rank| == 0 then [] else
      (if rank[0].score >= 4.0 then [rank[0]] else []) + Qualifying(rank[1..])
  }

  /** The ids of the candidates scoring at least 4. */
  function QualifyingIds(rank: seq<Scored>): set<nat> {
    set x | x in rank && x.score >= 4.0 :: x.id
  }

  /** `d[x.id] = x.score` on an insertion-ordered dictionary: an existing key
      keeps its place and takes the new value, a new key goes last. */
  function DictPut(d: seq<Scored>, x: Scored): (r: seq<Scored>)
    ensures DistinctIds(d) ==> DistinctIds(r)
    ensures IdSet(r) == IdSet(d) + {x.id}
    ensures x in r
    ensures forall y | y in r :: y == x || y in d
  {
    if |d| == 0 then
      ConsIds(x, []);
      [x]
    else
      ConsTail(d);
      ConsIds(d[0], d[1..]);
      if d[0].id == x.id then
        ConsIds(x, d[1..]);
        [x] + d[1..]
      else
        var t := DictPut(d[1..], x);
        ConsIds(d[0], t);
        [d[0]] + t
  }

  /** The ids of `[y] + t`, and when they are distinct. */
  lemma ConsIds(y: Scored, t: seq<Scored>)
    ensures IdSet([y] + t) == {y.id} + IdSet(t)
    ensures DistinctIds([y] + t) <==> DistinctIds(t) && y.id !in IdSet(t)
  {
    var s := [y] + t;
    assert forall z | z in s :: z == y || z in t;
    if DistinctIds(s) {
      ConsDistinctTail(y, t);
    }
    if DistinctIds(t) && y.id !in IdSet(t) {
      forall a, b | 0 <= a < b < |s|
        ensures s[a].id != s[b].id
      {
        assert s[b] == t[b - 1];
        if a > 0 {
          assert s[a] == t[a - 1];
        } else {
          assert t[b - 1] in t;
        }
      }
    }
  }

  lemma ConsDistinctTail(y: Scored, t: seq<Scored>)
    requires DistinctIds([y] + t)
    ensures DistinctIds(t) && y.id !in IdSet(t)
  {
    var s := [y] + t;
    forall a, b | 0 <= a < b < |t|
      ensures t[a].id != t[b].id
    {
      assert s[a + 1] == t[a] && s[b + 1] == t[b];
    }
    forall z | z in t
      ensures z.id != y.id
    {
      var j :| 0 <= j < |t| && t[j] == z;
      assert s[0] == y && s[j + 1] == z;
    }
  }

  /** The dictionary a comprehension `{x.id: x.score for x in s}` builds. */
  function BuildDict(s: seq<Scored>): (r: seq<Scored>)
    ensures DistinctIds(r)
    ensures IdSet(r) == IdSet(s)
    ensures forall y | y in r :: y in s
  {
    if |s| == 0 then [] else
      var init := s[..|s| - 1];
      assert s == init + [s[|s| - 1]];
      assert IdSet(s) == IdSet(init) + {s[|s| - 1].id};
      DictPut(BuildDict(init), s[|s| - 1])
  }

  lemma {:induction false} DistinctIdsCard(s: seq<Scored>)
    requires DistinctIds(s)
    ensures |IdSet(s)| == |s|
  {
    if |s| > 0 {
      DistinctIdsCard(s[1..]);
      assert IdSet(s) == IdSet(s[1..]) + {s[0].id};
      assert s[0].id !in IdSet(s[1..]);
    }
  }

  /** The sampling pool: one entry per qualifying id. */
  function Pool(rank: seq<Scored>): (r: seq<Scored>)
    ensures DistinctIds(r)
    ensures |r| == |QualifyingIds(rank)|
    ensures forall x | x in r :: x in rank && x.score >= 4.0
  {
    var q := Qualifying(rank);
    var d := BuildDict(q);
    assert IdSet(q) == QualifyingIds(rank);
    DistinctIdsCard(d);
    d
  }

  // ---------------------------------------------------------------------
  // Sampling without replacement

  function RemoveAt<T>(s: seq<T>, k: nat): (r: seq<T>)
    requires k < |s|
    ensures |r| == |s| - 1
    ensures multiset(r) == multiset(s) - multiset{s[k]}
    ensures forall y | y in r :: y in s
  {
    assert s == s[..k] + [s[k]] + s[k + 1..];
    s[..k] + s[k + 1..]
  }

  /** In a sequence without repeated ids every member occurs once. */
  lemma {:induction false} DistinctOccursOnce(s: seq<Scored>, x: Scored)
    requires DistinctIds(s) && x in s
    ensures multiset(s)[x] == 1
  {
    assert s == [s[0]] + s[1..];
    if s[0] == x {
      assert x !in s[1..];
    } else {
      DistinctOccursOnce(s[1..], x);
    }
  }

  /** Drawing elements from a list with distinct ids, each at most as
      often as it occurs there, keeps ids distinct. */
  lemma SubMultisetDistinct(s: seq<Scored>, t: seq<Scored>)
    requires DistinctIds(s) && multiset(t) <= multiset(s)
    ensures DistinctIds(t)
  {
    forall a, b | 0 <= a < b < |t| ensures t[a].id != t[b].id {
      var x, y := t[a], t[b];
      assert x in multiset(s) && y in multiset(s);
      var i :| 0 <= i < |s| && s[i] == x;
      var j :| 0 <= j < |s| && s[j] == y;
      if i == j {
        assert t == t[..b] + t[b..];
        assert x in t[..b] && x in t[b..];
        assert multiset(t) == multiset(t[..b]) + multiset(t[b..]);
        assert multiset(t)[x] >= 2;
        DistinctOccursOnce(s, x);
        assert false;
      }
    }
  }

  lemma RemoveAtKeepsDistinct(s: seq<Scored>, k: nat)
    requires k < |s|
    ensures DistinctIds(s) ==> DistinctIds(RemoveAt(s, k))
    ensures DistinctIds(s) ==> forall y | y in RemoveAt(s, k) :: y.id != s[k].id
  {
    var r := RemoveAt(s, k);
    assert forall j | 0 <= j < |r| :: r[j] == (if j < k then s[j] else s[j + 1]);
  }

  lemma PickKeepsDistinct(pool: seq<Scored>, k: nat, rest: seq<Scored>)
    requires k < |pool|
    requires forall y | y in rest :: y in RemoveAt(pool, k)
    requires DistinctIds(RemoveAt(pool, k)) ==> DistinctIds(rest)
    ensures forall y | y in [pool[k]] + rest :: y in pool
    ensures DistinctIds(pool) ==> DistinctIds([pool[k]] + rest)
  {
    RemoveAtKeepsDistinct(pool, k);
    var picked := [pool[k]] + rest;
    assert forall y | y in picked :: y == pool[k] || y in rest;
    if DistinctIds(pool) {
      forall a, b | 0 <= a < b < |picked|
        ensures picked[a].id != picked[b].id
      {
        assert picked[b] == rest[b - 1];
        if a > 0 {
          assert picked[a] == rest[a - 1];
        } else {
          assert rest[b - 1] in RemoveAt(pool, k);
        }
      }
    }
  }

  /** The index the next draw selects among `m` remaining entries. */
  function Pick(draws: seq<nat>, m: nat): (k: nat)
    requires m > 0
    ensures k < m
    ensures |draws| > 0 && draws[0] < m ==> k == draws[0]
  {
    (if |draws| == 0 then 0 else draws[0]) % m
  }

  /** `np.random.choice(pool, n, replace=False)` with the randomness made a
      parameter: each draw picks one remaining entry by index. */
  function Sample(pool: seq<Scored>, n: nat, draws: seq<nat>): (r: Result<seq<Scored>>)
    ensures r.Ok? <==> n <= |pool|
    ensures r.Err? ==> r.error == PoolTooSmall
    ensures r.Ok? ==> |r.value| == n
    ensures r.Ok? ==> forall y | y in r.value :: y in pool
    ensures r.Ok? && DistinctIds(pool) ==> DistinctIds(r.value)
    decreases n
  {
    if n > |pool| then Err(PoolTooSmall)
    else if n == 0 then Ok([])
    else
      var k := Pick(draws, |pool|);
      var smaller := RemoveAt(pool, k);
      var rest := Sample(smaller, n - 1, DropFirst(draws));
      PickKeepsDistinct(pool, k, rest.value);
      var picked := [pool[k]] + rest.value;
      Ok(picked)
  }

  lemma SubMultisetAfterPick(pool: seq<Scored>, s: seq<Scored>, k: nat)
    requires |s| > 0 && k < |pool| && pool[k] == s[0]
    requires multiset(s) <= multiset(pool)
    ensures multiset(s[1..]) <= multiset(RemoveAt(pool, k))
  {
    assert s == [s[0]] + s[1..];
    assert multiset(s) == multiset{s[0]} + multiset(s[1..]);
  }

  function IndexOf<T(==)>(s: seq<T>, x: T): (k: nat)
    requires x in s
    ensures k < |s| && s[k] == x
  {
    if s[0] == x then 0 else 1 + IndexOf(s[1..], x)
  }

  /** The draws that make `Sample` pick exactly `s`. */
  function DrawsFor(pool: seq<Scored>, s: seq<Scored>): seq<nat>
    requires multiset(s) <= multiset(pool)
    decreases |s|
  {
    if |s| == 0 then [] else
      assert s[0] in multiset(s);
      var k := IndexOf(pool, s[0]);
      SubMultisetAfterPick(pool, s, k);
      [k] + DrawsFor(RemoveAt(pool, k), s[1..])
  }

  /** One step of `Sample`: a first draw naming the entry `s[0]` followed
      by draws that make the smaller pool yield `s[1..]` yields `s`. */
  lemma SampleStep(pool: seq<Scored>, s: seq<Scored>, k: nat, rest: seq<nat>)
    requires |s| > 0 && k < |pool| && pool[k] == s[0]
    requires Sample(RemoveAt(pool, k), |s| - 1, rest) == Ok(s[1..])
    ensures Sample(pool, |s|, [k] + rest) == Ok(s)
  {
    var draws := [k] + rest;
    assert |s| <= |pool|;
    assert Pick(draws, |pool|) == k;
    assert DropFirst(draws) == rest;
    assert Sample(pool, |s|, draws) == Ok([pool[k]] + s[1..]);
    ConsTail(s);
  }

  lemma ConsTail<T>(s: seq<T>)
    requires |s| > 0
    ensures [s[0]] + s[1..] == s
  {
  }

  /** Every duplicate-free pick of `|s|` entries of the pool, in any order, is
      an outcome of `Sample`: the model leaves the choice fully open. */
  lemma {:induction false} SampleCanDrawAny(pool: seq<Scored>, s: seq<Scored>)
    requires multiset(s) <= multiset(pool)
    ensures Sample(pool, |s|, DrawsFor(pool, s)) == Ok(s)
  {
    if |s| > 0 {
      assert s[0] in multiset(s);
      var k := IndexOf(pool, s[0]);
      SubMultisetAfterPick(pool, s, k);
      var rest := DrawsFor(RemoveAt(pool, k), s[1..]);
      assert DrawsFor(pool, s) == [k] + rest;
      assert Sample(RemoveAt(pool, k), |s| - 1, rest) == Ok(s[1..]) by {
        SampleCanDrawAny(RemoveAt(pool, k), s[1..]);
      }
      SampleStep(pool, s, k, rest);
    }
  }

  // ---------------------------------------------------------------------
  // The sorted-or-sampled tail

  /** The end of `topN` and `recommend_user`: with `randomRec` sample `nRec`
      distinct ids among those scoring at least 4, else the `nRec` best
      candidates in descending order of score. */
  function Select(rank: seq<Scored>, nRec: nat, randomRec: bool, draws: seq<nat>): (r: Result<seq<Scored>>)
    ensures !randomRec ==> r.Ok? && |r.value| == Min(nRec, |rank|)
    ensures !randomRec ==> SortedDesc(r.value, ScoreOf)
    ensures !randomRec ==> multiset(r.value) <= multiset(rank)
    ensures !randomRec ==> forall x, y | x in multiset(rank) - multiset(r.value) && y in r.value ::
      x.score <= y.score
    ensures randomRec ==> (r.Ok? <==> nRec <= |QualifyingIds(rank)|)
    ensures r.Err? ==> r.error == PoolTooSmall
    ensures randomRec && r.Ok? ==> |r.value| == nRec && DistinctIds(r.value)
    ensures r.Ok? ==> forall x | x in r.value :: x in rank
    ensures randomRec && r.Ok? ==> forall x | x in r.value :: x.score >= 4.0
  {
    if randomRec then
      Sample(Pool(rank), nRec, draws)
    else
      TopKIsBest(rank, ScoreOf, nRec);
      Ok(TopK(rank, ScoreOf, nRec))
  }
}
